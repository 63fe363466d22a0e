/** The filtering part of `searchDonors` (script.js:307-328): the logged-in
    recipient's own record is looked up by email, and the donors that are available,
    whose location contains the query ignoring case, and that the table pairs with the
    recipient's label are kept in store order. The emptiness test is made on the
    trimmed query, the substring test on the query as typed. */
module DonorSearch {
  import opened JsArray
  import opened JsString
  import opened Records
  import opened Compatibility

  /** The donor's location, lower-cased, contains the query, lower-cased. */
  predicate LocationMatches(donor: User, query: string)
  {
    Includes(ToLower(donor.location), ToLower(query))
  }

  /** The location test ignores case on both sides: lower-casing the stored location or
      the query first changes nothing. */
  lemma LocationMatchIgnoresCase(donor: User, query: string)
    ensures LocationMatches(donor.(location := ToLower(donor.location)), query) == LocationMatches(donor, query)
    ensures LocationMatches(donor, ToLower(query)) == LocationMatches(donor, query)
  {
    ToLowerIsIdempotent(donor.location);
    ToLowerIsIdempotent(query);
  }

  /** The callback that `searchDonors` passes to `donors.filter`. */
  function IsMatch(recipientBlood: string, query: string): User -> bool
  {
    (d: User) => d.available && LocationMatches(d, query) && IsBloodCompatible(recipientBlood, d.blood)
  }

  /** What a search shows: the "enter a location" error, the list of donors, or nothing
      because a TypeError was thrown (no session user, or no recipient record for it). */
  datatype SearchOutcome = EmptyLocation | ThrowsTypeError | Found(donors: seq<User>)

  /** `searchDonors()` with the query field, the session user and the two collections as
      inputs. `user.email` is read only inside the `find` callback, so a missing session
      throws only when there are recipients; `recipient.blood` is read only for a donor
      that passed the availability and location tests. */
  function SearchDonors(query: string, user: Option<User>, recipients: seq<User>, donors: seq<User>): (r: SearchOutcome)
    ensures r == EmptyLocation <==> AllWhitespace(query)
    ensures r == ThrowsTypeError ==> user.None? || Find(recipients, HasEmail(user.value.email)).None?
    ensures r.Found? ==> forall k :: 0 <= k < |r.donors| ==>
      r.donors[k] in donors && r.donors[k].available && LocationMatches(r.donors[k], query)
  {
    if Trim(query) == "" then EmptyLocation
    else if user.None? && recipients != [] then ThrowsTypeError
    else
      var recipient := if user.None? then None else Find(recipients, HasEmail(user.value.email));
      match recipient
      case Some(rec) => Found(Filter(donors, IsMatch(rec.blood, query)))
      case None =>
        if exists i | 0 <= i < |donors| :: donors[i].available && LocationMatches(donors[i], query)
        then ThrowsTypeError
        else Found([])
  }

  /** With a non-blank query and the recipient's record found, the search shows exactly
      the donors, in store order, that are available, whose lower-cased location
      contains the lower-cased untrimmed query, and that the table pairs with the
      recipient's label: donor k of the result is donor `idx[k]` of the store, the
      positions increase, and a position is kept exactly when all three tests pass. */
  lemma SearchKeepsExactlyMatchingDonorsInOrder(query: string, user: User, recipients: seq<User>,
                                                 donors: seq<User>, rec: User)
    requires !AllWhitespace(query)
    requires Find(recipients, HasEmail(user.email)) == Some(rec)
    ensures var r := SearchDonors(query, Some(user), recipients, donors);
      var idx := KeptIndices(donors, IsMatch(rec.blood, query));
      && r.Found?
      && |idx| == |r.donors|
      && (forall k :: 0 <= k < |idx| ==> idx[k] < |donors| && r.donors[k] == donors[idx[k]])
      && (forall k, l :: 0 <= k < l < |idx| ==> idx[k] < idx[l])
      && (forall j :: 0 <= j < |donors| ==>
            (j in idx <==> donors[j].available && LocationMatches(donors[j], query)
                           && IsBloodCompatible(rec.blood, donors[j].blood)))
  {
    FilterKeepsExactlyInOrder(donors, IsMatch(rec.blood, query));
  }

  /** The scenario of a donor "Alice" (O-, available, Dhaka) and a recipient "Bob" (A+,
      Dhaka): because the table is keyed the other way round, Bob's search for "Dhaka"
      shows no one, and neither does a search for "Chittagong". */
  lemma AliceIsNotOfferedToBob()
    ensures var alice := User("Alice", "alice@x.org", "1", "secret1", "O-", "Dhaka", true, "t", "", "", "");
      var bob := User("Bob", "bob@x.org", "2", "secret2", "A+", "Dhaka", false, "t", "", "", "recipient");
      && SearchDonors("Dhaka", Some(bob), [bob], [alice]) == Found([])
      && SearchDonors("Chittagong", Some(bob), [bob], [alice]) == Found([])
  {
    var alice := User("Alice", "alice@x.org", "1", "secret1", "O-", "Dhaka", true, "t", "", "", "");
    var bob := User("Bob", "bob@x.org", "2", "secret2", "A+", "Dhaka", false, "t", "", "", "recipient");
    UniversalDonorMissedForAPositive();
    assert !IsMatch("A+", "Dhaka")(alice);
    assert !AllWhitespace("Dhaka") by { assert !IsWhitespace("Dhaka"[0]); }
    assert !AllWhitespace("Chittagong") by { assert !IsWhitespace("Chittagong"[0]); }
    assert Filter([alice], IsMatch("A+", "Dhaka")) == [];
    assert Filter([alice], IsMatch("A+", "Chittagong")) == [];
  }

  /** A query with a trailing blank passes the emptiness test but, being untrimmed, no
      longer occurs in a location that it otherwise names exactly. */
  lemma TrailingBlankQueryMissesLocation(donor: User, user: User, rec: User, recipients: seq<User>)
    requires donor.location == "Dhaka" && donor.available
    requires Find(recipients, HasEmail(user.email)) == Some(rec)
    ensures SearchDonors("Dhaka ", Some(user), recipients, [donor]) == Found([])
  {
    assert !AllWhitespace("Dhaka ") by { assert !IsWhitespace("Dhaka "[0]); }
    IncludesBasics(ToLower(donor.location), ToLower("Dhaka "));
    assert !IsMatch(rec.blood, "Dhaka ")(donor);
    assert Filter([donor], IsMatch(rec.blood, "Dhaka ")) == [];
  }
}
