/** The admin's blood-group repair passes over donor and recipient records:
    `fixBloodGroupData` (script.js:587-643), which fills a missing `blood` from the
    legacy `bloodGroup` or `bloodType` field or with "Unknown" and reports whether it
    changed anything, and `quickFixBloodGroups` (script.js:680-720), which fills a
    missing `blood` with a label chosen by the record's position. */
module BloodRepair {
  import opened Records
  import opened Compatibility

  /** The three branches that `fixBloodGroupData` applies to one record. */
  function RepairBlood(u: User): (r: User)
    ensures r.blood != ""
    ensures u.blood != "" ==> r == u
    ensures u.blood == "" ==> r == u.(blood := if u.bloodGroup != "" then u.bloodGroup
                                              else if u.bloodType != "" then u.bloodType
                                              else "Unknown")
  {
    if u.blood == "" && u.bloodGroup == "" && u.bloodType == "" then u.(blood := "Unknown")
    else if u.bloodGroup != "" && u.blood == "" then u.(blood := u.bloodGroup)
    else if u.bloodType != "" && u.blood == "" then u.(blood := u.bloodType)
    else u
  }

  /** Some record lacks a `blood` value. */
  predicate HasBlankBlood(users: seq<User>)
  {
    exists i | 0 <= i < |users| :: users[i].blood == ""
  }

  /** One `forEach` loop of `fixBloodGroupData`: every record repaired, and the
      `...Updated` flag that decides whether the collection is saved. */
  method RepairRecords(users: seq<User>) returns (repaired: seq<User>, updated: bool)
    ensures |repaired| == |users|
    ensures forall i :: 0 <= i < |users| ==> repaired[i] == RepairBlood(users[i])
    ensures updated <==> HasBlankBlood(users)
    ensures !HasBlankBlood(repaired)
  {
    repaired := [];
    updated := false;
    var i := 0;
    while i < |users|
      invariant 0 <= i <= |users|
      invariant |repaired| == i
      invariant forall k :: 0 <= k < i ==> repaired[k] == RepairBlood(users[k])
      invariant updated <==> exists k :: 0 <= k < i && users[k].blood == ""
    {
      var u := users[i];
      if u.blood == "" && u.bloodGroup == "" && u.bloodType == "" {
        u := u.(blood := "Unknown");
        updated := true;
      } else if u.bloodGroup != "" && u.blood == "" {
        u := u.(blood := u.bloodGroup);
        updated := true;
      } else if u.bloodType != "" && u.blood == "" {
        u := u.(blood := u.bloodType);
        updated := true;
      }
      repaired := repaired + [u];
      i := i + 1;
    }
  }

  /** What the repair pass leaves in a collection. */
  function Repaired(users: seq<User>): (r: seq<User>)
    ensures |r| == |users|
  {
    seq(|users|, i requires 0 <= i < |users| => RepairBlood(users[i]))
  }

  /** A second pass finds nothing to repair, so it changes nothing and saves nothing; a
      record filled with "Unknown" is never matched by a donor search, since that is
      not a label of the compatibility table. */
  lemma RepairIsIdempotent(users: seq<User>)
    ensures !HasBlankBlood(Repaired(users))
    ensures Repaired(Repaired(users)) == Repaired(users)
    ensures forall i, key :: 0 <= i < |users| && Repaired(users)[i].blood == "Unknown"
                           ==> !IsBloodCompatible(key, Repaired(users)[i].blood)
  {
    var once := Repaired(users);
    assert forall i :: 0 <= i < |users| ==> once[i] == RepairBlood(users[i]);
    assert forall i :: 0 <= i < |users| ==> RepairBlood(once[i]) == once[i];
    forall i, key | 0 <= i < |users| && once[i].blood == "Unknown"
      ensures !IsBloodCompatible(key, once[i].blood)
    {
      TableExtremes(key, "Unknown");
    }
  }

  /** The labels `quickFixBloodGroups` hands out by position. */
  const DefaultGroups: seq<string> := ["A+", "B+", "O+", "AB+", "A-", "B-", "O-", "AB-"]

  /** One `forEach` loop of `quickFixBloodGroups`: a record without `blood` gets
      `DefaultGroups[index % 8]`, where `index` is its position in the whole collection;
      every other record is left alone. */
  method FillByPosition(users: seq<User>) returns (filled: seq<User>)
    ensures |filled| == |users|
    ensures forall i :: 0 <= i < |users| ==>
      filled[i] == if users[i].blood == "" then users[i].(blood := DefaultGroups[i % |DefaultGroups|]) else users[i]
    ensures forall i :: 0 <= i < |users| && users[i].blood == "" ==> filled[i].blood in BloodLabels
    ensures !HasBlankBlood(filled)
  {
    filled := [];
    var i := 0;
    while i < |users|
      invariant 0 <= i <= |users|
      invariant |filled| == i
      invariant forall k :: 0 <= k < i ==>
        filled[k] == if users[k].blood == "" then users[k].(blood := DefaultGroups[k % |DefaultGroups|]) else users[k]
    {
      var u := users[i];
      if u.blood == "" {
        u := u.(blood := DefaultGroups[i % |DefaultGroups|]);
      }
      filled := filled + [u];
      i := i + 1;
    }
    forall i | 0 <= i < |users| && users[i].blood == ""
      ensures filled[i].blood in BloodLabels
    {
      assert DefaultGroups[i % |DefaultGroups|] in BloodLabels;
    }
  }
}
