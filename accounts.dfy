/** Registration (`registerDonor`, `registerRecipient`, script.js:35-138), the
    credential lookup of `loginUser` (script.js:141-182) and the availability flag of
    `updateAvailability` (script.js:220-236). The store updates themselves are the
    methods of `Store.RecordStore`; this module holds the decisions they take. */
module Accounts {
  import opened JsArray
  import opened JsString
  import opened Records

  /** The fields of a registration form; `FormData.get` gives `null` for a field that is
      missing, which is the empty string here. */
  datatype RegistrationForm = RegistrationForm(
    name: string,
    email: string,
    phone: string,
    password: string,
    confirm: string,
    blood: string,
    location: string)

  /** The four notifications with which a registration is refused. */
  datatype RegistrationError = MissingField | PasswordMismatch | PasswordTooShort | EmailAlreadyRegistered

  predicate AllFieldsFilled(form: RegistrationForm)
  {
    && form.name != "" && form.email != "" && form.phone != "" && form.password != ""
    && form.confirm != "" && form.blood != "" && form.location != ""
  }

  /** The checks that both registration functions make, in their order, against the one
      collection that the new record would join: a form is accepted exactly when every
      field is filled, the two passwords agree, the password's `length` (in UTF-16 code
      units) is at least six, and no record of that collection has the form's email; each
      refusal names the first check that fails. */
  function CheckRegistration(form: RegistrationForm, existing: seq<User>): (r: Option<RegistrationError>)
    ensures r.None? <==>
      && AllFieldsFilled(form) && form.password == form.confirm && Utf16Length(form.password) >= 6
      && forall i :: 0 <= i < |existing| ==> existing[i].email != form.email
    ensures r == Some(MissingField) <==> !AllFieldsFilled(form)
    ensures r == Some(PasswordMismatch) <==> AllFieldsFilled(form) && form.password != form.confirm
    ensures r == Some(PasswordTooShort) <==>
      AllFieldsFilled(form) && form.password == form.confirm && Utf16Length(form.password) < 6
  {
    if !AllFieldsFilled(form) then Some(MissingField)
    else if form.password != form.confirm then Some(PasswordMismatch)
    else if Utf16Length(form.password) < 6 then Some(PasswordTooShort)
    else if Find(existing, HasEmail(form.email)).Some? then Some(EmailAlreadyRegistered)
    else None
  }

  /** The record `registerDonor` appends: the form's fields without `confirm`, available
      from the start; it is the record `registerRecipient` would build, plus availability. */
  function NewDonor(form: RegistrationForm, registeredAt: string): (r: User)
    ensures r.name == form.name && r.email == form.email && r.phone == form.phone
    ensures r.password == form.password && r.blood == form.blood && r.location == form.location
    ensures r.registeredAt == registeredAt && r.available
    ensures r.(available := false) == NewRecipient(form, registeredAt)
  {
    User(form.name, form.email, form.phone, form.password, form.blood, form.location,
         true, registeredAt, "", "", "")
  }

  /** The record `registerRecipient` appends: the form's fields without `confirm`, and no
      `available` field, which reads as false. */
  function NewRecipient(form: RegistrationForm, registeredAt: string): (r: User)
    ensures r.name == form.name && r.email == form.email && r.phone == form.phone
    ensures r.password == form.password && r.blood == form.blood && r.location == form.location
    ensures r.registeredAt == registeredAt && !r.available
    ensures r.bloodGroup == "" && r.bloodType == "" && r.role == ""
  {
    User(form.name, form.email, form.phone, form.password, form.blood, form.location,
         false, registeredAt, "", "", "")
  }

  /** An accepted registration keeps the emails of its collection distinct. */
  lemma RegistrationKeepsEmailsUnique(existing: seq<User>, form: RegistrationForm, added: User)
    requires UniqueEmails(existing)
    requires CheckRegistration(form, existing).None? && added.email == form.email
    ensures UniqueEmails(existing + [added])
  {
    var s := existing + [added];
    forall i, j | 0 <= i < j < |s|
      ensures s[i].email != s[j].email
    {
      if j == |existing| {
        assert s[i] == existing[i];
      } else {
        assert s[i] == existing[i] && s[j] == existing[j];
      }
    }
  }

  /** `length` counts UTF-16 code units, so three characters beyond the Basic
      Multilingual Plane make a password long enough. */
  lemma AstralPasswordIsLongEnough(form: RegistrationForm, existing: seq<User>)
    requires AllFieldsFilled(form)
    requires form.password == form.confirm == "\U{1F600}\U{1F600}\U{1F600}"
    ensures |form.password| == 3
    ensures CheckRegistration(form, existing) != Some(PasswordTooShort)
  {
    var p := form.password;
    assert Utf16Length(p[2..]) == 2;
    assert Utf16Length(p[1..]) == 4 by { assert p[1..][1..] == p[2..]; }
    assert Utf16Length(p) == 6;
  }

  /** Once a form has been accepted into a collection, registering the same email there
      again is refused as already registered, however valid the second form is. */
  lemma SecondRegistrationIsRefused(existing: seq<User>, first: RegistrationForm,
                                    second: RegistrationForm, registeredAt: string)
    requires CheckRegistration(first, existing).None?
    requires CheckRegistration(second, []).None? && second.email == first.email
    ensures CheckRegistration(second, existing + [NewDonor(first, registeredAt)]) == Some(EmailAlreadyRegistered)
    ensures CheckRegistration(second, existing + [NewRecipient(first, registeredAt)]) == Some(EmailAlreadyRegistered)
  {
    var d, r := existing + [NewDonor(first, registeredAt)], existing + [NewRecipient(first, registeredAt)];
    assert d[|existing|].email == second.email;
    assert r[|existing|].email == second.email;
  }

  /** The fixed administrator credentials of `loginUser`. */
  const AdminEmail := "admin@rapidblood.com"
  const AdminPassword := "admin123"

  /** The record has both this email and this password: the test of the login lookup. */
  function HasCredentials(email: string, password: string): User -> bool
  {
    (u: User) => u.email == email && u.password == password
  }

  /** The collection that `loginUser` searches: donors for "donor", recipients for any
      other non-admin login type, whatever its spelling. */
  function LoginCollection(loginType: string, donors: seq<User>, recipients: seq<User>): (r: seq<User>)
    ensures r == donors || r == recipients
    ensures loginType == "donor" ==> r == donors
    ensures loginType != "donor" ==> r == recipients
  {
    if loginType == "donor" then donors else recipients
  }

  /** The user that `loginUser` stores as `currentUser`, if any. All three inputs must be
      non-empty; "admin" accepts only the fixed credentials; any other type accepts a
      record of its collection with that email and password, and the session copy gets
      the login type as its role. */
  function LoginLookup(email: string, password: string, loginType: string,
                       donors: seq<User>, recipients: seq<User>): (r: Option<User>)
    ensures r.Some? ==> r.value.email == email && r.value.role == loginType
    ensures loginType == "admin" ==> (r.Some? <==> email == AdminEmail && password == AdminPassword)
    ensures loginType != "admin" ==>
      var users := LoginCollection(loginType, donors, recipients);
      && (r.Some? <==> email != "" && password != "" && loginType != ""
                       && exists i :: 0 <= i < |users| && users[i].email == email && users[i].password == password)
      && (r.Some? ==> exists k :: 0 <= k < |users| && r.value == users[k].(role := loginType)
                                  && users[k].email == email && users[k].password == password
                                  && forall j :: 0 <= j < k ==> !(users[j].email == email && users[j].password == password))
  {
    if email == "" || password == "" || loginType == "" then None
    else if loginType == "admin" then
      if email == AdminEmail && password == AdminPassword
      then Some(User("Admin", email, "", "", "", "", false, "", "", "", "admin"))
      else None
    else
      match FindIndex(LoginCollection(loginType, donors, recipients), HasCredentials(email, password))
      case None => None
      case Some(i) => Some(LoginCollection(loginType, donors, recipients)[i].(role := loginType))
  }

  /** `updateAvailability` as a reference definition: the first donor whose email is
      `email` gets the flag, every other donor stays as it was; an unknown email
      changes nothing. */
  function SetAvailability(donors: seq<User>, email: string, available: bool): (r: seq<User>)
    ensures |r| == |donors|
    ensures forall j :: 0 <= j < |donors| ==>
      r[j] == if FindIndex(donors, HasEmail(email)) == Some(j) then donors[j].(available := available) else donors[j]
  {
    if donors == [] then []
    else if donors[0].email == email then [donors[0].(available := available)] + donors[1..]
    else [donors[0]] + SetAvailability(donors[1..], email, available)
  }

  /** Setting the flag twice leaves what the second call set. */
  lemma {:induction false} SetAvailabilityLastCallWins(donors: seq<User>, email: string, first: bool, second: bool)
    ensures SetAvailability(SetAvailability(donors, email, first), email, second)
         == SetAvailability(donors, email, second)
  {
    if donors != [] {
      var once := SetAvailability(donors, email, first);
      if donors[0].email == email {
        assert once == [donors[0].(available := first)] + donors[1..];
        assert once[0].email == email && once[1..] == donors[1..];
      } else {
        SetAvailabilityLastCallWins(donors[1..], email, first, second);
        assert once == [donors[0]] + SetAvailability(donors[1..], email, first);
        assert once[0] == donors[0] && once[1..] == SetAvailability(donors[1..], email, first);
      }
    }
  }

  /** No email changes, so distinct emails stay distinct. */
  lemma SetAvailabilityKeepsEmailsUnique(donors: seq<User>, email: string, available: bool)
    requires UniqueEmails(donors)
    ensures UniqueEmails(SetAvailability(donors, email, available))
  {
    var r := SetAvailability(donors, email, available);
    assert forall j :: 0 <= j < |r| ==> r[j].email == donors[j].email;
  }
}
