/** The state that script.js keeps in the browser's local storage (`donors`,
    `recipients`, `requests`, `chatMessages`, `currentUser`) and in its module-level
    `currentChatUser` (script.js:945), with the operations that change it. Each method
    reads and writes the fields where the source reads a key with `getData` and writes
    it back with `saveData`; form fields, prompt answers, `Date.now()` ids and ISO
    times are parameters. */
module Store {
  import opened JsArray
  import opened JsString
  import opened Records
  import opened Accounts
  import opened Requests
  import opened BloodRepair
  import opened ChatThreads

  class RecordStore {
    var donors: seq<User>
    var recipients: seq<User>
    var requests: seq<Request>
    var chatMessages: map<string, seq<ChatMessage>>
    var currentUser: Option<User>
    var currentChatUser: Option<User>

    /** Emails are unique within each collection; every operation below keeps this. */
    ghost predicate Valid()
      reads this
    {
      UniqueEmails(donors) && UniqueEmails(recipients)
    }

    /** Empty storage: every `getData` of a missing key gives `[]`. */
    constructor ()
      ensures donors == [] && recipients == [] && requests == [] && chatMessages == map[]
      ensures currentUser.None? && currentChatUser.None?
      ensures Valid()
    {
      donors, recipients, requests := [], [], [];
      chatMessages := map[];
      currentUser, currentChatUser := None, None;
    }

    /** `registerDonor`: an accepted form appends one available donor at the end; a
        refused one leaves the donors as they were. */
    method RegisterDonor(form: RegistrationForm, registeredAt: string) returns (refused: Option<RegistrationError>)
      modifies this`donors
      ensures refused == CheckRegistration(form, old(donors))
      ensures donors == if refused.None? then old(donors) + [NewDonor(form, registeredAt)] else old(donors)
      ensures old(Valid()) ==> Valid()
    {
      refused := CheckRegistration(form, donors);
      if refused.None? {
        if Valid() {
          RegistrationKeepsEmailsUnique(donors, form, NewDonor(form, registeredAt));
        }
        donors := donors + [NewDonor(form, registeredAt)];
      }
    }

    /** `registerRecipient`: the same checks against the recipients only. */
    method RegisterRecipient(form: RegistrationForm, registeredAt: string) returns (refused: Option<RegistrationError>)
      modifies this`recipients
      ensures refused == CheckRegistration(form, old(recipients))
      ensures recipients == if refused.None? then old(recipients) + [NewRecipient(form, registeredAt)] else old(recipients)
      ensures old(Valid()) ==> Valid()
    {
      refused := CheckRegistration(form, recipients);
      if refused.None? {
        if Valid() {
          RegistrationKeepsEmailsUnique(recipients, form, NewRecipient(form, registeredAt));
        }
        recipients := recipients + [NewRecipient(form, registeredAt)];
      }
    }

    /** `loginUser`: a successful lookup becomes the session user; a failed one leaves the
        session as it was. The collections are not changed: the role is set on a copy.
        With unique emails, a donor or recipient session is the one record of its
        collection with that email. */
    method LoginUser(email: string, password: string, loginType: string) returns (user: Option<User>)
      modifies this`currentUser
      ensures user == LoginLookup(email, password, loginType, donors, recipients)
      ensures currentUser == if user.Some? then user else old(currentUser)
      ensures Valid() && user.Some? && loginType != "admin" ==>
        var users := LoginCollection(loginType, donors, recipients);
        exists k :: 0 <= k < |users| && user.value == users[k].(role := loginType) && users[k].email == email
                    && forall j :: 0 <= j < |users| && j != k ==> users[j].email != email
    {
      user := LoginLookup(email, password, loginType, donors, recipients);
      if user.Some? {
        currentUser := user;
      }
    }

    /** `updateAvailability`: the first donor with the session's email gets `available`
        set to `status == "available"`; without a session or such a donor nothing changes. */
    method UpdateAvailability(status: string)
      modifies this`donors
      ensures currentUser.None? ==> donors == old(donors)
      ensures currentUser.Some? ==>
        donors == SetAvailability(old(donors), currentUser.value.email, status == "available")
      ensures old(Valid()) ==> Valid()
    {
      if currentUser.Some? {
        var email := currentUser.value.email;
        ghost var expected := SetAvailability(donors, email, status == "available");
        var i := FindIndex(donors, HasEmail(email));
        if i.Some? {
          donors := donors[i.value := donors[i.value].(available := status == "available")];
        }
        assert donors == expected;
        if old(Valid()) {
          SetAvailabilityKeepsEmailsUnique(old(donors), email, status == "available");
        }
      }
    }

    /** `sendBloodRequest`: one pending request is appended after the existing ones. */
    method SendBloodRequest(donorName: string, recipientName: string, bloodType: string, location: string,
                            answer: Option<string>, id: string, date: string)
      modifies this`requests
      ensures requests == old(requests) + [NewRequest(id, donorName, recipientName, bloodType, location, answer, date)]
    {
      requests := requests + [NewRequest(id, donorName, recipientName, bloodType, location, answer, date)];
    }

    /** `respondToRequest`: the first request with the id gets the response and the time,
        whatever its status was; an unknown id changes nothing. */
    method RespondToRequest(requestId: string, response: string, respondedAt: string)
      modifies this`requests
      ensures requests == Respond(old(requests), requestId, response, respondedAt)
    {
      ghost var expected := Respond(requests, requestId, response, respondedAt);
      var i := FindIndex(requests, HasId(requestId));
      if i.Some? {
        requests := requests[i.value := requests[i.value].(status := response, respondedAt := Some(respondedAt))];
      }
      assert requests == expected;
    }

    /** `fixBloodGroupData` on the stored collections: each collection is repaired, and
        saved only if its pass found a record to repair; either way what is stored
        afterwards is the repaired collection. */
    method FixBloodGroupData() returns (donorsUpdated: bool, recipientsUpdated: bool)
      modifies this`donors, this`recipients
      ensures donors == Repaired(old(donors)) && recipients == Repaired(old(recipients))
      ensures donorsUpdated <==> HasBlankBlood(old(donors))
      ensures recipientsUpdated <==> HasBlankBlood(old(recipients))
      ensures old(Valid()) ==> Valid()
    {
      var fixedDonors, fixedRecipients;
      fixedDonors, donorsUpdated := RepairRecords(donors);
      fixedRecipients, recipientsUpdated := RepairRecords(recipients);
      if donorsUpdated {
        donors := fixedDonors;
      }
      if recipientsUpdated {
        recipients := fixedRecipients;
      }
      assert donors == fixedDonors;
      assert recipients == fixedRecipients;
    }

    /** `quickFixBloodGroups`: every record without `blood` gets the label of its
        position; both collections are saved. */
    method QuickFixBloodGroups()
      modifies this`donors, this`recipients
      ensures |donors| == |old(donors)| && |recipients| == |old(recipients)|
      ensures forall i :: 0 <= i < |donors| ==>
        donors[i] == if old(donors)[i].blood == "" then old(donors)[i].(blood := DefaultGroups[i % 8]) else old(donors)[i]
      ensures forall i :: 0 <= i < |recipients| ==>
        recipients[i] == if old(recipients)[i].blood == "" then old(recipients)[i].(blood := DefaultGroups[i % 8])
                         else old(recipients)[i]
      ensures !HasBlankBlood(donors) && !HasBlankBlood(recipients)
      ensures old(Valid()) ==> Valid()
    {
      donors := FillByPosition(donors);
      recipients := FillByPosition(recipients);
    }

    /** The state-changing line of `selectChatUser`: the chosen user becomes the peer. */
    method SelectChatUser(user: User)
      modifies this`currentChatUser
      ensures currentChatUser == Some(user)
    {
      currentChatUser := Some(user);
    }

    /** `sendMessage`: with non-blank text, a peer and a session user, the trimmed text is
        appended, sent by the session's email, to the thread of the session user and the
        peer, and no other thread changes; otherwise nothing changes (without a session
        user the code throws before saving). */
    method SendMessage(input: string, timestamp: string)
      modifies this`chatMessages
      ensures AllWhitespace(input) || currentChatUser.None? || currentUser.None? ==>
        chatMessages == old(chatMessages)
      ensures !AllWhitespace(input) && currentChatUser.Some? && currentUser.Some? ==>
        chatMessages == AppendMessage(old(chatMessages),
                                      GetChatId(currentUser.value, currentChatUser.value),
                                      ChatMessage(Trim(input), currentUser.value.email, timestamp))
    {
      var text := Trim(input);
      if text == "" || currentChatUser.None? {
        return;
      }
      if currentUser.None? {
        return;
      }
      var chatId := GetChatId(currentUser.value, currentChatUser.value);
      chatMessages := AppendMessage(chatMessages, chatId, ChatMessage(text, currentUser.value.email, timestamp));
    }
  }
}
