/** The dashboard chat of script.js (script.js:944-1071): the list of people a user can
    chat with, the thread key built from two emails, and the map from thread keys to
    message lists. */
module ChatThreads {
  import opened JsArray
  import opened JsString
  import opened Records
  import opened Accounts

  /** `loadChatUsers` shows a donor the recipients and everyone else the donors, the
      session user included: see RecipientIsOfferedThemself and AdminIsOfferedDonors. */
  function ChatCandidates(currentUser: User, donors: seq<User>, recipients: seq<User>): (r: seq<User>)
    ensures r == donors || r == recipients
    ensures currentUser.role == "donor" ==> r == recipients
    ensures currentUser.role != "donor" ==> r == donors
  {
    if currentUser.role == "donor" then recipients else donors
  }

  /** Unlike the chat page, the dashboard does not leave the session user out: someone who
      registers one email and password as both donor and recipient and logs in as a
      recipient is offered their own donor record to chat with. */
  lemma RecipientIsOfferedThemself(form: RegistrationForm, donors: seq<User>, recipients: seq<User>, at: string)
    requires CheckRegistration(form, donors).None? && CheckRegistration(form, recipients).None?
    ensures var ds, rs := donors + [NewDonor(form, at)], recipients + [NewRecipient(form, at)];
      var session := LoginLookup(form.email, form.password, "recipient", ds, rs);
      && session == Some(NewRecipient(form, at).(role := "recipient"))
      && NewDonor(form, at) in ChatCandidates(session.value, ds, rs)
      && NewDonor(form, at).email == session.value.email
  {
    var ds, rs := donors + [NewDonor(form, at)], recipients + [NewRecipient(form, at)];
    assert forall j :: 0 <= j < |recipients| ==> rs[j] == recipients[j];
    FindIndexIsFirstMatch(rs, HasCredentials(form.email, form.password), |recipients|);
    assert ds[|donors|] == NewDonor(form, at);
  }

  /** An administrator's session has a role other than "donor", so it is offered the donors.
      The admin dashboard itself never loads the chat list; an admin session reaches
      `loadChatUsers` only by opening a donor or recipient dashboard, where the chat is
      initialised while the dashboard loader redirects to the login page. */
  lemma AdminIsOfferedDonors(donors: seq<User>, recipients: seq<User>)
    ensures var session := LoginLookup(AdminEmail, AdminPassword, "admin", donors, recipients);
      session.Some? && ChatCandidates(session.value, donors, recipients) == donors
  {
  }

  /** `getChatId`: the two emails, sorted, joined by "-". */
  function GetChatId(user1: User, user2: User): (r: string)
    ensures !LexLess(user2.email, user1.email) ==> r == user1.email + "-" + user2.email
    ensures !LexLess(user1.email, user2.email) ==> r == user2.email + "-" + user1.email
  {
    LexLessTrichotomy(user1.email, user2.email);
    var sorted := SortPair(user1.email, user2.email);
    sorted.0 + "-" + sorted.1
  }

  /** The key does not depend on who opened the chat. */
  lemma GetChatIdIsSymmetric(user1: User, user2: User)
    ensures GetChatId(user1, user2) == GetChatId(user2, user1)
  {
    SortPairSymmetric(user1.email, user2.email);
  }

  /** Emails may contain "-", so two different pairs of people can share a key, and
      with it one message list. */
  lemma GetChatIdCanCollide(u1: User, u2: User, u3: User, u4: User)
    requires u1.email == "a@b.co" && u2.email == "x-c@d.co"
    requires u3.email == "a@b.co-x" && u4.email == "c@d.co"
    ensures {u1.email, u2.email} != {u3.email, u4.email}
    ensures GetChatId(u1, u2) == GetChatId(u3, u4)
  {
    var a, b, c, d := u1.email, u2.email, u3.email, u4.email;
    assert LexLess(a, b) by { assert a[0] < b[0]; }
    assert LexLess(c, d) by { assert c[0] < d[0]; }
    assert a != c by { assert |a| != |c|; }
    assert a != d by { assert a[0] != d[0]; }
    LexLessTrichotomy(a, b);
    LexLessTrichotomy(c, d);
    assert a + "-" + b == c + "-" + d;
  }

  /** The messages of a thread; a thread that does not exist reads as empty. */
  function Thread(threads: map<string, seq<ChatMessage>>, chatId: string): seq<ChatMessage>
  {
    if chatId in threads then threads[chatId] else []
  }

  /** Storing a message: the thread is created if it was absent and gains the message at
      its end; every other thread is untouched. */
  function AppendMessage(threads: map<string, seq<ChatMessage>>, chatId: string, m: ChatMessage)
    : (r: map<string, seq<ChatMessage>>)
    ensures r.Keys == threads.Keys + {chatId}
    ensures Thread(r, chatId) == Thread(threads, chatId) + [m]
    ensures forall k :: k in threads && k != chatId ==> r[k] == threads[k]
  {
    threads[chatId := Thread(threads, chatId) + [m]]
  }

  /** What one side sends, the other side reads, in the thread map as this model keeps it
      in memory: `loadChatMessages` for the peer builds the key with the two users the
      other way round and finds the old thread followed by the message. (Through local
      storage the code loses the thread: `getData` gives an array for the missing key,
      and `JSON.stringify` drops the named property the thread is stored under.) */
  lemma SentMessageIsSeenByPeer(threads: map<string, seq<ChatMessage>>, sender: User, peer: User, m: ChatMessage)
    ensures Thread(AppendMessage(threads, GetChatId(sender, peer), m), GetChatId(peer, sender))
         == Thread(threads, GetChatId(peer, sender)) + [m]
  {
    GetChatIdIsSymmetric(sender, peer);
  }
}
