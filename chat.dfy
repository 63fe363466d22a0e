/** The chat page of chat.js: class `RapidBloodChat` (chat.js:2-372). A conversation is
    an object whose `messages` array is changed in place, and `currentChat` points at one
    of the objects in `chats`, so a change made through `currentChat` is a change of that
    entry of `chats`. Ids and ISO times from the clock are parameters, and so is the
    answer of the `confirm` dialog. */
module ChatApp {
  import opened JsArray
  import opened JsString
  import opened Records

  /** `{id, text, sender, timestamp}` of chat.js:187-192. */
  datatype Message = Message(id: string, text: string, sender: string, timestamp: string)

  /** One conversation: `{id, participants, messages, createdAt}` (chat.js:295-300). Only
      `messages` is ever changed after creation. */
  class Chat {
    const id: string
    const participants: seq<User>
    var messages: seq<Message>
    const createdAt: string

    constructor (id: string, participants: seq<User>, messages: seq<Message>, createdAt: string)
      ensures this.id == id && this.participants == participants
      ensures this.messages == messages && this.createdAt == createdAt
    {
      this.id := id;
      this.participants := participants;
      this.messages := messages;
      this.createdAt := createdAt;
    }
  }

  /** The chat's id is `chatId`. */
  function HasChatId(chatId: string): Chat -> bool
  {
    (c: Chat) => c.id == chatId
  }

  /** Some participant of the chat has this email. */
  function HasParticipant(email: string): Chat -> bool
  {
    (c: Chat) => exists i | 0 <= i < |c.participants| :: c.participants[i].email == email
  }

  /** The lookup of a chat by id: the first chat with that id, or null when there is
      none (where the code gets `undefined`). */
  function FindChat(chats: seq<Chat>, chatId: string): (r: Chat?)
    ensures r != null ==> r in chats && r.id == chatId
    ensures r == null <==> forall i :: 0 <= i < |chats| ==> chats[i].id != chatId
    ensures forall i :: 0 <= i < |chats| && chats[i].id == chatId ==>
      exists k :: 0 <= k <= i && r == chats[k] && forall j :: 0 <= j < k ==> chats[j].id != chatId
  {
    match FindIndex(chats, HasChatId(chatId))
    case None => null
    case Some(i) => chats[i]
  }

  /** The first chat that has a participant with `email`, or null. */
  function FindChatWith(chats: seq<Chat>, email: string): (r: Chat?)
    ensures r != null ==> r in chats && HasParticipant(email)(r)
    ensures r == null <==> forall i :: 0 <= i < |chats| ==> !HasParticipant(email)(chats[i])
    ensures forall i :: 0 <= i < |chats| && HasParticipant(email)(chats[i]) ==>
      exists k :: 0 <= k <= i && r == chats[k] && forall j :: 0 <= j < k ==> !HasParticipant(email)(chats[j])
  {
    match FindIndex(chats, HasParticipant(email))
    case None => null
    case Some(i) => chats[i]
  }

  /** The user's email is not `email`: the test that leaves the session user out. */
  function OtherThan(email: string): User -> bool
  {
    (u: User) => u.email != email
  }

  /** The people `loadUsers` offers to chat with: donors then recipients, without any
      record that has the session user's email. */
  function WithoutEmail(users: seq<User>, email: string): (r: seq<User>)
    ensures forall i :: 0 <= i < |r| ==> r[i] in users && r[i].email != email
    ensures forall j :: 0 <= j < |users| && users[j].email != email ==> users[j] in r
  {
    Filter(users, OtherThan(email))
  }

  /** The list keeps exactly the records whose email differs from the session's, in store
      order: donors before recipients. */
  lemma WithoutEmailKeepsOthersInOrder(donors: seq<User>, recipients: seq<User>, email: string)
    ensures var all := donors + recipients;
      var r, idx := WithoutEmail(all, email), KeptIndices(all, OtherThan(email));
      && |idx| == |r|
      && (forall k :: 0 <= k < |idx| ==> idx[k] < |all| && r[k] == all[idx[k]])
      && (forall k, l :: 0 <= k < l < |idx| ==> idx[k] < idx[l])
      && (forall j :: 0 <= j < |all| ==> (j in idx <==> all[j].email != email))
  {
    FilterKeepsExactlyInOrder(donors + recipients, OtherThan(email));
  }

  /** No two chats share an id: what `Date.now()` ids give when no two chats are created
      in the same millisecond. */
  ghost predicate DistinctIds(chats: seq<Chat>)
  {
    forall i, j :: 0 <= i < j < |chats| ==> chats[i].id != chats[j].id
  }

  /** With distinct ids, looking a chat up by its own id finds that chat. */
  lemma FindChatFindsItself(chats: seq<Chat>, i: nat)
    requires DistinctIds(chats) && i < |chats|
    ensures FindChat(chats, chats[i].id) == chats[i]
  {
    FindIndexIsFirstMatch(chats, HasChatId(chats[i].id), i);
  }

  class RapidBloodChat {
    /** The session user read by `loadCurrentUser`. */
    const currentUser: User
    var currentChat: Chat?
    var chats: seq<Chat>
    var users: seq<User>

    /** The current chat, when there is one, is one of the chats. */
    ghost predicate Valid()
      reads this
    {
      currentChat != null ==> currentChat in chats
    }

    /** `constructor` and the state part of `init`: the session user, the saved chats
        (empty when none were saved), no chat selected, and the user list of `loadUsers`. */
    constructor (user: User, savedChats: seq<Chat>, donors: seq<User>, recipients: seq<User>)
      ensures currentUser == user && chats == savedChats && currentChat == null
      ensures users == WithoutEmail(donors + recipients, user.email)
      ensures Valid()
    {
      currentUser := user;
      currentChat := null;
      chats := savedChats;
      users := [];
      new;
      LoadUsers(donors, recipients);
    }

    /** `loadUsers`: everyone in the two collections except the session user. */
    method LoadUsers(donors: seq<User>, recipients: seq<User>)
      requires Valid()
      modifies this`users
      ensures users == WithoutEmail(donors + recipients, currentUser.email)
      ensures Valid()
    {
      users := Filter(donors + recipients, OtherThan(currentUser.email));
    }

    /** `getOtherUser`: the first participant whose email is not the session user's;
        None (`undefined`) when every participant has that email. */
    function GetOtherUser(chat: Chat): (r: Option<User>)
      ensures r.Some? ==> r.value in chat.participants && r.value.email != currentUser.email
      ensures r.None? <==> forall i :: 0 <= i < |chat.participants| ==> chat.participants[i].email == currentUser.email
      ensures r.Some? ==> exists k :: 0 <= k < |chat.participants| && r.value == chat.participants[k]
                                      && forall j :: 0 <= j < k ==> chat.participants[j].email == currentUser.email
    {
      match FindIndex(chat.participants, OtherThan(currentUser.email))
      case None => None
      case Some(k) => Some(chat.participants[k])
    }

    /** The state part of `selectChat`: the first chat with the id becomes current, or
        none when no chat has it. */
    method SelectChat(chatId: string)
      modifies this`currentChat
      ensures currentChat == FindChat(chats, chatId)
      ensures Valid()
    {
      currentChat := FindChat(chats, chatId);
    }

    /** `sendMessage`: blank text or no current chat changes nothing; otherwise the current
        chat's messages grow by one message at the end, with the trimmed text and the
        session user as sender. Since the current chat is one of the chats, that entry of
        `chats` shows the new message. The chat list itself is not changed, and no other
        chat's messages are. */
    method SendMessage(input: string, id: string, timestamp: string)
      requires Valid()
      modifies currentChat
      ensures currentChat != null && AllWhitespace(input) ==> currentChat.messages == old(currentChat.messages)
      ensures currentChat != null && !AllWhitespace(input) ==>
        currentChat.messages == old(currentChat.messages) + [Message(id, Trim(input), currentUser.email, timestamp)]
      ensures currentChat != null && !AllWhitespace(input) ==>
        exists i :: 0 <= i < |chats| && chats[i] == currentChat
                    && chats[i].messages == old(chats[i].messages) + [Message(id, Trim(input), currentUser.email, timestamp)]
      ensures forall i :: 0 <= i < |chats| && chats[i] != currentChat ==> chats[i].messages == old(chats[i].messages)
      ensures Valid()
    {
      var text := Trim(input);
      if text == "" || currentChat == null {
        return;
      }
      currentChat.messages := currentChat.messages + [Message(id, text, currentUser.email, timestamp)];
    }

    /** `startChatWithUser`: when some chat already has a participant with the user's
        email, the chats are left as they were and the chat with that chat's id is
        selected; otherwise a new, empty chat between the session user and `user` is
        appended and the chat with the new id is selected. */
    method StartChatWithUser(user: User, newId: string, createdAt: string)
      modifies this`chats, this`currentChat
      ensures var existing := FindChatWith(old(chats), user.email);
        existing != null ==> chats == old(chats) && currentChat == FindChat(chats, existing.id)
      ensures FindChatWith(old(chats), user.email) == null ==>
        && |chats| == |old(chats)| + 1 && chats[..|old(chats)|] == old(chats)
        && fresh(chats[|old(chats)|])
        && chats[|old(chats)|].id == newId && chats[|old(chats)|].participants == [currentUser, user]
        && chats[|old(chats)|].messages == [] && chats[|old(chats)|].createdAt == createdAt
        && currentChat == FindChat(chats, newId)
      ensures Valid()
    {
      var existing := FindChatWith(chats, user.email);
      if existing != null {
        SelectChat(existing.id);
      } else {
        var newChat := new Chat(newId, [currentUser, user], [], createdAt);
        chats := chats + [newChat];
        SelectChat(newId);
      }
    }

    /** `clearChat`: with a current chat and a confirmed dialog, that chat's messages
        become empty, and so do those of that entry of `chats`; otherwise nothing changes.
        No other chat's messages change. */
    method ClearChat(confirmed: bool)
      requires Valid()
      modifies currentChat
      ensures currentChat != null && confirmed ==> currentChat.messages == []
      ensures currentChat != null && confirmed ==>
        exists i :: 0 <= i < |chats| && chats[i] == currentChat && chats[i].messages == []
      ensures currentChat != null && !confirmed ==> currentChat.messages == old(currentChat.messages)
      ensures forall i :: 0 <= i < |chats| && chats[i] != currentChat ==> chats[i].messages == old(chats[i].messages)
      ensures Valid()
    {
      if currentChat == null {
        return;
      }
      if confirmed {
        currentChat.messages := [];
      }
    }
  }

  /** After a new chat is appended, selecting by the new id selects the new chat when
      no older chat has that id. */
  lemma StartChatSelectsNewWhenIdFree(chats: seq<Chat>, after: seq<Chat>, newId: string)
    requires |after| == |chats| + 1 && after[..|chats|] == chats && after[|chats|].id == newId
    requires forall i :: 0 <= i < |chats| ==> chats[i].id != newId
    ensures FindChat(after, newId) == after[|chats|]
  {
    assert forall j :: 0 <= j < |chats| ==> after[j] == chats[j];
    FindIndexIsFirstMatch(after, HasChatId(newId), |chats|);
  }

  /** When an older chat already has the new id (two chats created in the same
      millisecond), selecting by that id selects an older chat, not the new one. */
  lemma StartChatSelectsOlderWhenIdTaken(chats: seq<Chat>, after: seq<Chat>, newId: string, i: nat)
    requires |after| == |chats| + 1 && after[..|chats|] == chats && after[|chats|].id == newId
    requires i < |chats| && chats[i].id == newId
    ensures FindChat(after, newId) in chats
  {
    assert after[i] == chats[i];
    var k := FindIndex(after, HasChatId(newId));
    assert HasChatId(newId)(after[i]);
    assert k.Some? && k.value <= i;
    assert after[k.value] == chats[k.value];
  }

  /** With distinct ids, the chat found for a user is the one that gets selected. */
  lemma StartExistingChatSelectsIt(chats: seq<Chat>, email: string)
    requires DistinctIds(chats) && FindChatWith(chats, email) != null
    ensures FindChat(chats, FindChatWith(chats, email).id) == FindChatWith(chats, email)
  {
    var c := FindChatWith(chats, email);
    var i :| 0 <= i < |chats| && chats[i] == c;
    FindChatFindsItself(chats, i);
  }
}
