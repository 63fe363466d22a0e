# RapidBlood record and chat logic in Dafny

RapidBlood is a browser-only blood donation app: donors and recipients register, log
in, recipients search for available donors by location and blood group and send them
requests, donors accept or decline, and both sides chat. Everything lives in the
browser's local storage. This project models the record logic of `script.js` and the
`RapidBloodChat` class of `chat.js`, with local storage replaced by fields of two
classes, and proves what each operation does to them.

Layout, one module per file:

- `js_array.dfy` (`JsArray`): `Option`, and `filter`, `findIndex`, `find` of JavaScript
  arrays; `Filter` is proved to keep exactly the accepted elements in order.
- `js_string.dfy` (`JsString`): `trim`, `toLowerCase`, `includes`, `length` in UTF-16
  code units, and the default string order of `sort`.
- `records.dfy` (`Records`): donor/recipient records, requests and dashboard chat
  messages. Absent, `null` and empty fields, all falsy to the code, are the empty string.
- `compatibility.dfy` (`Compatibility`): `isBloodCompatible` and the ABO/RhD antigen
  rule it is compared with.
- `donor_search.dfy` (`DonorSearch`): the filtering part of `searchDonors`.
- `accounts.dfy` (`Accounts`): registration checks, the login lookup, and the
  availability flag as a reference function.
- `requests.dfy` (`Requests`): building, answering and listing blood requests.
- `blood_repair.dfy` (`BloodRepair`): the two admin passes that fill in missing blood
  groups, as loops.
- `chat_threads.dfy` (`ChatThreads`): the dashboard chat's thread key and message map.
- `store.dfy` (`Store`): class `RecordStore`, the stored collections, the session user
  and the selected chat peer of `script.js`, with one method per operation.
- `chat.dfy` (`ChatApp`): class `Chat` (a conversation, whose `messages` change in place)
  and class `RapidBloodChat` of `chat.js`.

Where the code does something other than what one would expect of it, the model follows
the code and proves what it does:

- The table of `isBloodCompatible` is consulted with the recipient's group as the key,
  but each list holds the groups that the key can donate to. The relation the code
  computes is therefore the converse of "the recipient can receive from the donor": an
  "A+" recipient is not offered an "O-" donor, and a search by an "A+" recipient "Bob"
  for "Dhaka" does not show the "O-" donor "Alice" of Dhaka, where the ABO/RhD rule, under which
  "O-" red cells can go to anyone, would show her.
- `respondToRequest` has no pending-state guard: a second answer overwrites the first,
  status and time; a request workflow with a pending-state guard would refuse the
  second answer. Unknown ids change nothing rather than failing.
- Requests are listed for a donor by display name, not by email.
- `searchDonors` tests the trimmed query for emptiness but filters with the query as
  typed, so a trailing blank can hide an exact location match.
- Thread keys of the dashboard chat join two emails with "-", and emails may contain
  "-", so two different pairs of people can share one thread.
- A TypeError thrown before anything is written (a missing session user, a session
  user with no recipient record) changes nothing; `searchDonors` reports it as an
  outcome of its own.

## Model

| member | source | states |
|---|---|---|
| JsArray.Filter | script.js:321-325 | the result is no longer than the input, every element of it is an input element the callback accepts, and every accepted input element is in it |
| JsArray.FilterKeepsExactlyInOrder | script.js:321-325 | the filtered array is exactly the subsequence of accepted elements: element k sits at an increasing position of the input, and a position is kept exactly when the callback accepts it |
| JsArray.FindIndex | script.js:225 | the result is the first position where the predicate holds, and is absent exactly when it holds nowhere |
| JsArray.Find | script.js:65 | a value is found exactly when some element satisfies the predicate, and it is the first such element |
| JsString.Trim | script.js:311 | the result is a slice of the input with only whitespace cut off on either side, it neither starts nor ends with whitespace, and it is empty exactly when the input is blank |
| JsString.ToLower | script.js:323 | the result has the input's length and lower-cases it character by character |
| JsString.ToLowerIsIdempotent | script.js:323 | lower-casing twice is lower-casing once, and the result has no upper-case letter |
| JsString.IncludesBasics | script.js:323 | every string includes the empty string and itself, and includes nothing longer than itself |
| JsString.Utf16Length | script.js:58 | `length` counts UTF-16 code units: between the number of characters and twice that, and equal to it exactly when no character lies beyond the Basic Multilingual Plane |
| JsString.LexLessTrichotomy | script.js:1069 | for the string order of `sort`, exactly one of `a < b`, `a == b`, `b < a` holds |
| JsString.LexLessTransitive | script.js:1069 | the string order of `sort` is transitive, so with trichotomy it is a strict total order |
| JsString.SortPair | script.js:1069 | sorting two strings gives them both, in ascending order |
| JsString.SortPairSymmetric | script.js:1069 | the sorted pair does not depend on the order of the two strings |
| Compatibility.IsBloodCompatible | script.js:330-343 | true only when both arguments are among the eight table labels, and true for every label paired with itself or with "AB+" |
| Compatibility.AntigensOf | script.js:331-340 | a label names an antigen set exactly when it is one of the eight keys of the table |
| Compatibility.TableListsDonationTargets | script.js:330-343 | the table answers true exactly when the key's red cells carry no antigen that the other group lacks, that is, when the key can donate to the other group; unknown groups give false |
| Compatibility.CodeRelationIsConverseOfReceiveRule | script.js:330-343 | `isBloodCompatible(r, d)` holds exactly when `d` can receive from `r` |
| Compatibility.TableExtremes | script.js:331-342 | key "O-" matches all eight labels, every label matches itself, key "AB+" matches only "AB+", and an unknown key matches nothing |
| Compatibility.UniversalDonorMissedForAPositive | script.js:332 | an "A+" recipient is not matched with an "O-" donor although the medical rule allows it |
| DonorSearch.SearchDonors | script.js:307-328 | a blank query and only a blank query gives the location error; a TypeError comes only from a missing session user or recipient record; every donor shown is a stored, available donor whose location contains the query |
| DonorSearch.LocationMatchIgnoresCase | script.js:323 | the location test gives the same answer when the stored location or the query is lower-cased beforehand: it ignores case on both sides |
| DonorSearch.SearchKeepsExactlyMatchingDonorsInOrder | script.js:311-325 | with a non-blank query and the recipient found, the donors shown are exactly those, in store order, that are available, whose lower-cased location contains the lower-cased untrimmed query and that the table pairs with the recipient's group |
| DonorSearch.AliceIsNotOfferedToBob | script.js:316-325 | the "O-" donor Alice of Dhaka is not shown to the "A+" recipient Bob, neither for "Dhaka" nor for "Chittagong" |
| DonorSearch.TrailingBlankQueryMissesLocation | script.js:311-323 | "Dhaka " passes the emptiness test yet finds no donor whose location is "Dhaka" |
| Accounts.CheckRegistration | script.js:48-68 | a form is accepted exactly when all seven fields are filled, the passwords agree, the password's `length`, in UTF-16 code units, is at least six and the collection has no record with its email; each refusal is the first failing check |
| Accounts.AstralPasswordIsLongEnough | script.js:58 | a password of three emoji, three characters but six UTF-16 code units, passes the length check |
| Accounts.NewDonor | script.js:70-79 | the donor record carries the form's fields without `confirm`, the registration time, and is available; it differs from the recipient record of the same form only in that flag |
| Accounts.NewRecipient | script.js:123-131 | the recipient record carries the form's fields without `confirm` and the registration time, is unavailable, and has no repair fields and no role |
| Accounts.RegistrationKeepsEmailsUnique | script.js:63-82 | appending an accepted registration keeps the emails of the collection distinct |
| Accounts.SecondRegistrationIsRefused | script.js:63-68 | once a form is accepted, a second valid form with the same email is refused as already registered |
| Accounts.LoginLookup | script.js:148-168 | a blank field fails; "admin" succeeds exactly with the fixed credentials; any other type succeeds exactly when its collection has a record with that email and password, and returns the first such record with the login type as role |
| Accounts.LoginCollection | script.js:162 | "donor" logs in against the donors and every other type against the recipients |
| Accounts.SetAvailability | script.js:224-229 | only the first donor with the email gets the flag; every other donor is unchanged, and an unknown email changes nothing |
| Accounts.SetAvailabilityLastCallWins | script.js:225-228 | setting the flag twice leaves what the second call set |
| Accounts.SetAvailabilityKeepsEmailsUnique | script.js:225-228 | setting the flag keeps distinct emails distinct |
| Requests.NewRequest | script.js:383-395 | the new request carries the given donor, recipient, group, location, id and date, is pending with no response time, carries a non-empty prompt answer as its message, and has the default message exactly when the prompt answer was cancelled, empty or that message |
| Requests.Answer | script.js:408-409 | the answered request has the response as status and the time as response time, and no other field changes |
| Requests.Respond | script.js:404-410 | only the first request with the id gets the response and the time, whatever its status; every other request is unchanged and an unknown id changes nothing |
| Requests.SecondResponseOverwritesFirst | script.js:404-410 | answering twice equals answering once with the second answer |
| Requests.RespondedIffResolvedIsKept | script.js:386-409 | "a response time exactly when not pending" survives sending and any answer but "pending", and an answer of "pending" to a stored id breaks it |
| Requests.RequestsFor | script.js:241 | every listed request is stored and addressed to the donor's name, and every stored request addressed to it is listed |
| Requests.RequestsForKeepsExactlyThoseAddressed | script.js:241 | a donor's listing is exactly the requests whose `to` is the donor's name, in the order sent |
| Requests.DeclinedRequestIsListedForDonor | script.js:385-410 | a request from Bob to Alice that Alice declines is stored declined with a response time and is listed for Alice |
| BloodRepair.RepairBlood | script.js:593-609 | a record with a group is unchanged; one without gets `bloodGroup`, else `bloodType`, else "Unknown"; either way it ends with a group |
| BloodRepair.RepairRecords | script.js:587-631 | every record is repaired in place of its position, the flag is set exactly when some record lacked a group, and no record lacks one afterwards |
| BloodRepair.RepairIsIdempotent | script.js:592-642 | after a pass no record lacks a group, a second pass changes nothing, and a record filled with "Unknown" is never matched by the table |
| BloodRepair.FillByPosition | script.js:691-705 | a record without a group gets the label at its position modulo eight, one of the eight table labels; every other record is unchanged |
| ChatThreads.ChatCandidates | script.js:956 | a donor session is offered the recipients, every other session the donors; the partner lemmas RecipientIsOfferedThemself and AdminIsOfferedDonors show what that gives for a recipient and for an administrator |
| ChatThreads.RecipientIsOfferedThemself | script.js:948-956 | someone registered with one email and password as both donor and recipient who logs in as recipient is offered their own donor record to chat with |
| ChatThreads.AdminIsOfferedDonors | script.js:956 | an administrator session, logged in with the fixed credentials, has a role other than "donor" and is offered the donors; the admin dashboard never loads the chat list, so this is reached only when such a session opens a donor or recipient dashboard, whose chat is initialised while the page redirects |
| ChatThreads.GetChatId | script.js:1067-1071 | the key is the smaller email, "-", and the larger email |
| ChatThreads.GetChatIdIsSymmetric | script.js:1067-1071 | both users of a pair compute the same key |
| ChatThreads.GetChatIdCanCollide | script.js:1069-1070 | the pairs ("a@b.co", "x-c@d.co") and ("a@b.co-x", "c@d.co") are different but share a key |
| ChatThreads.AppendMessage | script.js:1055-1057 | the thread gains the message at its end and exists afterwards; no other thread changes |
| ChatThreads.SentMessageIsSeenByPeer | script.js:1000-1065 | in the in-memory thread map, the peer, looking up the thread with the users the other way round, reads the old thread followed by the new message |
| Store.RecordStore.constructor | script.js:2-4 | empty storage: no records, no requests, no threads, no session and no peer |
| Store.RecordStore.RegisterDonor | script.js:35-86 | the outcome is the registration check against the donors; an accepted form appends one available donor at the end and a refused one changes nothing; distinct emails stay distinct |
| Store.RecordStore.RegisterRecipient | script.js:88-138 | the same against the recipients, appending an unavailable record |
| Store.RecordStore.LoginUser | script.js:141-182 | the result is the login lookup, and it becomes the session user only on success; with unique emails, a donor or recipient session is the one record of its collection with that email |
| Store.RecordStore.UpdateAvailability | script.js:220-236 | without a session nothing changes; otherwise the donors become `SetAvailability` of the old donors for the session's email; distinct emails stay distinct |
| Store.RecordStore.SendBloodRequest | script.js:382-401 | the requests become the old ones followed by one new pending request, built by `NewRequest` from the form and the prompt answer |
| Store.RecordStore.RespondToRequest | script.js:403-425 | the requests become `Respond` of the old ones |
| Store.RecordStore.FixBloodGroupData | script.js:587-643 | both collections end repaired, each flag says whether its collection had a record without a group, and distinct emails stay distinct |
| Store.RecordStore.QuickFixBloodGroups | script.js:680-720 | in both collections each record without a group gets the label of its position and no other record changes, so no record lacks a group |
| Store.RecordStore.SelectChatUser | script.js:979-980 | the chosen user becomes the chat peer |
| Store.RecordStore.SendMessage | script.js:1039-1065 | blank text, no peer or no session changes nothing; otherwise the trimmed text, sent by the session's email, is appended to the thread of the session user and the peer |
| ChatApp.Chat.constructor | chat.js:295-300 | a conversation with the given id, participants, messages and creation time |
| ChatApp.FindChat | chat.js:117 | the result is the first chat with the id, and null exactly when no chat has it |
| ChatApp.FindChatWith | chat.js:287-289 | the result is the first chat with a participant of that email, and null exactly when there is none |
| ChatApp.WithoutEmail | chat.js:43-45 | every listed user is a stored record with another email, and every such record is listed |
| ChatApp.WithoutEmailKeepsOthersInOrder | chat.js:40-45 | the list is exactly the donors then recipients, in store order, whose email is not the session's |
| ChatApp.FindChatFindsItself | chat.js:117 | with distinct ids, looking a chat up by its id finds that chat |
| ChatApp.RapidBloodChat.constructor | chat.js:3-46 | the session user, the saved chats, no current chat, and the user list of `loadUsers` |
| ChatApp.RapidBloodChat.LoadUsers | chat.js:38-46 | the users become the donors and recipients without the session user's email |
| ChatApp.RapidBloodChat.GetOtherUser | chat.js:112-114 | the first participant whose email is not the session's, and none exactly when every participant has that email |
| ChatApp.RapidBloodChat.SelectChat | chat.js:116-117 | the current chat becomes the first chat with the id, which is one of the chats or none |
| ChatApp.RapidBloodChat.SendMessage | chat.js:181-195 | blank text or no current chat changes nothing; otherwise the current chat's messages gain one message at the end with the trimmed text and the session's email, and so does the entry of the chat list that is the current chat; no other chat changes; the current chat stays one of the chats |
| ChatApp.RapidBloodChat.StartChatWithUser | chat.js:285-306 | with a chat already including the user, the chats stay and the chat with that chat's id is selected; otherwise one new, empty chat of the session user and the user is appended and the chat with the new id is selected |
| ChatApp.RapidBloodChat.ClearChat | chat.js:363-368 | with a current chat and confirmation its messages, and those of its entry in the chat list, become empty; otherwise nothing changes; no other chat changes; the current chat stays one of the chats |
| ChatApp.StartChatSelectsNewWhenIdFree | chat.js:296-304 | after appending a new chat, selecting by its id selects it when no older chat has that id |
| ChatApp.StartChatSelectsOlderWhenIdTaken | chat.js:296-304 | when an older chat already has the new id, selecting by it selects an older chat, not the new one |
| ChatApp.StartExistingChatSelectsIt | chat.js:287-292 | with distinct ids, the chat found for a user is the one selected |

## Left out

- Rendering, notifications, modals, scrolling, and the `searchChats`/`searchUsers` filters, which read the text of rendered elements.
- Local storage and JSON: the stored keys are fields. `getData` gives `[]` for a missing `chatMessages` key, so the dashboard chat stores its threads as named properties of an array, which `JSON.stringify` drops; the model keeps the threads in a map and does not capture that loss.
- `saveChats`/`loadChats` in chat.js: saved chats are a constructor argument.
- Timers, redirects, `tel:` links, `prompt`, `confirm` and `alert`: answers are parameters, and the redirect of a visitor with no session in chat.js is not modelled, since the page navigates away.
- Clock values: `Date.now()` ids and ISO times are parameters; `formatTime`, `formatDate` and `sendLocation` use the clock, the locale or geolocation.
- The tail of `selectChatUser` and of `selectChat` that marks the clicked element through the ambient `event` object.
- The admin dashboard's label heuristics, `manualFixBloodGroups`, `resetBloodGroupData`, `testAdminDashboard`, `logout`, `escapeHtml`, and the dashboard loaders apart from the listing filter of `loadBloodRequests` and the list choice of `loadChatUsers`.
- JsString.ToLower: lower-cases the ASCII letters only, not the full Unicode case mapping of `toLowerCase`.
- JsString.LexLess: orders strings by code point, where JavaScript's `sort` compares UTF-16 code units; the two differ only for characters beyond the Basic Multilingual Plane. The difference reaches LexLessTrichotomy, LexLessTransitive, SortPair, SortPairSymmetric and, through them, ChatThreads.GetChatId and its lemmas, for emails holding such characters.
- Compatibility.IsBloodCompatible: keys such as "constructor" or "toString" that JavaScript objects inherit give false here, where the code would throw a TypeError. The difference reaches TableListsDonationTargets, CodeRelationIsConverseOfReceiveRule and, through the filter callback, DonorSearch.SearchDonors and SearchKeepsExactlyMatchingDonorsInOrder, for a recipient whose blood is such a key.
