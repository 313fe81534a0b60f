# Chat session state of chatverse, in Dafny

This project models the client-side session state of the chatverse browser chat client and
the selectors its list views compute from that state. It has two variants:

- The mock **direct-contact** session (`ChatContext`). It tracks the signed-in user, the
  selected contact, and each contact's message list. The operations are login, logout,
  select contact, send, the delayed "delivered" step and mark-as-read.
- The **room** session (`RoomContext`). It tracks the user's rooms, the current room, its
  members and its messages. These change on sign-in and sign-out, backend replies, realtime
  membership events, realtime message inserts, `selectRoom`, `sendMessage`, `createRoom` and
  `joinRoomWithCode`.

The views' selectors are `ContactList`, `RoomList` and `MessageList`. `Text` models the
string operations the code uses (`trim`, `toLowerCase`, `includes`). `Seqs` models
`Array.prototype.filter`. `Wrappers` holds the optional-value and backend-reply types.

Both sessions are Dafny classes. Their methods replace the fields the way the React setters
do, and their postconditions give the new state through pure functions of the old state. The
properties are then proved about those functions. Every backend call (Supabase) becomes an
abstract reply passed in as a parameter: a `Result` carrying rows or an error, an `Outcome`,
or an `Option`. The rows the code would insert are returned, so the guards on writes can be
stated. Fresh ids (`nanoid`), room codes and timestamps are also parameters.

The code as written is modelled. It does not deduplicate, sort by timestamp, create
optimistic entries in the room variant or have a FAILED status. So the model claims no
idempotent merge and no status monotonicity. Instead it proves the opposite where it matters:
`InsertDoesNotDeduplicate` and `DeliveryOverwritesRead`.

## Model

| member | source | states |
|---|---|---|
| `Text.Trim` | src/context/RoomContext.tsx:394 | `content.trim()` is the slice of the input after its leading white space, with no ECMAScript white space or line terminator at either end; everything after it is white space |
| `Text.BlankIffAllWhiteSpace` | src/context/ChatContext.tsx:174 | the guard `!text.trim()` holds exactly when every character of the text is white space |
| `Text.ContainsAt` | src/components/RoomList.tsx:14 | `includes` is true whenever the needle occurs at some position of the string |
| `Text.ContainsHasPosition` | src/components/RoomList.tsx:14 | when `includes` is true, the needle occurs at some position (the converse of `ContainsAt`) |
| `Text.Contains` | src/components/RoomList.tsx:14 | `includes` of the empty string is true, and of a needle longer than the string is false; `ContainsAt` and `ContainsHasPosition` pin it down as "occurs at some position" |
| `Text.Lower` | src/components/RoomList.tsx:14 | `toLowerCase` keeps the length and folds each ASCII capital to its small letter |
| `ChatContext.MarkReadFrom` | src/context/ChatContext.tsx:163-166 | after the map, every message the contact sent is read and every other message is unchanged; the length and order are kept |
| `ChatContext.SetStatusOf` | src/context/ChatContext.tsx:196-198 | every message with the id gets the new status, whatever its status was; all other messages are unchanged, and the length is kept |
| `ChatContext.AfterSelect` | src/context/ChatContext.tsx:161-169 | `selectContact` creates no conversation and changes no other contact's list |
| `ChatContext.AfterSend` | src/context/ChatContext.tsx:185-191 | a send creates the contact's list if it is missing and changes no other contact's list |
| `ChatContext.AfterStatus` | src/context/ChatContext.tsx:195-203 | a status update keeps the set of conversations and every other contact's list |
| `ChatContext.MarkReadFromIdempotent` | src/context/ChatContext.tsx:163-166 | marking a contact's messages read twice gives the list that marking once gives |
| `ChatContext.SelectIdempotent` | src/context/ChatContext.tsx:157-169 | selecting the same contact twice leaves `messages` as selecting it once |
| `ChatContext.DeliveryAfterSend` | src/context/ChatContext.tsx:176-203 | when the new id is fresh in the contact's list, the delivery step changes only the appended message, which becomes delivered |
| `ChatContext.DeliveryOverwritesRead` | src/context/ChatContext.tsx:196-198 | the delivery step turns a message that is already read back into delivered: status is not monotone |
| `ChatContext.ChatSession.constructor` | src/context/ChatContext.tsx:131-134 | the session starts with no user and no selection, over the given contacts and messages |
| `ChatContext.ChatSession.Login` | src/context/ChatContext.tsx:137-147 | the user becomes id "currentUser", with the given name, the avatar URL seeded with the name, status "Online", online; nothing else changes |
| `ChatContext.ChatSession.Logout` | src/context/ChatContext.tsx:150-154 | user and selection become null; the messages are left as they were |
| `ChatContext.ChatSession.SelectContact` | src/context/ChatContext.tsx:157-170 | the contact becomes selected, and in its list every message it sent becomes read |
| `ChatContext.ChatSession.SendMessage` | src/context/ChatContext.tsx:173-191 | a no-op without a user, without a selected contact, or with blank text; otherwise appends one "sent" message with the untrimmed text to the end of the selected contact's list, from "currentUser" to that contact |
| `ChatContext.ChatSession.MarkDelivered` | src/context/ChatContext.tsx:194-204 | the message with the id becomes delivered in the contact's list; the state updater throws exactly when that list is missing |
| `ChatContext.ChatSession.MarkMessageAsRead` | src/context/ChatContext.tsx:240-252 | a no-op without a selection; otherwise the message with the id becomes read in the selected contact's list, and the state updater throws exactly when that list is missing |
| `ChatContext.RunSteps` | src/context/ChatContext.tsx:137-252 | running any sequence of session operations never removes a conversation: every method's contract keeps the inbox keys |
| `ChatContext.SendThenDeliver` | src/context/ChatContext.tsx:185-204 | a successful send's delivery step never throws, whatever sequence of logins, logouts, selections, sends, deliveries and reads runs before its timer fires |
| `ContactList.LastMessage` | src/components/ContactList.tsx:15-20 | null exactly when the contact's list is absent or empty; otherwise its final element |
| `ContactList.UnreadCount` | src/components/ContactList.tsx:22-27 | 0 for an absent list, and never more than the list's length |
| `ContactList.UnreadCountZeroIff` | src/components/ContactList.tsx:22-27 | the unread badge is 0 exactly when every message from that contact is read |
| `ContactList.SelectClearsUnread` | src/components/ContactList.tsx:22-27 | after `selectContact(c)` the unread count of `c` is 0 |
| `ContactList.SendKeepsUnread` | src/components/ContactList.tsx:22-27 | sending to a contact does not change that contact's unread count |
| `ContactList.SendSetsLastMessage` | src/components/ContactList.tsx:15-20 | after a send, the contact's last message is the message just sent |
| `ContactList.FilteredContacts` | src/components/ContactList.tsx:29-31 | (corrected) the result is an order-preserving subsequence of the contacts whose lower-cased name contains the lower-cased term; every matching contact is in it with all its copies |
| `ContactList.EmptyTermKeepsAllContacts` | src/components/ContactList.tsx:29-31 | (corrected) an empty search term keeps every contact |
| `ContactList.AsWrittenFilterThrows` | src/components/ContactList.tsx:29-31 | (as written) the filter reads `contact.username`, which no contact has, so it throws for every non-empty contact list |
| `ContactList.PreviewText` | src/components/ContactList.tsx:93-95 | the preview is the last message's text, else a non-empty status, else "Available" |
| `ContactList.PreviewAfterSend` | src/components/ContactList.tsx:93-95 | after a send, the contact's preview shows the text just sent |
| `ContactList.OnlySelectedHighlighted` | src/components/ContactList.tsx:59 | among contacts with distinct ids, the selected contact's row is the only one marked selected |
| `RoomContext.FindRoom` | src/context/RoomContext.tsx:380 | null exactly when no room has the id; otherwise the room at the first index with that id |
| `RoomContext.WithoutRoom` | src/context/RoomContext.tsx:136 | no room with the id is left; every other room is kept with all its copies, in its order |
| `RoomContext.InsertedRoomId` | src/context/RoomContext.tsx:126-127 | an INSERT asks for a room exactly when the new row has a non-empty `room_id`, and the room it asks for is that `room_id` |
| `RoomContext.ApplyMembershipEvent` | src/context/RoomContext.tsx:123-142 | events for other users, events with no user, INSERT and UPDATE events change nothing at once; a DELETE removes every room with the old `room_id`, keeps every other room with all its copies in order, and makes the current room null exactly when it was that room |
| `RoomContext.DeletedRoomNotSelectable` | src/context/RoomContext.tsx:136 | after a DELETE, `selectRoom` with that id finds nothing |
| `RoomContext.InsertedRoomSelectable` | src/context/RoomContext.tsx:130 | when the fetched room of an INSERT was not yet listed, `selectRoom` with its id finds it after the append |
| `RoomContext.InsertDoesNotDeduplicate` | src/context/RoomContext.tsx:130 | appending a fetched room that is already listed adds a second copy, and `selectRoom` still finds the earlier copy |
| `RoomContext.IncomingMessage` | src/context/RoomContext.tsx:253-256 | the appended entry carries the row's fields, with the fetched sender profile or "Unknown" and an empty avatar |
| `RoomContext.JoinOutcome` | src/context/RoomContext.tsx:319-372 | the join succeeds exactly when there is a user, the code lookup succeeds, and the user is already a member or the insert succeeds; the room selected is the one looked up |
| `RoomContext.RoomSession.constructor` | src/context/RoomContext.tsx:61-66 | the initial state: empty lists, no room, room list loading |
| `RoomContext.RoomSession.OnUserChanged` | src/context/RoomContext.tsx:69-80 | with no user, rooms, members and messages are emptied and the current room becomes null; with a user the room fetch starts |
| `RoomContext.RoomSession.OnRoomsFetched` | src/context/RoomContext.tsx:78-105 | a successful fetch replaces the room list and an error keeps it; loading ends either way |
| `RoomContext.RoomSession.SetCurrentRoom` | src/context/RoomContext.tsx:164-169 | setting the current room to null empties the members and messages; setting it to a room starts the message fetch |
| `RoomContext.RoomSession.OnMembersFetched` | src/context/RoomContext.tsx:171-195 | a successful fetch replaces the members and an error keeps them |
| `RoomContext.RoomSession.OnMessagesFetched` | src/context/RoomContext.tsx:197-224 | a successful fetch replaces the messages and an error keeps them; loading ends either way |
| `RoomContext.RoomSession.OnMembershipEvent` | src/context/RoomContext.tsx:123-142 | the rooms and the current room become what `ApplyMembershipEvent` gives; the room fetch is requested only for a qualifying INSERT, for the row's `room_id`; members and messages are cleared only when the current room is deselected |
| `RoomContext.RoomSession.OnRoomFetched` | src/context/RoomContext.tsx:128-131 | a found room is appended to the end of the list as it is when the fetch resolves; a failed fetch changes nothing; nothing else changes |
| `RoomContext.RoomSession.SelectRoom` | src/context/RoomContext.tsx:374-382 | null or "" deselects; an id selects the first listed room with it, or null when there is none; a changed selection clears members and messages (to null) or starts the message load (to a room); an unchanged one keeps members, messages and loading state |
| `RoomContext.RoomSession.OnMessageEvent` | src/context/RoomContext.tsx:244 | the handler goes on with the row exactly when a room is current and the row's `room_id` is its id; the state is not changed |
| `RoomContext.RoomSession.OnSenderProfile` | src/context/RoomContext.tsx:247-258 | when the profile lookup resolves, the message is appended to the end of the list as it is then, with no second room check; nothing else changes |
| `RoomContext.RoomSession.SendMessage` | src/context/RoomContext.tsx:384-401 | no insert without a user, without a current room, or with blank content; otherwise it inserts the trimmed, non-empty content with the room id and user id, and adds nothing to the local messages |
| `RoomContext.RoomSession.CreateRoom` | src/context/RoomContext.tsx:274-317 | nothing is inserted and null is returned without a user; otherwise it inserts the room row, and if that succeeds it inserts the creator's membership and returns the room |
| `RoomContext.RoomSession.JoinRoomWithCode` | src/context/RoomContext.tsx:319-372 | returns `JoinOutcome`'s verdict; inserts a membership only for a signed-in non-member whose code resolved; on success the looked-up room becomes current, starting the message load when it changed and keeping members, messages and loading state when it did not; on failure nothing changes |
| `RoomContext.RoomArrivesAfterSignOut` | src/context/RoomContext.tsx:128-131 | a room fetch that resolves after sign-out still appends: the signed-out session ends with exactly that room listed |
| `RoomContext.MessageArrivesAfterSwitch` | src/context/RoomContext.tsx:244-258 | a message whose profile lookup resolves after a switch to another room ends up last in that other room's list |
| `RoomContext.SubmitCreateRoom` | src/components/CreateRoomDialog.tsx:25-38 | (as written) a blank name does nothing; a successful create returns the new room and leaves no room selected; a failed create leaves the selection as it was |
| `RoomContext.SubmitCreateRoomSelecting` | src/components/CreateRoomDialog.tsx:25-38 | (corrected) a blank name does nothing; a successful create makes the new room the current room; a failed create leaves the selection as it was |
| `RoomList.FilteredRooms` | src/components/RoomList.tsx:12-16 | the result is an order-preserving subsequence of the rooms whose lower-cased name contains the lower-cased term; every matching room is in it with all its copies |
| `Seqs.Filter` | src/components/RoomList.tsx:13-15 | `filter` keeps only elements that pass the test, keeps every element that passes, and never lengthens the list (also used at src/components/ContactList.tsx:24 and src/context/RoomContext.tsx:136) |
| `Seqs.FilterKeepsCount` | src/components/RoomList.tsx:13-15 | `filter` keeps every copy of each element that passes the test: the count of such an element in the result equals its count in the input |
| `RoomList.EmptyTermKeepsAllRooms` | src/components/RoomList.tsx:13-15 | an empty search term returns every room |
| `RoomList.FilteredRoomsIdempotent` | src/components/RoomList.tsx:13-15 | filtering the result again with the same term changes nothing |
| `RoomList.PrivacyLabel` | src/components/RoomList.tsx:70 | "Private room" exactly when the room is private, "Public room" exactly when it is not |
| `RoomList.RoomPanel` | src/components/RoomList.tsx:40-78 | the spinner is shown exactly while rooms load, whatever the filter gives; otherwise "No rooms found" exactly when nothing matches; otherwise one row per matching room, in order, highlighted exactly when its id is the current room's, captioned by `PrivacyLabel` |
| `MessageList.StatusIndicator` | src/components/MessageList.tsx:49-60 | "sent" gives one tick, "delivered" a grey double tick, "read" a blue double tick, and any other string nothing |
| `MessageList.Render` | src/components/MessageList.tsx:17-47 | the views are decided in order: loading, then no room, then no messages, then the list. The list has one row per message; the first row has a date separator; a row is the user's own exactly when its sender is the user; only others' rows show avatar and name; only own rows get a tick |
| `MessageList.OwnMessageTick` | src/components/MessageList.tsx:106 | the user's own message shows exactly the tick its status maps to |

## Findings

| source | as written | input that shows it | evidently intended | confidence | as-written member | corrected member |
|---|---|---|---|---|---|---|
| src/components/ContactList.tsx:30 | the search filter reads `contact.username.toLowerCase()`, but a `Contact` is a `User`, which has `name` and no `username`, so `toLowerCase` is called on `undefined` | any non-empty contact list, e.g. the five seeded contacts, with any search term | filter on `contact.name` | not executed | `ContactList.AsWrittenFilterThrows` (`ContactList.FilteredContactsAsWritten`) | `ContactList.FilteredContacts`, `ContactList.EmptyTermKeepsAllContacts` |
| src/components/CreateRoomDialog.tsx:33-37 | after a successful create the dialog calls `selectRoom(room.id)`, whose closure searches the room list of the render before the submit; the new room is not in it, so `find` gives nothing, the current room becomes null and the members and messages are cleared | any successful create, since the database gives the new room an id that no listed room has | the new room becomes the current room | not executed | `RoomContext.SubmitCreateRoom` | `RoomContext.SubmitCreateRoomSelecting` |

## Left out

- Supabase I/O: every query, insert and `.single()` lookup is an abstract reply parameter.
  The model does not simulate a database. The status-to-read update on incoming messages
  (src/context/RoomContext.tsx:261-266) is left out.
- Realtime channel creation and teardown, and the render-time re-creation of the channels.
  This is subscription plumbing. Each event is modelled as one call to its handler.
- Async interleaving: the membership INSERT and the message INSERT handlers are split into
  the event step and the step where their reply arrives, so other operations can run between
  them. Every other backend reply is applied in one step. A late reply to the initial room,
  member or message fetches is not modelled separately from the state it lands in.
- Stale closures: the DELETE handler, the message INSERT handler's `currentRoom` check
  (src/context/RoomContext.tsx:244), the `rooms` list that `selectRoom` searches and
  `selectContact` read the state of the render that created them. The model reads the current
  state. `SubmitCreateRoom` is the exception: there the list searched is the one from before
  the submit, which is all the model's list can hold at that point.
- A state updater that throws (`MarkDelivered` and `MarkMessageAsRead` on a missing list) is
  reported as `threw`, with the state left as it was. What React then does with the render
  error is not modelled.
- React effects run when their dependency changes by object identity. `SetCurrentRoom` runs
  its effect when the value changes, and `OnUserChanged` runs the user effect on every call.
- `nanoid` ids and room codes, `new Date()` timestamps and `setTimeout` delays are parameters
  or separate steps. The random auto-reply (src/context/ChatContext.tsx:207-236) is left out.
- The seeded mock contacts and messages are constructor arguments, not literals in the model.
- Text.Lower: folds only ASCII capitals, not the full Unicode mapping of `toLowerCase`.
  Strings are sequences of Unicode scalar values, not UTF-16 code units.
- `new Date(...).getDate()` in the date separator is an abstract `day` function. Only the
  first message's separator is proved.
- toast and console notifications are left out.
- Rendering-only components are left out, and so are the input and dialog wrappers apart
  from the create-room submit. `MessageInput.tsx` repeats the blank guard that `sendMessage`
  already has. `JoinRoomDialog.tsx` rejects a blank code before calling the context, while
  `joinRoomWithCode` itself has no such check and passes blank input on untrimmed, so
  `JoinRoomWithCode` accepts it too. `CreateRoomDialog.tsx` likewise rejects a blank name
  (`CreateRoom` accepts one) and, after a successful create, calls `selectRoom(room.id)`. This
  submit is modelled by `SubmitCreateRoom` (see Findings).
- `MessageBubble.tsx` repeats the status switch of `MessageList.tsx` and is left out.
- The code has no deduplication, timestamp ordering, optimistic PENDING entries in the room
  variant or FAILED status, so none of these is modelled.
