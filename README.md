# Real-time chat synchronisation, modelled in Dafny

This project models the part of a one-to-one chat application that keeps
clients in step with each other:

- the client's **chat store**: the conversation list, the active
  conversation, the open conversation's messages, unread counters, typing
  signals and the loading flag, and the actions that change them;
- the **socket relay** on the server: the presence map from user id to socket
  id and the room fan-out of 'new message', 'typing' and 'stop typing';
- the **composer** of the chat window: the send guard, the order of socket
  emissions and store calls, the 2000 ms 'stop typing' debounce and the
  room switch that follows the active conversation;
- the **chat page** effect that connects, loads the list and routes relay
  events to store actions;
- the **display rules** of the conversation list and of a message bubble:
  avatar colour, initials, the unread badge, the preview and the sent or
  received decision.

Every REST call is an external collaborator. Its outcome is a parameter:
`Some(record)` when the request succeeded and `None` when it failed. Each store
action is then one atomic state transition. The composer's socket emissions
and store calls, and the page effect's redirect, connect and fetch on mount,
are recorded, in order, in a `trace`. A relay event the page hands to the
store is not traced; its effect is stated on the store itself. Time for the
typing timer is a millisecond clock that only `AdvanceClock` moves.

Files, one module each:

| file | module | models |
|---|---|---|
| `Wire.dfy` | `Wire` | records and socket events |
| `Text.dfy` | `Text` | `trim`, one-character `split`/`join`, ASCII `toUpperCase`, `charCodeAt(0)`, the decimal form of a count |
| `Avatar.dfy` | `Avatar` | the eight-colour avatar palette rule |
| `ChatStore.dfy` | `ChatStore` | the store (`class Store`) and the pure updates it applies |
| `UnreadHistory.dfy` | `UnreadHistory` | what the unread counters count over a whole session |
| `Relay.dfy` | `Relay` | the server's socket handlers (`class Server`) |
| `ChatWindow.dfy` | `ChatWindow` | the composer (`class Composer`) |
| `ChatPage.dfy` | `ChatPage` | the page effect and its listeners (`class Page`) |
| `Sidebar.dfy` | `Sidebar` | the conversation list's rows |
| `MessageBubble.dfy` | `MessageBubble` | one message's bubble |

## Model

| member | source | states |
|---|---|---|
| `ChatStore.Store.constructor` | client/src/store/useChatStore.js:4-10 | the store starts with no conversations, nothing active, no messages, no counters, no typing entries and not loading |
| `ChatStore.Store.FetchConversations` | client/src/store/useChatStore.js:13-20 | success replaces the list with the response; failure keeps the list; nothing else changes |
| `ChatStore.Store.StartOrOpenConversation` | client/src/store/useChatStore.js:22-35 | on success the record is prepended only when no entry has its id, becomes active with counter 0 and is returned; id-distinctness is preserved; failure changes nothing and returns nothing |
| `ChatStore.PrependIfAbsentKeepsIdsDistinct` | client/src/store/useChatStore.js:25-29 | the prepend never creates a duplicate id, leaves an entry with the record's id, keeps every existing entry, and leaves the list as it was when the id is already present |
| `ChatStore.Store.SetActiveConversation` | client/src/store/useChatStore.js:37-45 | the conversation becomes active; its counter becomes 0 and every other counter is unchanged; with `null` the counters are untouched; messages and list unchanged |
| `ChatStore.ResetUnreadTouchesOnlyOpened` | client/src/store/useChatStore.js:41-43 | after opening, a counter reads 0 for the opened conversation and its old value for every other id |
| `ChatStore.Store.BeginFetchMessages` | client/src/store/useChatStore.js:49 | the loading flag goes up and nothing else changes |
| `ChatStore.Store.SettleFetchMessages` | client/src/store/useChatStore.js:50-56 | success replaces the messages wholesale, failure keeps the previous ones, the flag goes down either way |
| `ChatStore.Store.FetchMessages` | client/src/store/useChatStore.js:48-57 | the whole action: ends not loading; messages are the response on success and the old messages on failure |
| `ChatStore.Store.SendMessage` | client/src/store/useChatStore.js:59-74 | on success the server record is appended whatever conversation is active, the matching entries are patched, and the record is returned; on failure no state changes and nothing is returned |
| `ChatStore.PatchLastMessage` | client/src/store/useChatStore.js:65-69 | same length and id order; entries with another id unchanged; matching entries get the message as `lastMessage`, its `createdAt` as `updatedAt`, and keep their participants |
| `ChatStore.PatchWithoutMatchIsIdentity` | client/src/store/useChatStore.js:94-100 | when no entry has the message's conversation id, the patch changes nothing: no entry is inserted |
| `ChatStore.Store.ReceiveMessage` | client/src/store/useChatStore.js:77-101 | a message for the active conversation is appended and the counters are unchanged; any other message leaves the messages alone and adds one to its conversation's counter, a missing counter counting as 0; the list is patched either way and never reordered |
| `ChatStore.ArrivalBumpsOnlyItsConversation` | client/src/store/useChatStore.js:83-91 | an arrival adds exactly one to its own counter when that conversation is not active, and changes no other counter |
| `ChatStore.Store.SetTyping` | client/src/store/useChatStore.js:104-107 | exactly the given key of `isTyping` takes the value; nothing else changes |
| `ChatStore.Ids` | client/src/store/useChatStore.js:26 | the ids of the list, position by position |
| `UnreadHistory.LastOpened` | client/src/store/useChatStore.js:37-45 | the index of the last entry of a log that opens a conversation, with no later opening before the bound, or none at all |
| `UnreadHistory.ActiveBeforePrefix` | client/src/store/useChatStore.js:37-45 | the conversation active at a point of the log depends only on the log up to that point |
| `UnreadHistory.CountMissedPrefix` | client/src/store/useChatStore.js:77-91 | counting missed messages in a range does not depend on entries after it |
| `UnreadHistory.LastOpenedPrefix` | client/src/store/useChatStore.js:37-45 | the last opening before a bound is the same in a prefix and in the whole log |
| `UnreadHistory.ReplayActive` | client/src/store/useChatStore.js:37-45 | after replaying any log of opens and arrivals, the most recently opened conversation is active |
| `UnreadHistory.UnreadCountsMissedMessages` | client/src/store/useChatStore.js:37-91 | after any sequence of `setActiveConversation`/`receiveMessage`, a conversation's counter equals the number of its messages that arrived while it was not active since it was last opened, or that number plus its starting value if it was never opened |
| `UnreadHistory.OpenedConversationReadsZero` | client/src/store/useChatStore.js:41-43 | right after a conversation is opened its counter reads 0, whatever happened before |
| `UnreadHistory.OpenConversationStaysAtZero` | client/src/store/useChatStore.js:81-82 | while a conversation stays open, any number of arrivals for it leave its counter at 0 and it stays active |
| `Relay.Joined` | server/index.js:55-57 | joining adds the socket to that room only, and keeps every room non-empty |
| `Relay.Left` | server/index.js:60-62 | leaving removes the socket from that room only, and keeps every room non-empty |
| `Relay.Fanout` | server/index.js:65-69 | `socket.to(room)` reaches exactly the room's members other than the emitting socket |
| `Relay.JoinIsIdempotent` | server/index.js:55-57 | joining twice is joining once |
| `Relay.LeaveIsIdempotent` | server/index.js:60-62 | leaving twice is leaving once, and leaving a room one is not in is a no-op |
| `Relay.LeaveUndoesJoin` | server/index.js:55-62 | leaving right after joining a room one was not in restores the rooms |
| `Relay.NoDeliveryAfterLeave` | server/index.js:60-69 | a socket that left a room receives nothing more from it |
| `Relay.DisconnectRemovesExactlyItsEntries` | server/index.js:80-87 | after a disconnect no entry maps to the closed socket, every entry for another socket survives unchanged, and every entry for the closed socket is gone |
| `Relay.ReconnectSurvivesStaleDisconnect` | server/index.js:47-48 | a user whose entry was overwritten by a newer socket stays online when the old socket closes |
| `Relay.Server.constructor` | server/index.js:43 | no user online and no rooms |
| `Relay.Server.Setup` | server/index.js:47-52 | the user maps to this socket, overwriting any earlier one, other entries unchanged; the socket joins the user's personal room; 'connected' goes to this socket alone |
| `Relay.Server.JoinConversation` | server/index.js:55-57 | the socket joins the conversation's room; presence unchanged; rooms stay non-empty |
| `Relay.Server.LeaveConversation` | server/index.js:60-62 | the socket leaves the conversation's room; presence unchanged; rooms stay non-empty |
| `Relay.Server.NewMessage` | server/index.js:65-69 | the payload goes unchanged, as 'message received', to every member of its conversation's room except the sender and to no one else; the sender need not be a member |
| `Relay.Server.Typing` | server/index.js:72-74 | only the conversation id and sender name are forwarded, to the room's members other than the sender |
| `Relay.Server.StopTyping` | server/index.js:76-78 | only the conversation id is forwarded, to the room's members other than the sender |
| `Relay.Server.Disconnect` | server/index.js:80-87 | the `forEach` scan deletes exactly the entries whose value is the closing socket; afterwards no entry maps to it; rooms unchanged |
| `Text.TrimStartSpec` | client/src/components/ChatWindow.jsx:36 | `trim` drops a whitespace run at the front and stops at the first other character |
| `Text.TrimEndSpec` | client/src/components/ChatWindow.jsx:36 | `trim` drops a whitespace run at the back and stops at the last other character |
| `Text.TrimSpec` | client/src/components/ChatWindow.jsx:41 | the trimmed input is a slice of the input with no whitespace at either end |
| `Text.TrimEmptyIffBlank` | client/src/components/ChatWindow.jsx:36 | the trimmed input is empty exactly when every character is ECMAScript whitespace |
| `Text.Split` | client/src/components/MessageBubble.jsx:18 | `split(' ')` always yields at least one piece and no piece contains a space |
| `Text.JoinSplit` | client/src/components/MessageBubble.jsx:18 | joining the pieces of a split with the same separator gives back the string |
| `Text.SplitJoin` | client/src/components/MessageBubble.jsx:18 | splitting a join of separator-free pieces gives back the pieces |
| `Text.SplitSeparatorFree` | client/src/components/Sidebar.jsx:107 | a string without a space splits into itself alone |
| `Text.SplitPrefix` | client/src/components/Sidebar.jsx:107 | a space-free word followed by a space splits off as the first piece |
| `Text.UpperAscii` | client/src/components/Sidebar.jsx:106 | lower-case ASCII letters become the upper-case letter 32 code points lower; every other character is kept |
| `Text.Digit` | client/src/components/Sidebar.jsx:126 | a digit value renders as a character between '0' and '9' |
| `Text.DecimalString` | client/src/components/Sidebar.jsx:126 | a count renders as a non-empty run of digits, one digit exactly below ten |
| `Text.DecimalRoundTrip` | client/src/components/Sidebar.jsx:126 | reading back the rendered digits gives the count |
| `Avatar.AvatarColor` | client/src/components/Sidebar.jsx:6-9 | a non-empty name gets the palette entry at its first character's code modulo 8, always one of the eight colours; an empty name gets no colour |
| `Avatar.SameColourForCongruentInitials` | client/src/components/MessageBubble.jsx:7 | two names whose first character codes agree modulo 8 get the same colour |
| `Avatar.EveryColourReachable` | client/src/components/MessageBubble.jsx:4-7 | eight consecutive first characters starting at a multiple of 8 pick the eight palette entries in order |
| `ChatWindow.SendGuard` | client/src/components/ChatWindow.jsx:36 | a send does nothing at all exactly when the input is whitespace only or no conversation is open |
| `ChatWindow.SendOrder` | client/src/components/ChatWindow.jsx:38-49 | a send that passes the guard first emits 'stop typing' for the active conversation, then calls `sendMessage` with the trimmed non-blank input, then emits the returned record re-addressed to the active conversation |
| `ChatWindow.SendEmitsNewMessageOnce` | client/src/components/ChatWindow.jsx:44-49 | 'new message' is emitted exactly once when `sendMessage` returned a record and never otherwise |
| `ChatWindow.NewMessageCountConcat` | client/src/components/ChatWindow.jsx:44-49 | the count of 'new message' emissions adds up over concatenated traces |
| `ChatWindow.NewMessageCountSingle` | client/src/components/ChatWindow.jsx:45 | a single step counts as a 'new message' emission exactly when it is one |
| `ChatWindow.SwitchOrder` | client/src/components/ChatWindow.jsx:17-27 | a switch leaves the old room, then fetches the new conversation's messages, then joins its room |
| `ChatWindow.RoomsHeldSnoc` | client/src/components/ChatWindow.jsx:22-25 | one more step applies its join or leave to the rooms held so far |
| `ChatWindow.RoomsHeldIgnoresOthers` | client/src/components/ChatWindow.jsx:39-48 | steps that neither join nor leave keep the rooms held |
| `ChatWindow.SendKeepsRooms` | client/src/components/ChatWindow.jsx:34-50 | sending never joins or leaves a room |
| `ChatWindow.SwitchMovesRooms` | client/src/components/ChatWindow.jsx:17-27 | a window in exactly its previous room ends up in exactly the new active conversation's room, or in none |
| `ChatWindow.Composer.constructor` | client/src/components/ChatWindow.jsx:10-11 | empty input, no pending timer, no room, empty trace |
| `ChatWindow.Composer.SwitchConversation` | client/src/components/ChatWindow.jsx:17-27 | the trace grows by the switch steps; the window holds exactly the active conversation's room; the store's messages are fetched for it, replacing or keeping them as the outcome says; with no active conversation the messages and the loading flag stay; the list, unread counters and typing map never change |
| `ChatWindow.Composer.Unmount` | client/src/components/ChatWindow.jsx:24-26 | the cleanup leaves the joined room and holds none; a pending timer is not cancelled |
| `ChatWindow.Composer.HandleSend` | client/src/components/ChatWindow.jsx:34-50 | the trace grows by the send steps; the input is cleared after a send attempt whether or not it succeeded; the store appends the record only on success; an ignored send changes nothing; the unread counters, typing map and loading flag never change |
| `ChatWindow.Composer.HandleTyping` | client/src/components/ChatWindow.jsx:52-70 | the input takes the new value; with an open conversation 'typing' with the user's name is emitted, even for an empty value, and the single pending stop is replaced by one due 2000 ms later |
| `ChatWindow.Composer.HandleKeyDown` | client/src/components/ChatWindow.jsx:72-74 | Enter without Shift sends, with the same trace, input and store effect as a send; any other key, Shift+Enter included, changes nothing; the unread counters, typing map and loading flag never change |
| `ChatWindow.Composer.AdvanceClock` | client/src/components/ChatWindow.jsx:63-66 | a pending stop that falls due emits 'stop typing' for the conversation it was scheduled for, once; after 2000 ms without typing nothing is pending |
| `ChatPage.ListenerFor` | client/src/pages/ChatPage.jsx:41-43 | the page listens for exactly 'message received', 'typing' and 'stop typing' |
| `ChatPage.Route` | client/src/pages/ChatPage.jsx:28-39 | 'message received' calls `receiveMessage` with the payload unchanged; 'typing' sets the entry to the sender name; 'stop typing' sets it to null |
| `ChatPage.TypingLastWriterWins` | client/src/pages/ChatPage.jsx:33-39 | of two typing events for one conversation the later decides the entry, and a 'stop typing' clears it whatever came before |
| `ChatPage.Page.constructor` | client/src/pages/ChatPage.jsx:9-12 | no listeners and an empty trace |
| `ChatPage.Page.Mount` | client/src/pages/ChatPage.jsx:15-43 | without a user: navigation to '/login' only, no connect, fetch or listener; with one: connect, fetch the list, register the three listeners; the loading flag, messages, unread counters and typing map stay |
| `ChatPage.Page.Unmount` | client/src/pages/ChatPage.jsx:45-49 | the cleanup removes exactly the three listeners |
| `ChatPage.Page.Dispatch` | client/src/pages/ChatPage.jsx:28-39 | a registered listener makes the store call `Route` names, with the store's own effect; an event without a registered listener changes nothing; the active conversation and loading flag never change |
| `Sidebar.OtherParticipant` | client/src/components/Sidebar.jsx:16-17 | the first participant whose id is not the user's; none exactly when every participant is the user |
| `Sidebar.Badge` | client/src/components/Sidebar.jsx:125-126 | a badge exactly when the count is above 0; "9+" above 9; otherwise a single digit |
| `Sidebar.BadgeShowsCount` | client/src/components/Sidebar.jsx:126 | a badge below the cap reads back as the count; no badge is wider than two characters |
| `Sidebar.Preview` | client/src/components/Sidebar.jsx:119-122 | "No messages yet" without a last message; the content itself up to 32 characters; otherwise its first 32 characters followed by '…' |
| `Sidebar.PreviewIsBoundedPrefix` | client/src/components/Sidebar.jsx:120-121 | a preview is at most 33 characters and starts with the message's first 32 characters, or with the whole message when shorter |
| `Sidebar.Status` | client/src/components/Sidebar.jsx:115-123 | "typing..." replaces the preview exactly when the typing entry is a non-empty name |
| `Sidebar.StopTypingRestoresPreview` | client/src/components/Sidebar.jsx:94 | after 'stop typing' the row shows its preview again |
| `Sidebar.SecondInitial` | client/src/components/Sidebar.jsx:107 | at most one character |
| `Sidebar.SidebarInitials` | client/src/components/Sidebar.jsx:106-107 | initials exist exactly for a non-empty name; one or two characters, the first being the name's first character upper-cased |
| `Sidebar.OneWordOneInitial` | client/src/components/Sidebar.jsx:107 | a name without a space has a single initial |
| `Sidebar.TwoWordsTwoInitials` | client/src/components/Sidebar.jsx:106-107 | for "First Second ..." the initials are the upper-cased first characters of the two words |
| `Sidebar.FirstWordStartsLikeText` | client/src/components/Sidebar.jsx:107 | the first piece of a split starts with the text's first character when that is not a space |
| `Sidebar.RowFor` | client/src/components/Sidebar.jsx:89-127 | no row without another participant; otherwise the other's name, initials and colour, the status line, the badge of the counter (missing reads as 0), and active exactly when its id is the active conversation's |
| `Sidebar.Rows` | client/src/components/Sidebar.jsx:89-91 | every row comes from a listed conversation, and every conversation with another participant has its row; its order and multiplicity are fixed by `RowsSingle` and `RowsConcat` |
| `Sidebar.RowsSingle` | client/src/components/Sidebar.jsx:89-91 | one conversation renders as its own row, or as nothing when it has no other participant |
| `Sidebar.RowsConcat` | client/src/components/Sidebar.jsx:89-91 | the rows of two consecutive stretches of the list are the rows of the first followed by those of the second: one row per qualifying conversation, in the store's order |
| `Sidebar.RowIdsCons` | client/src/components/Sidebar.jsx:89-91 | the first conversation's id heads the row ids exactly when it has another participant |
| `Sidebar.RowIdsFollowParticipants` | client/src/components/Sidebar.jsx:89-92 | which conversations get a row, and in what order, depends only on each entry's id and participants, not on last messages, counters, typing or the active conversation |
| `Sidebar.ArrivalKeepsRowOrder` | client/src/store/useChatStore.js:92-99 | a message patched into the list leaves the rows' conversation ids in the same order, whatever the counters and typing notices become |
| `Sidebar.RowIdsWithin` | client/src/components/Sidebar.jsx:89-91 | every row's id is the id of a listed conversation |
| `Sidebar.RowIdsDistinct` | client/src/components/Sidebar.jsx:89-91 | conversations with distinct ids give rows with distinct ids |
| `Sidebar.ActiveRowIsTheActiveConversation` | client/src/components/Sidebar.jsx:93 | a row is marked active exactly when its id is the active conversation's |
| `Sidebar.AtMostOneActiveRow` | client/src/components/Sidebar.jsx:93 | with distinct conversation ids, at most one row is marked active |
| `MessageBubble.SentIffOwnSender` | client/src/components/MessageBubble.jsx:11 | a message is the user's own exactly when its sender id, populated or bare, is the user's |
| `MessageBubble.SenderName` | client/src/components/MessageBubble.jsx:16 | the populated sender's name, otherwise "You" |
| `MessageBubble.FirstLetter` | client/src/components/MessageBubble.jsx:20 | an empty word gives nothing, any other word its first character upper-cased |
| `MessageBubble.BubbleInitialsOfWords` | client/src/components/MessageBubble.jsx:17-21 | the initials are the first letters of at most the first two words, empty words contributing nothing; at most two characters |
| `MessageBubble.InitialsAgreeWithSidebar` | client/src/components/MessageBubble.jsx:17-21 | for a name not starting with a space the bubble and the list show the same initials |
| `MessageBubble.InitialsDifferOnLeadingSpace` | client/src/components/MessageBubble.jsx:17-21 | for " Bo" the list shows " B" and the bubble "B" |
| `MessageBubble.Render` | client/src/components/MessageBubble.jsx:23-49 | a sent bubble exactly for the user's own messages, with the content and no avatar or name; a received one shows the sender name, its initials and its avatar colour |
| `MessageBubble.UnpopulatedStrangerShowsAsYou` | client/src/components/MessageBubble.jsx:16 | a received message whose sender is a bare id is shown under the name "You" with initial "Y" |

## Behaviour worth noting

The code behaves as follows, and the model does the same:

- A new message does not move its conversation to the top of the list. The
  list is patched in place (`PatchLastMessage`).
- A failed `fetchMessages` keeps the messages that were shown before, rather
  than clearing them.
- Messages are appended without any check for a duplicate `_id`.
- `isTyping` holds the typing sender's name, or null, rather than a boolean.
  The list shows "typing..." only for a non-empty name.
- `sendMessage` appends the returned record even when its conversation is not
  the active one.
- The typing timer is not cleared by a send, a switch or an unmount. A pending
  'stop typing' still fires for the conversation it was scheduled for.

## Left out

- The socket client singleton is not part of this model. Connecting is a trace step (`ConnectSocket`), and the asynchronously updated `connected` flag is not modelled.
- The auth store, the login and register pages, the routes and the user search are not part of this model. The logged-in user is a parameter, and every REST call is an `Option` outcome.
- Asynchronous interleavings are not modelled: each action is atomic. A stale `fetchMessages` that resolves after a switch and the read-then-set of `unreadCounts` inside `receiveMessage` are therefore not captured.
- socket.io's own behaviour is not modelled: delivery guarantees, the removal of a closed socket from its rooms, and each socket's room named after its own id. Rooms are sets, and `to(room)` excludes the sender.
- `formatTime`: date arithmetic and locale formatting are left out.
- JSX markup, CSS, scrolling, console logging and server start-up are left out.
- React's re-run of an effect when an object's identity changes is left to the caller, who calls `SwitchConversation` or `Mount` when the dependency changes.
- Batched state updates that could leave two timers pending are not modelled. The composer holds one pending stop, as `typingTimeout` holds one.
- Payload fields beyond those the relay forwards are not modelled, for example extra fields of a 'typing' payload.
- Text.UpperAscii: only the ASCII letters a-z are upper-cased. JavaScript's full Unicode case mapping (for example 'é' to 'É', 'ß' to "SS") is not modelled.
- Avatar.AvatarColor: a character is a Unicode scalar value taken as one UTF-16 code unit. For a name starting with a character outside the Basic Multilingual Plane, JavaScript's `charCodeAt(0)` gives the first half of a surrogate pair, which the model does not reproduce.
- Sidebar.Preview: the 32-character limit and the cut count Unicode scalar values, while JavaScript's `length` and `substring` count UTF-16 code units. For content with characters outside the Basic Multilingual Plane, such as emoji, the source cuts earlier and can split a surrogate pair; the model does not capture this.
- Sidebar.SidebarInitials: for an empty name the source's render throws. The model returns `None` and does not model the exception. The first character of the name and of its second word is a whole Unicode scalar value, while `name[0]` in JavaScript is one UTF-16 code unit: for a name such as "😀 Bo" the source shows a lone high surrogate where the model shows the emoji.
- Sidebar.SecondInitial: the second word's first character is a whole Unicode scalar value, where the source takes one UTF-16 code unit; the two differ for characters outside the Basic Multilingual Plane.
- MessageBubble.FirstLetter: a word's first character is a whole Unicode scalar value, where `w[0]` takes one UTF-16 code unit; for a word starting outside the Basic Multilingual Plane the source shows half a surrogate pair.
- MessageBubble.BubbleInitials: built from `FirstLetter`, so it differs from the source in the same way for words starting outside the Basic Multilingual Plane.
- MessageBubble.Render: the initials of a received bubble come from `BubbleInitials` and differ from the source in the same way.
