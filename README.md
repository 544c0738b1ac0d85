# Real-time chat: a verified model of the server store, the socket gateway and the chat window

The chat application has three parts that decide what users see:

- A NestJS server keeps conversations and their message histories in memory (`ChatService`).
- A socket.io gateway (`ChatGateway`) tracks which socket speaks for which user. It also decides which sockets each real-time event reaches.
- A React chat window updates its message list and its "is typing" list as events arrive, and sends what the user types.

This project models those three parts in Dafny and proves what each one promises.

| file | module | models |
|---|---|---|
| `chat_types.dfy` | `ChatTypes` | `Message`, `Conversation`, `TypingStatus`, the join/leave notice, and the subsequence relation the filters keep |
| `text.dfy` | `Text` | the JavaScript string operations the code relies on: `${n}` for a non-negative integer, `includes`, `toLowerCase` and `trim` |
| `chat_service.dfy` | `ConversationStore` | class `ChatService`: its two maps, the message counter, the seeded state, and every operation and scenario |
| `chat_gateway.dfy` | `Gateway` | class `ChatGateway`: the ordered `userSockets` registry, the disconnect scan, and the recipients of each handler |
| `chat_window.dfy` | `ChatWindow` | the chat window's list updaters and its send guard, as pure functions with lemmas |

How the model is set up:

- **Clock and randomness.** `Date.now()`, `new Date()` and `Math.random()` become parameters: `clock`, `now`, `suffix` and `systemId`.
- **The store.** A JavaScript `Map` becomes a Dafny `map`, plus a sequence of keys holding the map's insertion order. `ChatService.Valid` holds the store invariant:
  - every conversation has a history;
  - its `lastMessage` is the last entry of that history;
  - every stored message is filed under its own conversation id;
  - no two stored messages share an id.
- **The registry.** `userSockets` is a sequence of (username, socket) entries with distinct keys, in the order a JavaScript `Map` iterates them.
- **socket.io.** The gateway sees two things socket.io keeps: the set of connected sockets and the membership set of each room the handlers join (the room socket.io names after each socket is left out). These are two fields of `ChatGateway`. Each handler returns the deliveries it asks for, as a set of recipient sockets plus an event.

## Model

| member | source | states |
|---|---|---|
| `Text.DecimalString` | apps/api/src/chat/chat.service.ts:101 | `${n}` for a natural number: at least one character, all of them decimal digits, and no leading zero |
| `Text.DecimalStringInjective` | apps/api/src/chat/chat.service.ts:101 | different numbers render as different strings |
| `Text.Includes` | apps/api/src/chat/chat.service.ts:123 | `s.includes(t)` holds exactly when `t` appears in `s` as a contiguous block at some offset |
| `Text.LowerChar` | apps/api/src/chat/chat.service.ts:123 | `toLowerCase` on one character, for ASCII only: A-Z maps to a-z and every other character is left as it is (JavaScript also lowers letters beyond ASCII; see Left out) |
| `Text.Lower` | apps/api/src/chat/chat.service.ts:123 | `toLowerCase` on a string: same length, lowered character by character |
| `Text.SkipWhitespace` | apps/web/components/chat-window.tsx:104 | returns the first position at or after `i` that is not whitespace; everything skipped is whitespace |
| `Text.BackOverWhitespace` | apps/web/components/chat-window.tsx:104 | moves back over trailing whitespace, never below `lo`, and stops just after a character that is not whitespace |
| `Text.TrimCutsOnlyWhitespace` | apps/web/components/chat-window.tsx:104-108 | `trim` keeps one contiguous block; everything it cuts before and after that block is ECMAScript whitespace |
| `Text.Trim` | apps/web/components/chat-window.tsx:104-108 | `s.trim()` is no longer than `s`, neither starts nor ends with whitespace, and is empty exactly when every character of `s` is whitespace |
| `Text.TrimIdempotent` | apps/web/components/chat-window.tsx:108 | trimming twice gives the same result as trimming once |
| `ConversationStore.MessageId` | apps/api/src/chat/chat.service.ts:101 | a message id begins with `msg-` |
| `ConversationStore.ConversationId` | apps/api/src/chat/chat.service.ts:80 | a conversation id begins with `conv-` |
| `ConversationStore.FirstDashAfter` | apps/api/src/chat/chat.service.ts:101 | if `a` contains no dash, the first dash of `a-x` comes right after `a` |
| `ConversationStore.SplitAtFirstDash` | apps/api/src/chat/chat.service.ts:101 | if `a-x == b-y` and neither `a` nor `b` contains a dash, then `a == b` and `x == y` |
| `ConversationStore.MessageIdTail` | apps/api/src/chat/chat.service.ts:101 | after `msg-`, an id reads clock, dash, counter, dash, suffix |
| `ConversationStore.MessageIdInjective` | apps/api/src/chat/chat.service.ts:98-101 | a message id determines the clock reading, the counter value and the random suffix, so ids with different counter values always differ |
| `ConversationStore.ConversationIdInjective` | apps/api/src/chat/chat.service.ts:80 | conversations created at different clock readings get different ids |
| `ConversationStore.MessageIdIsNotSeed` | apps/api/src/chat/chat.service.ts:50-65 | no generated id equals a seeded id (`msg-1` or `msg-2`) |
| `ConversationStore.IssuedByGrows` | apps/api/src/chat/chat.service.ts:98 | an id issued under counter `n` is still issued under any larger counter |
| `ConversationStore.FreshIdNotIssued` | apps/api/src/chat/chat.service.ts:98-101 | no id issued under counter `n` equals an id made with counter `n + 1` |
| `ConversationStore.SliceFrom` | apps/api/src/chat/chat.service.ts:94 | `slice(start)` returns a suffix: with a negative start, its length is `min(-start, n)`; otherwise it is `n - min(start, n)` |
| `ConversationStore.ValuesInOrder` | apps/api/src/chat/chat.service.ts:72 | `Array.from(map.values())` gives one value per key, in key order |
| `ConversationStore.FilterMatches` | apps/api/src/chat/chat.service.ts:122-124 | a user is kept exactly when they match, with every copy the list holds, and the kept users stay in list order |
| `ConversationStore.SearchUsers` | apps/api/src/chat/chat.service.ts:119-125 | returns exactly those of the six fixed users whose lower-cased name contains the lower-cased query, in list order |
| `ConversationStore.FilterKeepsAllWhenAllMatch` | apps/api/src/chat/chat.service.ts:122-124 | a filter that every element passes returns the whole list |
| `ConversationStore.SearchEmptyQueryFindsAll` | apps/api/src/chat/chat.service.ts:119-125 | an empty query returns all six users, in order |
| `ConversationStore.SeedInvariant` | apps/api/src/chat/chat.service.ts:31-69 | the seeded store satisfies the store invariant |
| `ConversationStore.WithLastMessage` | apps/api/src/chat/chat.service.ts:110-114 | updating `lastMessage` never adds or removes a conversation |
| `ConversationStore.FreshIdIsNew` | apps/api/src/chat/chat.service.ts:98-102 | the id of a new message differs from every id already stored |
| `ConversationStore.AppendKeepsIdsUnique` | apps/api/src/chat/chat.service.ts:105-108 | appending a message with a fresh id keeps every stored id unique |
| `ConversationStore.AppendKeepsHistoriesAgree` | apps/api/src/chat/chat.service.ts:98-108 | after an append, every message is still filed under its own conversation id, issued by the incremented counter, and unique |
| `ConversationStore.AddMessageKeepsInvariant` | apps/api/src/chat/chat.service.ts:97-117 | `addMessage` keeps the whole store invariant |
| `ConversationStore.CreateKeepsInvariant` | apps/api/src/chat/chat.service.ts:79-90 | `createConversation` keeps the store invariant, including when it replaces an existing conversation |
| `ConversationStore.ChatService.constructor` | apps/api/src/chat/chat.service.ts:26-69 | the store starts as `initializeMockData` leaves it: the two seeded conversations, the two seeded messages and a counter of 0 |
| `ConversationStore.ChatService.AllConversations` | apps/api/src/chat/chat.service.ts:71-73 | returns every stored conversation exactly once, in insertion order |
| `ConversationStore.ChatService.GetConversation` | apps/api/src/chat/chat.service.ts:75-77 | returns some conversation exactly when the id is stored; that conversation carries the same id |
| `ConversationStore.ChatService.GetMessages` | apps/api/src/chat/chat.service.ts:92-95 | returns a tail of the history in stored order:<br>- a limit of 1 or more gives the last `min(limit, n)` messages;<br>- a limit of 0 gives the whole history;<br>- a negative limit drops the first `-limit` messages;<br>- an unknown id gives the empty sequence |
| `ConversationStore.ChatService.CreateConversation` | apps/api/src/chat/chat.service.ts:79-90 | stores `conv-<clock>` with an empty history and `unreadCount` 0:<br>- an existing id is replaced and its history is reset;<br>- the key order grows only for a new id;<br>- nothing else changes |
| `ConversationStore.ChatService.AddMessage` | apps/api/src/chat/chat.service.ts:97-117 | increments the counter, which becomes part of a fresh id:<br>- the message keeps the caller's fields;<br>- it is appended to its history, which is created if missing;<br>- it becomes `lastMessage` only for an existing conversation;<br>- every other history and conversation is unchanged |
| `ConversationStore.MessagesScenario` | apps/api/src/chat/chat.service.ts:97-108 | two messages with the same clock and the same suffix still get different ids, and a page lists them in the order they were posted |
| `ConversationStore.CreateScenario` | apps/api/src/chat/chat.service.ts:79-117 | a new conversation starts empty, and its one message becomes both its page and its `lastMessage` |
| `ConversationStore.SameInstantCreateScenario` | apps/api/src/chat/chat.service.ts:79-90 | two conversations created in the same millisecond share an id, and the second replaces the first |
| `ConversationStore.StrayMessageScenario` | apps/api/src/chat/chat.service.ts:105-114 | a message to an unknown id gets a history of its own, but no conversation is created |
| `ConversationStore.DistinctKeysCount` | apps/api/src/chat/chat.service.ts:72 | a duplicate-free key list is as long as the map has keys |
| `Gateway.Usernames` | apps/api/src/chat/chat.gateway.ts:44 | lists the registry's keys in iteration order |
| `Gateway.Lookup` | apps/api/src/chat/chat.gateway.ts:35 | `get(u)` is absent exactly when `u` is not a key; otherwise it is the socket of an entry for `u` |
| `Gateway.LookupFindsEntry` | apps/api/src/chat/chat.gateway.ts:35 | when keys are distinct, each entry is what `get` returns for its key |
| `Gateway.MapSet` | apps/api/src/chat/chat.gateway.ts:59 | `set` keeps an existing key in its place and puts a new key last |
| `Gateway.MapSetLookup` | apps/api/src/chat/chat.gateway.ts:59 | after `set(u, s)`, `u` maps to `s` and every other user keeps their socket |
| `Gateway.MapSetKeepsKeysDistinct` | apps/api/src/chat/chat.gateway.ts:59 | `set` keeps the keys distinct |
| `Gateway.MapDelete` | apps/api/src/chat/chat.gateway.ts:46 | `delete` never lengthens the registry |
| `Gateway.MapDeleteFirst` | apps/api/src/chat/chat.gateway.ts:44-46 | deleting the key of entry `i`, when no earlier entry has that key, removes exactly entry `i` |
| `Gateway.MapDeleteAbsent` | apps/api/src/chat/chat.gateway.ts:46 | deleting an absent key changes nothing |
| `Gateway.RemoveAtIndex` | apps/api/src/chat/chat.gateway.ts:46 | after removing entry `i`, each remaining entry's position is its old position, or one less for entries that came after `i` |
| `Gateway.RemoveAtKeepsKeysDistinct` | apps/api/src/chat/chat.gateway.ts:46 | removing one entry keeps the keys distinct |
| `Gateway.RemoveAtLeavesNoEntryFor` | apps/api/src/chat/chat.gateway.ts:46 | the removed user, like any user who was never a key, has no entry left |
| `Gateway.RemoveAtKeepsEntry` | apps/api/src/chat/chat.gateway.ts:46 | a remaining entry is still what `get` returns for its key |
| `Gateway.RemoveAtLookup` | apps/api/src/chat/chat.gateway.ts:46 | after removing entry `i`, its user has no socket and every other user keeps theirs |
| `Gateway.FirstWithSocket` | apps/api/src/chat/chat.gateway.ts:44-45 | returns where the scan stops: the first entry holding the socket, or none exactly when no entry holds it |
| `Gateway.FirstWithSocketAt` | apps/api/src/chat/chat.gateway.ts:44-49 | if entry `i` holds the socket and none before it does, the scan stops at `i` |
| `Gateway.AfterDisconnect` | apps/api/src/chat/chat.gateway.ts:41-52 | a disconnect removes at most one entry, the first one holding the socket:<br>- with no such entry the registry is unchanged;<br>- the other entries keep their order and their sockets;<br>- the keys stay distinct |
| `Gateway.AfterDisconnectLookup` | apps/api/src/chat/chat.gateway.ts:41-52 | after a disconnect, the removed user has no socket and every other user keeps theirs; a disconnect that removed nothing changes no lookup |
| `Gateway.SharedSocketKeepsSecondName` | apps/api/src/chat/chat.gateway.ts:44-49 | if one socket registered two names, its disconnect unregisters only the first name |
| `Gateway.ReRegisterSurvivesOldDisconnect` | apps/api/src/chat/chat.gateway.ts:44-59 | a user who re-registered on socket `b` keeps `b` when the old socket `a` disconnects and no other user is registered on `a`; nothing is then removed |
| `Gateway.AliceKeepsNewSocket` | apps/api/src/chat/chat.gateway.ts:44-59 | Alice registers on A, then again on B, then A disconnects: the registry is exactly Alice on B |
| `Gateway.ChatGateway.constructor` | apps/api/src/chat/chat.gateway.ts:35 | the registry starts empty |
| `Gateway.ChatGateway.Connect` | apps/api/src/chat/chat.gateway.ts:37-39 | a socket connects and nothing else changes |
| `Gateway.ChatGateway.DropSession` | apps/api/src/chat/chat.gateway.ts:41 | before the handler runs, socket.io has taken the closing socket out of every room and out of the connected set |
| `Gateway.ChatGateway.Disconnect` | apps/api/src/chat/chat.gateway.ts:41-52 | socket.io's cleanup runs before the handler, so the closing socket leaves every room and the connected set, the registry ends as `AfterDisconnect` says, and the closing socket never receives its own offline `userStatus` |
| `Gateway.ChatGateway.HandleDisconnect` | apps/api/src/chat/chat.gateway.ts:41-52 | the loop with `break` leaves the registry as `AfterDisconnect` says, and emits exactly one offline `userStatus` to every connected socket when it removed an entry, otherwise nothing |
| `Gateway.ChatGateway.HandleRegister` | apps/api/src/chat/chat.gateway.ts:54-62 | the user's socket becomes the client, replacing any earlier one:<br>- every other user keeps their socket;<br>- every connected socket hears the user is online;<br>- the ack is `success: true` |
| `Gateway.ChatGateway.HandleJoinRoom` | apps/api/src/chat/chat.gateway.ts:64-80 | adds the client to the room; joining twice leaves the same membership as joining once, and each join notifies the other members again:<br>- `userJoined` goes to exactly the earlier members other than the client;<br>- the ack is `success: true` |
| `Gateway.ChatGateway.HandleLeaveRoom` | apps/api/src/chat/chat.gateway.ts:82-97 | removes the client from the room; a client not in the room is not an error:<br>- `userLeft` goes to exactly the remaining members;<br>- the ack is `success: true` |
| `Gateway.ChatGateway.HandleMessage` | apps/api/src/chat/chat.gateway.ts:99-107 | one delivery of the message as sent, to exactly the room's members, the sender included if it is a member:<br>- no state changes;<br>- the ack is `success: true` |
| `Gateway.ChatGateway.HandleTyping` | apps/api/src/chat/chat.gateway.ts:109-117 | one delivery of the status as sent, to exactly the room's members other than the sender:<br>- no state changes;<br>- the ack is `success: true` |
| `Gateway.TypingAndDisconnectScenario` | apps/api/src/chat/chat.gateway.ts:99-117 | with A and B in a room, A's typing reaches B but not A; once B has disconnected, a message reaches only A |
| `ChatWindow.HasId` | apps/web/components/chat-window.tsx:38 | `some(m => m.id === id)` holds exactly when a listed message has that id |
| `ChatWindow.OnMessage` | apps/web/components/chat-window.tsx:35-41 | the message is appended exactly when it belongs to the open conversation and its id is not yet listed; otherwise the list is unchanged |
| `ChatWindow.OnMessageIdempotent` | apps/web/components/chat-window.tsx:37-40 | receiving a message twice gives the same list as receiving it once |
| `ChatWindow.OnMessageKeepsIdsDistinct` | apps/web/components/chat-window.tsx:37-40 | receiving a message never lists two messages with the same id |
| `ChatWindow.ReceiveAll` | apps/web/components/chat-window.tsx:35-41 | the list after a sequence of messages extends the list before them |
| `ChatWindow.ReceiveAllKeepsIdsDistinct` | apps/web/components/chat-window.tsx:35-41 | no sequence of incoming messages creates a repeated id |
| `ChatWindow.ReceiveAbsorbedIsNoOp` | apps/web/components/chat-window.tsx:36-38 | messages for other conversations, or with ids already listed, change nothing |
| `ChatWindow.AbsorbedGrows` | apps/web/components/chat-window.tsx:38 | a message that is already absorbed stays absorbed as the list grows |
| `ChatWindow.ReceiveAllAbsorbs` | apps/web/components/chat-window.tsx:35-41 | after a batch arrives, every message in it is either listed by id or for another conversation |
| `ChatWindow.ReceiveAllIdempotent` | apps/web/components/chat-window.tsx:35-41 | delivering a whole batch a second time changes nothing |
| `ChatWindow.RemoveAll` | apps/web/components/chat-window.tsx:52 | `filter(u => u !== name)` keeps exactly the other names, in their order and with their multiplicity, and drops every copy of `name` |
| `ChatWindow.RemoveAllKeepsNoDuplicates` | apps/web/components/chat-window.tsx:52 | filtering keeps a duplicate-free list duplicate-free |
| `ChatWindow.OnTyping` | apps/web/components/chat-window.tsx:45-55 | for the open conversation:<br>- someone other than the current user who starts typing is appended at the end if absent, and the list is unchanged if present;<br>- any other status removes every copy of that name, keeping the rest in order;<br>- other conversations change nothing |
| `ChatWindow.OnTypingKeepsInvariant` | apps/web/components/chat-window.tsx:47-53 | every typing update preserves two facts: no name is listed twice and the current user is never listed |
| `ChatWindow.TypingAfterKeepsInvariant` | apps/web/components/chat-window.tsx:45-55 | any sequence of typing events preserves that invariant |
| `ChatWindow.TypingFromEmpty` | apps/web/components/chat-window.tsx:19-55 | for one current user held over the whole sequence of events, a typing list started empty never holds duplicates or that user |
| `ChatWindow.TypingListSurvivesUserSwitch` | apps/web/app/page.tsx:48-51 | the invariant is tied to one current user: "Bob" listed while Alice is signed in breaks it once Bob is the current user |
| `ChatWindow.OnUserJoined` | apps/web/components/chat-window.tsx:58-71 | appends exactly one `system` message, carrying the given id and the notice's time, saying `<username> joined the chat`; notices about the current user or another conversation are ignored |
| `ChatWindow.OnUserLeft` | apps/web/components/chat-window.tsx:73-87 | appends exactly one `system` message, carrying the given id and the notice's time, saying `<username> left the chat`; notices about the current user or another conversation are ignored |
| `ChatWindow.OnSubmit` | apps/web/components/chat-window.tsx:102-113 | a send happens exactly when the input holds a character that is not whitespace:<br>- the content sent is the trimmed input, with no whitespace at either end;<br>- the input is cleared;<br>- typing-stopped is sent |

## Left out

- `ConversationStore.ChatService.AddMessage`: JavaScript numbers are doubles, so `messageCounter` would stop increasing past 2^53. The counter is modelled as an unbounded natural number.
- `ConversationStore.MessageId`: the clock is a natural number and the random suffix is an arbitrary string. The base-36 rendering of `Math.random()` is not modelled, and neither suffix nor clock is treated as a source of uniqueness; the counter alone separates ids.
- `Text.LowerChar`: lowers the letters A-Z only. JavaScript's `toLowerCase` also lowers letters beyond ASCII (for example 'Ä' to 'ä'); the model leaves them as they are.
- `Text.Lower`: built on `Text.LowerChar`, so Unicode case mapping beyond ASCII (including mappings that change a string's length) is not modelled.
- `ConversationStore.ChatService.AddMessage`: the service hands out the same conversation objects that it stores. Because `addMessage` mutates `lastMessage` in place, a caller holding such an object sees the change. The model returns values, so it does not capture this aliasing.
- The handlers log to the console (`handleConnection`, `handleDisconnect`, `handleJoinRoom`). Logging is not modelled.
- The socket.io server is not modelled beyond two things: the connected set and the rooms the handlers join and leave. Delivery itself is not modelled, and neither is the order in which several emits arrive.
- `Gateway.ChatGateway.Connect`: socket.io also puts every socket in a room named by its own id. The model leaves that room out, so a `sendMessage` whose conversation id is another socket's id reaches no one here, where socket.io would deliver it to that socket. Honest clients cannot reach this, because socket ids are not guessable.
- `Gateway.ChatGateway.HandleRegister`: the model stores the socket's id instead of the `Socket` object.
- `handleJoinRoom`, `handleLeaveRoom` and `handleTyping` ignore who the client claims to be. The model keeps that: the `username` in the data is never checked against the registry.
- The REST controller is not part of this model. It routes each request to the service and does two more things. It parses the `limit` query parameter with `parseInt`, defaulting to 50 when the parameter is absent or empty. It passes the search query as `query || ''`, so a missing query searches with the empty string.
- `ConversationStore.ChatService.GetMessages`: `limit` is an integer. Through the controller, `?limit=abc` arrives as `NaN`, and `slice(-NaN)` returns the whole history. That path, and any non-integer number, is not modelled.
- The socket context wires socket.io callbacks. It is not part of this model, and neither is its client-side message id.
- The page, conversation list, user selector and type declarations are rendering code and shapes. They are not part of this model; the shapes appear as `ChatTypes`.
- The chat window has more code around the updaters that is not modelled:
  - the initial `fetch` of the history, which replaces the list with the server's reply;
  - scrolling;
  - the 1-second typing debounce in `handleInputChange`;
  - time formatting;
  - joining and leaving the room from the effect.

  These are I/O, timers and rendering.
- `ConversationStore.ChatService.constructor`: the two seeded timestamps are read from one `clock`, while `initializeMockData` calls `Date.now()` once for each message; the two readings may differ by a millisecond or so.
- `ChatWindow.TypingFromEmpty`: the page renders the chat window without a `key`, so the typing list (and the message list, until the next fetch) survives a change of `currentUser` or of the open conversation. The invariant is proved for one current user and one open conversation held over the whole sequence; after a switch the list can hold the new current user (`TypingListSurvivesUserSwitch`).
- `ChatWindow.OnUserJoined`: the system message's id (`system-<time>-<random>`) is a parameter. Its `timestamp` is the notice's time as a number, not a `Date`.
- `ChatWindow.OnUserLeft`: the same holds as for `OnUserJoined`: the id is a parameter and the `timestamp` is a number.
- Concurrency is not modelled. Handlers run one at a time on Node's single thread, and the model treats calls as sequential.
- Two behaviours of the store are modelled as the code has them:
  - Conversation ids come from the clock alone (`conv-<Date.now()>`). Two conversations created in the same millisecond share an id, and the second replaces the first (`SameInstantCreateScenario`).
  - A message to an unknown conversation id is not rejected. It gets a history of its own, but no conversation is created (`StrayMessageScenario`).

  Message ids never collide: the counter separates them (`MessageIdInjective`).
- Real-time messages take a separate path that does not touch the store. `handleMessage` re-broadcasts what the client sends without storing it. The store and the gateway are therefore two independent models.
