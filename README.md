# Chat server session and room state, in Dafny

This project models the in-memory core of a socket.io chat server
(`server/index.js`). The server keeps three pieces of module-level state:
`users` maps socket ids to user records, `messages` maps room names to their
message histories, and `rooms` holds the three rooms created at startup. It
also relies on the transport's per-socket room membership. Node runs each
socket.io handler to completion before the next one starts, so every handler
is one atomic transition of this state.

The model has two layers:

- `ChatSpec` describes the state as a value (`State`). It defines the
  invariant `Inv` and one transition function per handler. Each function's
  postconditions state what the handler promises: its guards, what it
  changes, what it leaves alone, and what it emits to whom.
- `Server.ChatServer` is a class with the same state as fields. Each handler
  is a method that updates those fields in place. `join_room` leaves rooms
  one at a time in a loop, as the source's `forEach` does. Each method is
  proved to reach exactly the state that the matching `ChatSpec` transition
  describes.

Supporting modules:

- `UserMap` models the JavaScript `Map` used for `users`. The Map is an
  insertion-ordered sequence of records: `set` on an existing key keeps its
  position, `delete` keeps the order of the others, and `find` returns the
  first match.
- `History` models `slice(-n)`.
- `ChatTypes` holds the records and payloads.

Every `emit` is an `Emission(recipients, event, payload)` appended to
`outbox`. The recipients are computed the way socket.io computes them:

- `socket.emit` goes to the socket itself.
- `socket.broadcast.emit` goes to every live socket except those in the room
  named by the sender's id (`ChatSpec.Broadcast`).
- `io.emit` goes to every live socket.
- `io.to(room)` goes to every live socket whose membership contains `room`.
- `socket.to(room)` goes to the members of `room` except those in the room
  named by the sender's id (`ChatSpec.RoomExcept`).

socket.io 4 excludes the sender's own room, not just the sender. Since any
socket may `join_room` a name equal to another socket's id, such a socket is
left out of that sender's broadcasts and typing notices too
(`ChatSpec.SenderAudience`).

Every socket is also in a room named by its own id. That is how
`io.to(toUser.id)` reaches a private message's target.

Inputs the code gets from outside become method parameters: socket ids,
`uuidv4()` ids and `new Date().toISOString()` timestamps. An optional client
field (`avatar`, `room`) is an `Option<string>`. JavaScript's `x || fallback`
treats both a missing value and `""` as absent (`ChatSpec.OrElse`).

Where the code departs from what a chat server would usually do, the model
follows the code:

- `user_join` neither trims nor rejects an empty username. It also silently
  overwrites an existing registration.
- Joining `general` happens at connection time (`server/index.js:33`), not on
  `user_join`.
- `send_message` defaults the room to `general`, not to the sender's current
  room. It does no content check. It creates a missing history on demand, but
  never adds that room to `rooms`.
- `join_room` does no registration check and sends the room's whole history,
  not the last 50 messages.
- The `message_reaction` handler sits outside the connection callback
  (`server/index.js:188-198`), so it is never registered for any socket.
- Private messages are addressed to the room named by the target's socket id.
  `join_room` accepts any room name, so a socket that joins a room named after
  another socket's id also receives that socket's private messages
  (`ChatSpec.PrivateAudience`). Only without such a join does "delivered to
  sender and recipient only" hold.

## Model

| member | source | states |
|---|---|---|
| `ChatSpec.Initial` | server/index.js:20-27 | At startup there are no users, and `rooms` is exactly `general`, `random`, `tech` in that order. The histories are exactly those three rooms, each empty. The invariant holds. |
| `ChatSpec.Connect` | server/index.js:29-38 | A new socket's membership is exactly its own room and `general`. It has no user record. Users and histories are unchanged. Exactly one `connected` event, listing `rooms`, goes to that socket only. The invariant is preserved. |
| `ChatSpec.Disconnect` | server/index.js:40-53 | The socket leaves the live set and every room. Afterwards a lookup of its id is absent, and every other user's lookup is unchanged. For an unregistered socket, `users` is unchanged and nothing is emitted. For a registered one, `user_offline` with its username goes to the remaining sockets except those that joined a room named by its id. Then `online_users` goes to them too, holding exactly the records of the other users. Histories are unchanged, and the invariant is preserved. |
| `ChatSpec.UserJoin` | server/index.js:56-78 | The socket's record has its id, the given username and the given `joinedAt`. The avatar is the given one if non-empty, otherwise the ui-avatars URL for the username. Re-registration silently replaces the record. Other users' lookups, the histories and the membership are unchanged. Emitted, in order: `user_joined` to all live sockets outside the room named by the joiner's id, `online_users` (the new table) to all, and the last `min(50, n)` messages of `general` to the joining socket only. |
| `ChatSpec.SendMessage` | server/index.js:81-103 | An unregistered sender changes nothing and emits nothing. Otherwise the target room is the given one, or `general` if none is given. That room's history (created if missing) grows by exactly one message at the end. The message carries the sender's username and avatar, the content, the room and kind `text`. Every other room's history, `users` and the membership are unchanged. The message is sent to that room's members. The invariant is preserved, including that every stored message names its own room. |
| `ChatSpec.TypingNotice` | server/index.js:106-124 | This covers both `typing_start` and `typing_stop`. Only the outbox can change. An unregistered sender emits nothing. A registered sender's notice (username and room) goes to the room's members outside the room named by the sender's id. Whenever the invariant holds, the sender never receives its own notice. |
| `ChatSpec.JoinRoom` | server/index.js:127-140 | No registration is needed. Afterwards the socket's membership is exactly its own room plus `roomName`, and no other socket's membership changes. `users` and the histories are unchanged. `room_joined`, then the room's full history (empty if the room is unknown), go to the requester only. The at-most-one-other-room invariant is preserved. |
| `ChatSpec.SendPrivateMessage` | server/index.js:143-160 | No history, user record or membership ever changes. Something is emitted exactly when the sender is registered and some user has the target username. In that case exactly two events are emitted: `private_message` to the room of the first such user in table order, which under the invariant includes that user's socket, and then the same message echoed to the sender. |
| `ChatSpec.RoomMembers` | server/index.js:102 | The audience of `io.to(room)` is exactly the live connections whose membership contains `room`. |
| `ChatSpec.Broadcast` | server/index.js:44-47 | The audience of `socket.broadcast.emit` from `sid` is exactly the live connections that are not in the room named `sid`. |
| `ChatSpec.RoomExcept` | server/index.js:109 | The audience of `socket.to(room).emit` from `sid` is exactly the members of `room` that are not in the room named `sid`. |
| `ChatSpec.SenderAudience` | server/index.js:67 | In any state satisfying the invariant, neither audience includes the sender. The broadcast is exactly "everyone but the sender" if and only if no other connection has joined the room named by the sender's id, and then the room audience is exactly the room minus the sender. |
| `ChatSpec.PrivateAudience` | server/index.js:157 | The audience of `io.to(id)` includes the socket `id`. It is exactly that socket if and only if no other socket has joined a room with that name. |
| `ChatSpec.JoinThenLeave` | server/index.js:40-78 | For an unregistered socket, a `user_join` followed by a `disconnect` restores the user table and every history. |
| `ChatSpec.JoinSeesLatestGeneral` | server/index.js:76-99 | After a registered user posts to `general`, the history sent to the next registering socket (and only to it) ends with that message (same id and content). The messages before it are the 49 most recent earlier ones, and the whole history holds at most 50 messages. |
| `UserMap.Get` | server/index.js:82 | `users.get(id)` is present exactly when `id` is a key. When present, the result is an entry of the table carrying that id. |
| `UserMap.Put` | server/index.js:64 | After `users.set(u.id, u)`, a lookup of `u.id` yields `u` and every other lookup is unchanged. The keys gain `u.id`. |
| `UserMap.PutOrder` | server/index.js:64 | `set` appends a new key at the end. With an existing key the length is unchanged, and every entry with another key stays at its index. |
| `UserMap.PutDistinct` | server/index.js:64 | `set` keeps the keys of the table distinct. |
| `UserMap.Remove` | server/index.js:48 | After `users.delete(id)`, a lookup of `id` is absent and every other lookup is unchanged. The keys lose `id`. The remaining entries are exactly the entries with another id. |
| `UserMap.RemoveOrder` | server/index.js:48 | In a table without repeated keys, `delete` takes out exactly the entry carrying the key; the entries before and after it keep their insertion order, which fixes the order of the `online_users` list and which same-named user `find` picks. |
| `UserMap.RemoveAbsent` | server/index.js:48 | Deleting a key the table does not hold leaves the table unchanged. |
| `UserMap.RemoveDistinct` | server/index.js:48 | `delete` keeps the keys of the table distinct. |
| `UserMap.RemovePut` | server/index.js:48 | Deleting a key that was just set for the first time gives back the original table. |
| `UserMap.FindByName` | server/index.js:145 | `find` by username returns the lowest-indexed record with that name. It returns none exactly when no record has that name. |
| `History.SliceLast` | server/index.js:76 | `slice(-n)` returns `min(n, length)` elements, and they are a suffix of the history, in order. |
| `History.SliceLastAppend` | server/index.js:76 | After one more message is appended, the last-`n` window ends with that message. The rest of the window is the last `n - 1` messages before it. |
| `Server.ChatServer.constructor` | server/index.js:20-27 | The constructor builds `rooms` and one empty history per room (a loop over the rooms). The resulting state is `ChatSpec.Initial`. |
| `Server.ChatServer.Connect` | server/index.js:29-38 | Updates the fields in place to the state given by `ChatSpec.Connect`. |
| `Server.ChatServer.Disconnect` | server/index.js:40-53 | Updates the fields in place to the state given by `ChatSpec.Disconnect`. |
| `Server.ChatServer.UserJoin` | server/index.js:56-78 | Updates the fields in place to the state given by `ChatSpec.UserJoin`. |
| `Server.ChatServer.SendMessage` | server/index.js:81-103 | Pushes onto the room's history in place, reaching the state given by `ChatSpec.SendMessage`. |
| `Server.ChatServer.TypingStart` | server/index.js:106-114 | Reaches the state given by `ChatSpec.TypingNotice` with event `user_typing`. |
| `Server.ChatServer.TypingStop` | server/index.js:116-124 | Reaches the state given by `ChatSpec.TypingNotice` with event `user_stop_typing`. |
| `Server.ChatServer.JoinRoom` | server/index.js:127-140 | Leaves each current room except the socket's own, one per loop iteration, then joins `roomName`. This reaches the state given by `ChatSpec.JoinRoom`. |
| `Server.ChatServer.SendPrivateMessage` | server/index.js:143-160 | Reaches the state given by `ChatSpec.SendPrivateMessage`. |

## Left out

- Express, HTTP, CORS and `server.listen` (`server/index.js:1-17`, `163-166`) are I/O setup with no state of the core.
- The code at module scope, `server/index.js:168-198`, is left out. It is a second private-message handler and the `message_reaction` handler, both registered on a `socket` that does not exist outside the connection callback, so neither can run. Read as written, line 169 refers to an undeclared `socket` at module scope, so evaluating the module throws a ReferenceError right after `server.listen` (line 164) is called and the process exits; the model describes the connection handler as if lines 168-198 were not there.
- `client/src/App.js` and `client/src/index.js` are not part of this model. They are the browser UI, socket.io-client configuration, typing debounce and the Notification API.
- `console.log` calls are left out; they change no state.
- The socket.io transport is abstracted as the membership map and the outbox. Delivery, serialization, acknowledgements and network failures are not modelled.
- On a disconnect, socket.io removes the socket from all its rooms and from the live set before it runs the `disconnect` handler. The model does that removal as the first step of `Disconnect`; the handler itself never leaves rooms.
- `uuidv4()` and `new Date().toISOString()` are parameters, so the model does not capture that ids are unique or that timestamps increase.
- A handler called with no payload object, or with a non-object one, throws a TypeError at its first property access, before it changes any state or emits anything: `user_join` (`server/index.js:59`), a registered sender's `send_message` (`:89`), `typing_start`/`typing_stop` (`:109`, `:119`) and `send_private_message` (`:145`, when `users` is non-empty). The transitions take the fields as parameters and always complete, so this error path is not represented.
- Payload fields are modelled as strings or optional strings. A non-string value (a missing `username`, which the template would render as `"undefined"`, or a numeric `content`) is not modelled.
- `History.SliceLast` treats `n = 0` as "keep nothing", unlike JavaScript's `slice(-0)`; the server only ever uses `n = 50`.
- Concurrency is not modelled: handlers run one at a time on Node's single thread, and the model assumes that.
