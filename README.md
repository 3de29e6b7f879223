# Typing race server: room registry and race state

This project is a Dafny model of the core of a Socket.IO typing-race server (`src/index.js`). Clients join, are matched into rooms of at most four players, and type a fixed passage. The server tracks each player's buffer, progress, speed and completion, and it broadcasts the room's state.

The model has two modules:

- `Typing` (`typing.dfy`) holds the pure text logic behind one keystroke event:
  - the JavaScript whitespace class;
  - splitting a buffer into words (`trim().split(/\s+/)`);
  - the prefix test that drives `typing_feedback`;
  - progress as an exact fraction;
  - whole words per minute.
- `Registry` (`registry.dfy`) holds the state.
  - Player and room records are datatypes.
  - The events a handler emits are `Effect` values, each a target plus an event.
  - Class `Server` owns the global `rooms` table, the creation order of its ids, and `socket.roomId` for each connection as the map `roomOf`.
  - The four socket handlers are methods: `Join` (`join_game`), `Progress` (`progress`), `Restart` (`restart_game`) and `Disconnect` (`disconnect`).

Each handler runs to completion before the next one starts, as in Node's event loop. Each one changes the server's fields in place and returns the events it emits, in emission order. The server's effects log is the concatenation of these lists.

Every handler preserves the invariant `Valid()`:

- `order` lists each live room exactly once;
- every live room has a non-empty id and races on the server's text;
- every live room holds between 1 and 4 players, so no empty room survives and no room goes over capacity;
- each player's stored progress agrees with its buffer.

Handlers also preserve `Tracked()`, which says every connection's room is live and still holds its player.

The model follows the code on these points:

- The typing clock starts only on a buffer of exactly one character (src/index.js:69).
- `restart_game` emits `text`, `players_update`, `restart`, `start_timer` in that order (src/index.js:106-109).
- Capacity is 4 and the start threshold is 2 (`Capacity`, `StartThreshold`).

Two behaviours of the code are modelled as written:

- **Re-joining:** when a connection emits `join_game` again, the join runs like any other.
  - If the first open room is the connection's current room, its record there is replaced by a fresh one, so `finished` is cleared. The player can then be announced again without a restart. `roomOf` stays the same.
  - Otherwise the connection gets a fresh record in the new room and `roomOf` moves there. Its old record stays in the old room, and no disconnect removes it.
- **Typing clock not started:** if the clock has not started, `Date.now() - null` measures the elapsed time from the epoch (`Since(None) == 0`).

## Model

| member | source | states |
|---|---|---|
| Typing.Words | src/index.js:82 | The tokens of a buffer, in order. Each one is non-empty and contains no whitespace. |
| Typing.WordsEmptyIff | src/index.js:82 | A buffer has no tokens exactly when it is all whitespace. |
| Typing.WordCount | src/index.js:82 | The word count is at least 1. It is 1 for an all-whitespace or empty buffer, because splitting `""` gives `[""]`. Otherwise it is the number of tokens. |
| Typing.WordsAppend | src/index.js:82 | A single whitespace character separates tokens: the tokens of `a + [sp] + b` are those of `a` followed by those of `b`. |
| Typing.WordsUnwords | src/index.js:82 | Round trip: non-empty, whitespace-free words joined by spaces split back into the same list. |
| Typing.Matches | src/index.js:74 | `isCorrect` holds exactly when the buffer is a prefix of the text. A buffer longer than the text is never correct. |
| Typing.MismatchPersists | src/index.js:74 | Once the buffer is incorrect, extending it never makes it correct. |
| Typing.ProgressOf | src/index.js:78 | Progress is a fraction over the text length and lies in [0, 1]. It is 1 exactly when the buffer is at least as long as the text. Otherwise the numerator is the buffer length. |
| Typing.ProgressMonotone | src/index.js:78 | A longer buffer never has lower progress. |
| Typing.Wpm | src/index.js:81-83 | 0 when the elapsed time is not positive. Otherwise the floor of words per minute: `r*ms <= words*60000 < (r+1)*ms`. |
| Registry.Reset | src/index.js:98-104 | A reset record keeps the username. Its buffer is empty, progress is 0, it is not finished, the typing clock is unset and wpm is 0. |
| Registry.Keystroke | src/index.js:66-83 | After a progress event the buffer is the new one and progress is `ProgressOf` the buffer length: the buffer length over the text length, capped at 1. The typing clock starts only when unset and the buffer has length 1, and it never changes once set. wpm is `Wpm` of the word count over the time since the clock started. Username and finished are kept. |
| Registry.Advance | src/index.js:77-88 | The stored record after a progress event: `finished` holds exactly when it held before or the buffer equals the text. Every other field is Keystroke's. |
| Registry.AnnouncedAtMostOnce | src/index.js:87-93 | Over any run of progress events on one player record, the player triggers at most one `game_finished`, and none once finished. Only a restart or a re-join replaces the record. |
| Registry.FirstOpen | src/index.js:27-29 | The index of the first room in scan order with fewer than 4 players. Every earlier room is full. It is the number of rooms when all rooms are full. |
| Registry.FindOpenRoom | src/index.js:27-29 | The scan loop returns exactly FirstOpen. |
| Registry.Without | src/index.js:119 | Removing an id from the creation order keeps exactly the other ids and keeps them distinct. |
| Registry.WithoutKeepsOrder | src/index.js:119 | Removing a live room's id from the creation order cuts out its one occurrence, so every other room keeps its place in the first-fit scan. |
| Registry.FreshRoomIdExists | src/index.js:31-32 | However many rooms are live, a non-empty id that is not in use exists. |
| Registry.Admit | src/index.js:37-56 | The joining connection gets a fresh record (progress 0, empty buffer, not finished, no typing clock, wpm 0). Nobody else in the room changes. The player count grows by one for a new connection. The room clock is set to `now` only when it is unset and the room now holds at least 2 players. A clock already set is kept. |
| Registry.StartTimerAtMostOnce | src/index.js:50-56 | Any run of joins into a room sends at most one `start_timer`, and none once the room's clock is set. |
| Registry.JoinKeepsTable | src/index.js:27-45 | A join into the first open room, or into a new room, keeps the table invariant. In particular no room exceeds 4 players. |
| Registry.AddRoomOk | src/index.js:31-34 | Creating a room under a fresh id, appended to the creation order, keeps the table invariant. |
| Registry.ReplaceRoomOk | src/index.js:96-105 | Updating a live room in place with a well-formed room keeps the table invariant. |
| Registry.DeleteRoomOk | src/index.js:118-120 | Deleting a room from the table and from the creation order keeps the table invariant. |
| Registry.JoinConsistent | src/index.js:37-45 | After a join, every connection's room is live and holds its player. |
| Registry.SamePlayersConsistent | src/index.js:63-88 | Changing player records without changing who is in a room keeps every connection's room live and holding its player. |
| Registry.LeaveConsistent | src/index.js:113-121 | After a disconnect, every remaining connection's room is live and holds its player. |
| Registry.Server.constructor | src/index.js:17-19 | The server starts with the race text, no rooms and no connections, and the invariants hold. |
| Registry.Server.Join | src/index.js:26-57 | The player goes to the first room in creation order with a free place. If there is none, a fresh room is created and appended to the order. The room becomes `Admit` of it, and no other room changes. The events are `text` to the connection, `players_update` to the room, and `start_timer` exactly when the clock was started. The connection's room is recorded. The invariants are kept. |
| Registry.Server.Progress | src/index.js:59-94 | If the connection has no room, its room is gone or its player is absent: no change and no events. Otherwise the player's record becomes `Advance` and nothing else changes. The events are `typing_feedback(Matches)` to the connection, `players_update` with the Keystroke record to the room, then `game_finished(username, wpm)` exactly when the buffer equals the text and the player had not finished. The invariants are kept. |
| Registry.Server.Restart | src/index.js:96-111 | For an unknown room: no change and no events. Otherwise every player of the room is Reset, the set of players and the text are kept, and the clock is set to `now` whatever the player count. The room gets `text`, `players_update`, `restart` and `start_timer` in that order. The invariants are kept. |
| Registry.Server.Disconnect | src/index.js:113-122 | If the connection's room is live, only its player is removed and the room gets `players_update` with the rest. A room left empty is deleted from the table and the order; no other room changes. Otherwise nothing changes and nothing is sent. The connection is forgotten either way. The invariants are kept. |

## Left out

- **Server bootstrap:** Express, HTTP, CORS, Socket.IO construction and `server.listen` (src/index.js:1-15, 125-127) are I/O setup with no logic of their own.
- **Event delivery:** `socket.join` and actual delivery are reduced to the `Effect` list each handler returns. Room membership for broadcasts is the room id in the target.
- **Room id generation:** `createRoomId` (`Math.random().toString(36).substring(2, 8)`) is a nondeterministic choice of a non-empty id not in use. A random collision that overwrites a live room, and the empty id that `Math.random()` returning 0 would give, are not modelled.
- **Clock:** `Date.now()` is the `now` parameter of each handler, a positive integer of milliseconds. `progress` reads the clock twice (src/index.js:70 and 81), and both reads are taken to be equal. On a first keystroke the millisecond can tick between the two reads. The source then computes 1 ms elapsed and a very large wpm, where the model gives 0.
- **Floating point:** progress is the exact fraction `Ratio(min(|typed|, |text|), |text|)`. wpm is the exact floor `words*60000 / elapsedMs` in integers. The source's floating-point division can round differently on rare inputs.
- **Scan order:** the first-fit scan uses room creation order. JavaScript's `Object.keys` lists integer-like keys (an all-digit base-36 id) first in numeric order, and that reordering is not modelled.
- **String lengths:** they are counted in Unicode scalar values, not the UTF-16 code units that JavaScript's `length` counts, so characters outside the Basic Multilingual Plane count once, not twice.
- **Object keys:** room and connection ids are plain map keys. Ids that collide with properties inherited from `Object.prototype` are not modelled.
- **Payloads:** `username` is a string, and the `progress` payload always carries a string `typedText`. A malformed payload makes the source throw inside the handler; that is not modelled.
- **Records as values:** player and room records are values, not shared objects. A `players_update` carries the records as they are when the event is emitted.
- Registry.Server.Progress: its contract uses the server's text where the source reads `rooms[roomId].text`. The invariant makes the two equal for every live room.
