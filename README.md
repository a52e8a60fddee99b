# Room coordinator of the mermaid-symphony game server

The game server keeps two maps in memory. `sessionRoomMap` binds a websocket
session to the name of its room. `roomPlayersMap` maps a room name to a room,
which has an id, a master player id and an ordered list of players. A player
is a session and a player id. Clients send `CREATE_ROOM`, `JOIN_ROOM`,
`JOIN_RANDOM_ROOM` and `MOVEMENT` commands. Any other command is relayed to the
sender's room. When a connection closes, the leaver is removed from its room,
a new master is elected if needed, and an empty room is deleted.

This project models that coordinator in Dafny:

- `messages.dfy` (module `Messages`): sessions, players, rooms, the parsed
  inbound message and the envelopes the server sends. A `Send` pairs an
  envelope with its ordered target sessions.
- `slices.dfy` (module `Slices`): the helpers `playerSessions`, `index` and
  `filter`. Each is a specification function with its meaning in its
  contract, plus a loop method proved equal to that function.
- `coordinator.dfy` (module `Coordinator`): every handler as a pure function
  from the old directory (the two maps) to a `Step`, which holds the new
  directory and the sends. The message switch is `Dispatch`. Its `Outcome`
  is `Panicked` wherever Go panics on a failed type assertion or slice bound.
- `server.dfy` (module `Server`): class `Hub`. Its two map fields are updated
  in place by methods that follow the Go handlers statement by statement.
  Each method is proved to agree with its `Coordinator` function.
- `properties.dfy` (module `Properties`): the effect of each operation, master
  succession, round trips, and the invariant `Valid` that every handler keeps.
  `Valid` says every stored room is keyed by its four-character id, has
  players, and has one of them as master.
- `consistency.dfy` (module `Consistency`): the membership invariant
  `Consistent` says a session is bound exactly when it plays in one room,
  once. Every disconnect keeps it. Creates and joins keep it when the joiner is
  unbound and the name is fresh.
- `routing.dfy` (module `Routing`): who receives which relay and reply, and
  exactly which requests panic.
- `scenarios.dfy` (module `Scenarios`): concrete runs, including the two
  quirks the source has.

Go's map lookups return zero values, and the model follows them. An unbound
session's room name is "". A missing room is `NoRoom`, a room with no
players. Go's map iteration order is unspecified, so `joinRandomRoom` joins
whichever key it meets first. The model takes that key as a parameter
(`pick`), which may be any key. `Hub.JoinRandomRoom` picks one with `:|`.

Behaviours of the code worth noting:

- PLAYER_LEFT goes to the remaining players after every disconnect that
  leaves the room non-empty. When the master left, it is sent after
  NEW_MASTER. A master's departure is therefore announced by both
  NEW_MASTER and PLAYER_LEFT.
- `createRoom` silently replaces an existing room of the same
  four-character name. The displaced players stay bound to that name but
  are no longer found in the room, so their disconnect changes nothing
  (`CreateRoomDisplaces`). `joinRoom` with an absent name of at least four
  characters can do the same to the room named by its prefix.
- The handler panics (`Outcome.Panicked`, no state change), and nothing is
  reported to the client, on exactly these requests (`Routing.DispatchPanics`):
  a CREATE_ROOM or JOIN_ROOM without a string room name; a CREATE_ROOM
  whose name is shorter than four characters; a JOIN_ROOM whose name is
  shorter than four characters and is not a room; a JOIN_RANDOM_ROOM
  without a data object; and any of the three without a string player id.
  A JOIN_RANDOM_ROOM needs no room name, since it writes one before reading
  it, and a JOIN_ROOM naming an existing short room does not panic.
- Neither `createRoom` nor `joinRoom` unbinds a session from an earlier
  room. The membership invariant is therefore proved to be kept under the
  preconditions of the `Consistency` lemmas, not in general.
- Master succession compares player ids, not sessions. A non-master that
  shares the master's id triggers an election on leaving
  (`DuplicateIdScenario`).

## Model

| member | source | states |
|---|---|---|
| Slices.Sessions | Server/main/main.go:240-246 | one session per player, the i-th being the i-th player's session |
| Slices.PlayerSessions | Server/main/main.go:240-246 | the append loop builds exactly `Sessions` of the players |
| Slices.IndexOf | Server/main/main.go:213-220 | -1 exactly when the target is absent, else a position holding it with no earlier occurrence |
| Slices.Index | Server/main/main.go:213-220 | the early-return scan returns `IndexOf` |
| Slices.Filtered | Server/main/main.go:203-211 | an element is in the result exactly when it is in the input and satisfies the predicate; never longer than the input |
| Slices.FilteredConcat | Server/main/main.go:203-211 | filtering distributes over concatenation, so order is preserved |
| Slices.FilteredKeepsAll | Server/main/main.go:203-211 | a sequence whose elements all satisfy the predicate is returned unchanged |
| Slices.FilteredDropsOne | Server/main/main.go:203-211 | filtering out one rejected element leaves the elements before it followed by the elements after it |
| Slices.Filter | Server/main/main.go:203-211 | the append loop builds exactly `Filtered` |
| Slices.SessionsRemoveAt | Server/main/main.go:61 | splicing out player i removes exactly session i from the sessions |
| Slices.SessionsAppend | Server/main/main.go:175-178 | appending a player appends its session |
| Server.Hub.constructor | Server/main/main.go:13-14 | both maps start empty |
| Server.Hub.RespondRoomJoined | Server/main/main.go:141-153 | ROOM_JOINED with the room's id, master and player count, addressed to the acting session only |
| Server.Hub.ShareNewMaster | Server/main/main.go:129-139 | NEW_MASTER naming the room's master, to every player of the room |
| Server.Hub.BroadcastToRoom | Server/main/main.go:109-116 | the relay goes to `ToRoom` of the current maps |
| Server.Hub.BroadcastToOthers | Server/main/main.go:118-127 | the relay goes to `ToOthers` of the current maps |
| Server.Hub.CreateRoom | Server/main/main.go:187-201 | the new maps and the reply are `Coordinator.CreateRoom` of the old maps |
| Server.Hub.JoinRoom | Server/main/main.go:168-185 | the new maps and the reply are `Coordinator.JoinRoom` of the old maps, including the create fallback |
| Server.Hub.JoinRandomRoom | Server/main/main.go:155-166 | the picked room is an existing key whenever one exists, and the outcome is `Coordinator.JoinRandomRoom` for that pick |
| Server.Hub.Disconnect | Server/main/main.go:49-57 | the new maps and the sends are `Coordinator.Leave` of the old maps |
| Server.Hub.Depart | Server/main/main.go:59-86 | the splice, unbinding, election, store-back or deletion and the two notices equal `Coordinator.Depart` |
| Server.Hub.HandleMessage | Server/main/main.go:90-104 | the handler's effect is `Dispatch` of the old maps; on a panic the maps are unchanged and nothing is sent |
| Properties.ConsistentMeansOneRoom | Server/main/main.go:13-14 | under the membership invariant a session is bound exactly when it is a player, in one room only, at one position only |
| Properties.CreateRoomEffect | Server/main/main.go:187-200 | room keyed by the first four characters, creator as sole player and master, creator bound, other rooms unchanged, one-player ROOM_JOINED to the creator alone |
| Properties.CreateRoomDisplaces | Server/main/main.go:188-197 | creating over an existing name drops its players from the room while they stay bound, so their disconnect changes nothing |
| Properties.JoinRoomAppends | Server/main/main.go:168-181 | joining an existing room appends the joiner last, keeps name, master and earlier players, binds the joiner, leaves other rooms alone |
| Properties.JoinMissingRoomCreates | Server/main/main.go:170-173 | joining a name that is not a key is exactly createRoom |
| Properties.JoinReplyDescribesRoom | Server/main/main.go:168-185 | the join reply goes only to the joiner and reports the room it is now bound to, its master and its post-join player count |
| Properties.JoinRandomRoomEffect | Server/main/main.go:155-166 | with no rooms, room "shua" holding only the joiner is created; otherwise the joiner is appended to the picked existing room and no room is added |
| Properties.LeaveNotFound | Server/main/main.go:50-57 | a session not among its bound room's players changes neither map and sends nothing |
| Properties.LeaveFound | Server/main/main.go:50-59 | a found leaver is at the first index of its session in its stored bound room, and departs from it |
| Properties.VacateRemoves | Server/main/main.go:61 | the vacated room keeps its id and exactly the other players, in order |
| Properties.LeaveRemovesLeaver | Server/main/main.go:59-86 | exactly the leaver's entry goes, the others keep their order, its binding is deleted, other rooms are untouched, a surviving room keeps the key set unchanged, an emptied room is deleted silently |
| Properties.LeaveElectsFirstRemaining | Server/main/main.go:65-83 | a departing master is replaced by the first remaining player, with NEW_MASTER then PLAYER_LEFT to the rest; otherwise the master stays and only PLAYER_LEFT is sent |
| Properties.LeaveTwice | Server/main/main.go:49-63 | a second disconnect of the same session is a no-op |
| Properties.CreateThenLeave | Server/main/main.go:187-197 | creating a fresh room and leaving it restores both maps exactly and sends nothing |
| Properties.JoinThenLeave | Server/main/main.go:168-181 | joining an existing room and leaving restores both maps, and the earlier players hear PLAYER_LEFT, when the joiner's id is not the master's |
| Properties.CreateRoomKeepsValid | Server/main/main.go:187-197 | createRoom keeps every stored room well formed |
| Properties.JoinRoomKeepsValid | Server/main/main.go:168-181 | joinRoom keeps every stored room well formed |
| Properties.JoinRandomRoomKeepsValid | Server/main/main.go:155-166 | joinRandomRoom keeps every stored room well formed, whatever room is picked |
| Properties.VacateKeepsWellFormed | Server/main/main.go:61-68 | after a departure from a room of several players, the master is still the id of a player |
| Properties.LeaveKeepsValid | Server/main/main.go:59-86 | the disconnect handler keeps every stored room well formed |
| Properties.DispatchKeepsValid | Server/main/main.go:92-103 | every command that does not panic keeps every stored room well formed |
| Consistency.CreateRoomKeepsConsistent | Server/main/main.go:187-197 | creating a fresh room by an unbound session keeps the membership invariant |
| Consistency.JoinRoomKeepsConsistent | Server/main/main.go:168-181 | joining by an unbound session keeps the membership invariant unless it replaces a room |
| Consistency.JoinRandomRoomKeepsConsistent | Server/main/main.go:155-166 | a random join by an unbound session keeps the membership invariant |
| Consistency.LeaveIsRemoval | Server/main/main.go:59-86 | a disconnect unbinds the leaver and leaves its room with exactly its other players, without repeats, or deletes it when the leaver was alone |
| Consistency.LeaveKeepsConsistent | Server/main/main.go:49-86 | every disconnect keeps the membership invariant |
| Routing.RoomRelayTargets | Server/main/main.go:109-112 | the default relay goes to one target per player of the sender's room, in order, the sender included |
| Routing.OthersRelayTargets | Server/main/main.go:118-123 | the MOVEMENT relay reaches exactly the sender's room members other than the sender |
| Routing.OthersRelayOrder | Server/main/main.go:118-122 | with the sender once among the members, the MOVEMENT targets are the members before it followed by those after it |
| Routing.UnboundSenderReachesNobody | Server/main/main.go:109-123 | a session in no room reaches nobody with either relay |
| Routing.RelayCommandsKeepDirectory | Server/main/main.go:99-102 | MOVEMENT and unknown commands only relay and leave both maps unchanged |
| Routing.JoinCommandsReplyToSender | Server/main/main.go:93-98 | every completed create or join sends one ROOM_JOINED, to the sender only, describing its new room |
| Routing.DispatchPanics | Server/main/main.go:155-201 | exactly which CREATE_ROOM, JOIN_ROOM and JOIN_RANDOM_ROOM requests panic; other commands never do |
| Scenarios.CreateThenJoinScenario | Server/main/main.go:168-200 | "shuashua" creates room "shua"; a second join makes two players and only the joiner hears the count 2 |
| Scenarios.ElectionScenario | Server/main/main.go:59-83 | the master leaving [A, B, C] elects B, and B and C hear NEW_MASTER then PLAYER_LEFT |
| Scenarios.EmptyingScenario | Server/main/main.go:85-86 | the last player's disconnect empties both maps and sends nothing |
| Scenarios.MovementScenario | Server/main/main.go:99-100 | MOVEMENT from B in [A, B, C] reaches A and C |
| Scenarios.DuplicateIdScenario | Server/main/main.go:65-68 | a non-master sharing the master's id triggers an election when it leaves |

## Left out

- The gin HTTP server, its health and `/ws` endpoints, and `autotls.Run`
  (Server/main/main.go:31-47, 106) are network and TLS plumbing.
- melody sessions and `BroadcastMultiple` are a foreign library. Sessions
  are opaque values with equality. A broadcast is the returned target
  sequence and envelope. Delivery and its errors are not modelled.
- The JSON codec (`byteToStruct`, `structToByte`) is not modelled, and
  neither is the panic on an inbound payload that is not a JSON object. The
  inbound message is already parsed into a command, an optional player id
  and an optional data object with an optional room name. A `player_id`,
  `data` or `roomName` of the wrong JSON type counts as missing, so its raw
  value is not part of the relayed message. Every other top-level field is
  kept in `others`, and every other member of the data object in `rest`, as
  uninterpreted text, and both are relayed with the message; re-encoding is
  not modelled.
- A missing or non-string `command` is not represented: the model's
  command is always a string. Go sends such a message down the default
  relay with no `command` field; the model relays it with some command
  string that matches none of the four, so the relayed message carries that
  string.
- The PLAYER_LEFT `player_id` payload is not modelled. It marshals a struct
  whose fields are all unexported, so its bytes carry no player data.
  `PlayerLeft` has no fields.
- Logging through `fmt.Printf` is left out.
- The handlers run on melody's goroutines without locking. The model is
  sequential.
- What the transport does to a connection after a handler panic is left
  out. The model stops at `Panicked`.
- Room names are `seq<char>`. Go slices `[0:4]` on bytes, so a name whose
  first four bytes are not four characters is not modelled.
- `joinRandomRoom` writes the picked name into the message's data map. That
  map is not read again after the handler returns, so the write is not
  modelled.
- Slice aliasing is not modelled: the spliced or appended `players` slice
  may share its backing array with the stored room. Every such room is
  stored back or deleted before the handler returns, so no aliased value is
  observable.
- Server.Hub.JoinRandomRoom: its room choice is a ghost out-parameter
  allowed to be any existing key. Go's iteration order is not pinned down.
