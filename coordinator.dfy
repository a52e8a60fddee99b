/** The room coordinator as a state machine over the two maps the server
    keeps, `sessionRoomMap` and `roomPlayersMap`. Every operation is a
    function from the directory before to the directory after plus the
    envelopes it hands to the transport; the `Hub` class in module `Server`
    performs the same operations in place and is proved to agree with these
    functions. */
module Coordinator {
  import opened Messages
  import opened Slices

  /** `sessionRoom` binds a session to the name of its room, `roomPlayers`
      maps a room name to the room. */
  datatype Directory = Directory(sessionRoom: map<Session, string>, roomPlayers: map<string, Room>)

  /** The directory after an operation, and what it asked to send. */
  datatype Step = Step(next: Directory, sends: seq<Send>)

  /** A message handler either completes, or panics on a failed type
      assertion or slice bound; every panic happens before any map is
      written. */
  datatype Outcome = Handled(step: Step) | Panicked

  const Empty := Directory(map[], map[])

  /** Length of the prefix of the requested name that becomes the room name. */
  const NameLength := 4

  /** The room created by JOIN_RANDOM_ROOM when no room exists. */
  const FallbackRoom := "shua"

  /** The zero value of a room, which a lookup of a missing key yields. */
  const NoRoom := Room("", "", [])

  /** `sessionRoomMap[s]`: the bound name, or "" when `s` is unbound. */
  function BoundName(d: Directory, s: Session): string
  {
    if s in d.sessionRoom then d.sessionRoom[s] else ""
  }

  /** `roomPlayersMap[sessionRoomMap[s]]`, with Go's zero-value defaults. */
  function BoundRoom(d: Directory, s: Session): Room
  {
    var name := BoundName(d, s);
    if name in d.roomPlayers then d.roomPlayers[name] else NoRoom
  }

  function Members(r: Room): seq<Session>
  {
    Sessions(r.players)
  }

  /** The predicate `broadcastToOthers` filters with. */
  function NotSender(s: Session): Session -> bool
  {
    o => o != s
  }

  /** respondRoomJoined: ROOM_JOINED about `r`, to the acting session only. */
  function RoomJoinedReply(s: Session, r: Room): Send
  {
    Send([s], RoomJoined(r.id, r.master, |r.players|))
  }

  /** shareNewMaster: NEW_MASTER to every member of `r`. */
  function NewMasterNotice(r: Room): Send
  {
    Send(Members(r), NewMaster(r.master))
  }

  /** broadcastToRoom: relays `msg` to every member of the sender's room. */
  function ToRoom(d: Directory, s: Session, msg: Inbound): Send
  {
    Send(Members(BoundRoom(d, s)), Relay(msg))
  }

  /** broadcastToOthers: relays `msg` to the sender's room, sender excluded. */
  function ToOthers(d: Directory, s: Session, msg: Inbound): Send
  {
    Send(Filtered(Members(BoundRoom(d, s)), NotSender(s)), Relay(msg))
  }

  /** createRoom: the room is keyed by the first four characters of the
      requested name; an existing room of that name is replaced. */
  function CreateRoom(d: Directory, s: Session, roomName: string, playerId: string): Step
    requires |roomName| >= NameLength
  {
    var name := roomName[..NameLength];
    var room := Room(name, playerId, [Player(s, playerId)]);
    Step(Directory(d.sessionRoom[s := name], d.roomPlayers[name := room]),
         [RoomJoinedReply(s, room)])
  }

  /** joinRoom: appends the joiner to an existing room; a name that is not
      a key falls back to createRoom. */
  function JoinRoom(d: Directory, s: Session, roomName: string, playerId: string): Step
    requires roomName in d.roomPlayers || |roomName| >= NameLength
  {
    if roomName !in d.roomPlayers then CreateRoom(d, s, roomName, playerId)
    else
      var target := d.roomPlayers[roomName];
      var room := target.(players := target.players + [Player(s, playerId)]);
      Step(Directory(d.sessionRoom[s := roomName], d.roomPlayers[roomName := room]),
           [RoomJoinedReply(s, room)])
  }

  /** joinRandomRoom: `pick` is the key that Go's randomised map iteration
      happens to yield first; with no room, room "shua" is created. */
  function JoinRandomRoom(d: Directory, s: Session, playerId: string, pick: string): Step
    requires d.roomPlayers != map[] ==> pick in d.roomPlayers
  {
    if d.roomPlayers == map[] then CreateRoom(d, s, FallbackRoom, playerId)
    else JoinRoom(d, s, pick, playerId)
  }

  /** The disconnect handler. A session not found among the players of its
      bound room changes nothing; otherwise it departs from that room. */
  function Leave(d: Directory, s: Session): Step
  {
    var room := BoundRoom(d, s);
    var i := IndexOf(Members(room), s);
    if i == -1 then Step(d, []) else Depart(d, s, BoundName(d, s), room, i)
  }

  /** The leaver at `i` was master, by id, and somebody remains. */
  predicate Elects(room: Room, i: nat)
    requires i < |room.players|
  {
    room.master == room.players[i].id && |room.players| > 1
  }

  /** The room once the player at `i` has left: the others in their order,
      and, on an election, the first of them as master. */
  function Vacate(room: Room, i: nat): Room
    requires i < |room.players|
  {
    var rest := room.players[..i] + room.players[i + 1..];
    Room(room.id, if Elects(room, i) then rest[0].id else room.master, rest)
  }

  /** The player at `i` of `room` (stored as `name`) leaves: its session's
      binding is deleted; an emptied room is deleted; a surviving room is
      stored back, told NEW_MASTER on an election, and then PLAYER_LEFT. */
  function Depart(d: Directory, s: Session, name: string, room: Room, i: nat): Step
    requires i < |room.players|
  {
    var after := Vacate(room, i);
    var sessionRoom := d.sessionRoom - {s};
    if |room.players| == 1 then Step(Directory(sessionRoom, d.roomPlayers - {name}), [])
    else
      Step(Directory(sessionRoom, d.roomPlayers[name := after]),
           (if Elects(room, i) then [NewMasterNotice(after)] else []) + [Send(Members(after), PlayerLeft)])
  }

  function RoomNameOf(msg: Inbound): Option<string>
  {
    match msg.data
    case None => None
    case Some(data) => data.roomName
  }

  /** The message handler's command switch. */
  function Dispatch(d: Directory, s: Session, msg: Inbound, pick: string): Outcome
    requires msg.command == JoinRandomRoomCommand && d.roomPlayers != map[] ==> pick in d.roomPlayers
  {
    if msg.command == CreateRoomCommand then
      match (RoomNameOf(msg), msg.playerId)
      case (Some(name), Some(id)) =>
        if |name| < NameLength then Panicked else Handled(CreateRoom(d, s, name, id))
      case _ => Panicked
    else if msg.command == JoinRoomCommand then
      match (RoomNameOf(msg), msg.playerId)
      case (Some(name), Some(id)) =>
        if name !in d.roomPlayers && |name| < NameLength then Panicked
        else Handled(JoinRoom(d, s, name, id))
      case _ => Panicked
    else if msg.command == JoinRandomRoomCommand then
      match (msg.data, msg.playerId)
      case (Some(_), Some(id)) => Handled(JoinRandomRoom(d, s, id, pick))
      case _ => Panicked
    else if msg.command == MovementCommand then
      Handled(Step(d, [ToOthers(d, s, msg)]))
    else
      Handled(Step(d, [ToRoom(d, s, msg)]))
  }
}
