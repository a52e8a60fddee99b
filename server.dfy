/** The server's global state and handlers: the two package-level maps are
    the fields of `Hub`, and each handler updates them in place as the
    source does. Every method is proved to agree with the corresponding
    function of module `Coordinator`. */
module Server {
  import opened Messages
  import opened Slices
  import opened Coordinator

  class Hub {
    /** `sessionRoomMap`: the room name each session was last bound to. */
    var sessionRoom: map<Session, string>
    /** `roomPlayersMap`: the rooms by name. */
    var roomPlayers: map<string, Room>

    function State(): Directory
      reads this
    {
      Directory(sessionRoom, roomPlayers)
    }

    /** Both maps start empty. */
    constructor ()
      ensures State() == Empty
    {
      sessionRoom := map[];
      roomPlayers := map[];
    }

    /** respondRoomJoined: ROOM_JOINED about `r`, addressed to `s` alone. */
    method RespondRoomJoined(s: Session, r: Room) returns (send: Send)
      ensures send.targets == [s]
      ensures send.envelope == RoomJoined(r.id, r.master, |r.players|)
    {
      send := Send([s], RoomJoined(r.id, r.master, |r.players|));
    }

    /** shareNewMaster: NEW_MASTER naming `r`'s master, to all of `r`. */
    method ShareNewMaster(r: Room) returns (send: Send)
      ensures send == NewMasterNotice(r)
    {
      var targets := PlayerSessions(r.players);
      send := Send(targets, NewMaster(r.master));
    }

    /** broadcastToRoom. */
    method BroadcastToRoom(s: Session, msg: Inbound) returns (send: Send)
      ensures send == ToRoom(State(), s, msg)
    {
      var name := if s in sessionRoom then sessionRoom[s] else "";
      var room := if name in roomPlayers then roomPlayers[name] else NoRoom;
      var targets := PlayerSessions(room.players);
      send := Send(targets, Relay(msg));
    }

    /** broadcastToOthers. */
    method BroadcastToOthers(s: Session, msg: Inbound) returns (send: Send)
      ensures send == ToOthers(State(), s, msg)
    {
      var name := if s in sessionRoom then sessionRoom[s] else "";
      var room := if name in roomPlayers then roomPlayers[name] else NoRoom;
      var members := PlayerSessions(room.players);
      var targets := Filter(members, NotSender(s));
      send := Send(targets, Relay(msg));
    }

    /** createRoom. */
    method CreateRoom(s: Session, roomName: string, playerId: string) returns (sends: seq<Send>)
      requires |roomName| >= NameLength
      modifies this
      ensures Step(State(), sends) == Coordinator.CreateRoom(old(State()), s, roomName, playerId)
    {
      var name := roomName[..NameLength];
      roomPlayers := roomPlayers[name := Room(name, playerId, [Player(s, playerId)])];
      sessionRoom := sessionRoom[s := name];
      var reply := RespondRoomJoined(s, roomPlayers[name]);
      sends := [reply];
    }

    /** joinRoom. */
    method JoinRoom(s: Session, roomName: string, playerId: string) returns (sends: seq<Send>)
      requires roomName in roomPlayers || |roomName| >= NameLength
      modifies this
      ensures Step(State(), sends) == Coordinator.JoinRoom(old(State()), s, roomName, playerId)
    {
      if roomName !in roomPlayers {
        sends := CreateRoom(s, roomName, playerId);
        return;
      }
      var roomToJoin := roomPlayers[roomName];
      roomToJoin := roomToJoin.(players := roomToJoin.players + [Player(s, playerId)]);
      roomPlayers := roomPlayers[roomName := roomToJoin];
      sessionRoom := sessionRoom[s := roomName];
      var reply := RespondRoomJoined(s, roomPlayers[roomName]);
      sends := [reply];
    }

    /** joinRandomRoom: joins whichever room is picked, else creates "shua".
        `pick` records the room chosen. */
    method JoinRandomRoom(s: Session, playerId: string) returns (sends: seq<Send>, ghost pick: string)
      modifies this
      ensures old(roomPlayers) != map[] ==> pick in old(roomPlayers)
      ensures Step(State(), sends) == Coordinator.JoinRandomRoom(old(State()), s, playerId, pick)
    {
      if name :| name in roomPlayers {
        pick := name;
        sends := JoinRoom(s, name, playerId);
        return;
      }
      pick := FallbackRoom;
      sends := CreateRoom(s, FallbackRoom, playerId);
    }

    /** The disconnect handler: finds the session among the players of its
        bound room; a session that is not there changes nothing. */
    method Disconnect(s: Session) returns (sends: seq<Send>)
      modifies this
      ensures Step(State(), sends) == Leave(old(State()), s)
    {
      var roomName := if s in sessionRoom then sessionRoom[s] else "";
      var room := if roomName in roomPlayers then roomPlayers[roomName] else NoRoom;
      var members := PlayerSessions(room.players);
      var i := Index(members, s);
      if i == -1 {
        return [];
      }
      sends := Depart(s, roomName, room, i);
    }

    /** The rest of the disconnect handler, once the leaver is found at `i`. */
    method Depart(s: Session, roomName: string, room: Room, i: nat) returns (sends: seq<Send>)
      requires i < |room.players|
      modifies this
      ensures Step(State(), sends) == Coordinator.Depart(old(State()), s, roomName, room, i)
    {
      var leavingPlayer := room.players[i];
      var left := room.(players := room.players[..i] + room.players[i + 1..]);
      sessionRoom := sessionRoom - {s};
      var leaverIsMaster := left.master == leavingPlayer.id;
      var roomIsNotEmpty := |left.players| > 0;
      sends := [];
      if leaverIsMaster && roomIsNotEmpty {
        left := left.(master := left.players[0].id);
        var notice := ShareNewMaster(left);
        sends := sends + [notice];
      }
      if roomIsNotEmpty {
        roomPlayers := roomPlayers[roomName := left];
        var targets := PlayerSessions(left.players);
        sends := sends + [Send(targets, PlayerLeft)];
        return;
      }
      roomPlayers := roomPlayers - {roomName};
    }

    /** The message handler: the command switch. `panicked` is set where the
        source would panic; the state is then unchanged and nothing is sent. */
    method HandleMessage(s: Session, msg: Inbound) returns (sends: seq<Send>, panicked: bool, ghost pick: string)
      modifies this
      ensures msg.command == JoinRandomRoomCommand && old(roomPlayers) != map[] ==> pick in old(roomPlayers)
      ensures Dispatch(old(State()), s, msg, pick) == if panicked then Panicked else Handled(Step(State(), sends))
      ensures panicked ==> State() == old(State()) && sends == []
    {
      sends, panicked, pick := [], false, "";
      var name := RoomNameOf(msg);
      if msg.command == CreateRoomCommand {
        if name.None? || |name.value| < NameLength || msg.playerId.None? {
          panicked := true;
          return;
        }
        sends := CreateRoom(s, name.value, msg.playerId.value);
      } else if msg.command == JoinRoomCommand {
        if name.None? || (name.value !in roomPlayers && |name.value| < NameLength) || msg.playerId.None? {
          panicked := true;
          return;
        }
        sends := JoinRoom(s, name.value, msg.playerId.value);
      } else if msg.command == JoinRandomRoomCommand {
        if msg.data.None? || msg.playerId.None? {
          if roomPlayers != map[] {
            pick :| pick in roomPlayers;
          }
          panicked := true;
          return;
        }
        sends, pick := JoinRandomRoom(s, msg.playerId.value);
      } else if msg.command == MovementCommand {
        var send := BroadcastToOthers(s, msg);
        sends := [send];
      } else {
        var send := BroadcastToRoom(s, msg);
        sends := [send];
      }
    }
  }
}
