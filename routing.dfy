/** Who receives what: the relays of the command switch, the replies of the
    join commands, and which malformed requests make the handler panic. */
module Routing {
  import opened Messages
  import opened Slices
  import opened Coordinator
  import opened Properties

  /** The default relay goes to every player of the sender's room, one
      target per player, in player order, the sender included. */
  lemma RoomRelayTargets(d: Directory, s: Session, msg: Inbound)
    ensures var send := ToRoom(d, s, msg); var room := BoundRoom(d, s);
      && send.envelope == Relay(msg)
      && |send.targets| == |room.players|
      && (forall i :: 0 <= i < |room.players| ==> send.targets[i] == room.players[i].session)
  {
  }

  /** The MOVEMENT relay goes to exactly the players of the sender's room
      other than the sender. */
  lemma OthersRelayTargets(d: Directory, s: Session, msg: Inbound)
    ensures var send := ToOthers(d, s, msg);
      && send.envelope == Relay(msg)
      && s !in send.targets
      && forall x :: x in send.targets <==> x in Members(BoundRoom(d, s)) && x != s
  {
  }

  /** ... and in member order: with the sender once among them, the targets
      are the players before it followed by the players after it. */
  lemma OthersRelayOrder(d: Directory, s: Session, msg: Inbound, before: seq<Session>, after: seq<Session>)
    requires Members(BoundRoom(d, s)) == before + [s] + after
    requires s !in before && s !in after
    ensures ToOthers(d, s, msg).targets == before + after
  {
    var keep := NotSender(s);
    assert forall x :: x in before ==> keep(x);
    assert forall x :: x in after ==> keep(x);
    FilteredDropsOne(before, s, after, keep);
  }

  /** A session that is in no room reaches nobody with either relay. */
  lemma UnboundSenderReachesNobody(d: Directory, s: Session, msg: Inbound)
    requires Valid(d) && s !in d.sessionRoom
    ensures ToRoom(d, s, msg).targets == [] && ToOthers(d, s, msg).targets == []
  {
    assert "" !in d.roomPlayers by {
      forall n | n in d.roomPlayers ensures |n| == NameLength {
        assert WellFormed(n, d.roomPlayers[n]);
      }
    }
  }

  /** MOVEMENT and every unrecognised command only relay: the directory is
      unchanged. */
  lemma RelayCommandsKeepDirectory(d: Directory, s: Session, msg: Inbound, pick: string)
    requires msg.command !in {CreateRoomCommand, JoinRoomCommand, JoinRandomRoomCommand}
    ensures Dispatch(d, s, msg, pick)
         == Handled(Step(d, [if msg.command == MovementCommand then ToOthers(d, s, msg) else ToRoom(d, s, msg)]))
  {
  }

  /** A create or join that completes sends one ROOM_JOINED, to the sender
      only, naming the room it is now bound to, that room's master and its
      player count after the operation. */
  lemma JoinCommandsReplyToSender(d: Directory, s: Session, msg: Inbound, pick: string)
    requires Valid(d)
    requires msg.command in {CreateRoomCommand, JoinRoomCommand, JoinRandomRoomCommand}
    requires msg.command == JoinRandomRoomCommand && d.roomPlayers != map[] ==> pick in d.roomPlayers
    requires Dispatch(d, s, msg, pick).Handled?
    ensures var st := Dispatch(d, s, msg, pick).step;
      && s in st.next.sessionRoom && st.next.sessionRoom[s] in st.next.roomPlayers
      && var name := st.next.sessionRoom[s]; var r := st.next.roomPlayers[name];
         st.sends == [Send([s], RoomJoined(name, r.master, |r.players|))]
  {
    var name := RoomNameOf(msg);
    if msg.command == CreateRoomCommand {
      JoinReplyForCreate(d, s, name.value, msg.playerId.value);
    } else if msg.command == JoinRoomCommand {
      JoinReplyDescribesRoom(d, s, name.value, msg.playerId.value);
    } else if d.roomPlayers == map[] {
      JoinReplyForCreate(d, s, FallbackRoom, msg.playerId.value);
    } else {
      JoinReplyDescribesRoom(d, s, pick, msg.playerId.value);
    }
  }

  lemma JoinReplyForCreate(d: Directory, s: Session, roomName: string, playerId: string)
    requires |roomName| >= NameLength
    ensures var st := CreateRoom(d, s, roomName, playerId);
      && s in st.next.sessionRoom && st.next.sessionRoom[s] in st.next.roomPlayers
      && var name := st.next.sessionRoom[s]; var r := st.next.roomPlayers[name];
         st.sends == [Send([s], RoomJoined(name, r.master, |r.players|))]
  {
  }

  /** The handler panics, changing nothing, on a CREATE_ROOM whose name is
      missing or shorter than four characters, on a JOIN_ROOM whose name is
      missing or is neither a room nor long enough to create one, and on any
      of the three join commands without a player id. */
  lemma DispatchPanics(d: Directory, s: Session, msg: Inbound, pick: string)
    requires msg.command == JoinRandomRoomCommand && d.roomPlayers != map[] ==> pick in d.roomPlayers
    ensures msg.command == CreateRoomCommand ==>
      (Dispatch(d, s, msg, pick).Panicked? <==>
         RoomNameOf(msg).None? || |RoomNameOf(msg).value| < NameLength || msg.playerId.None?)
    ensures msg.command == JoinRoomCommand ==>
      (Dispatch(d, s, msg, pick).Panicked? <==>
         || RoomNameOf(msg).None?
         || (RoomNameOf(msg).value !in d.roomPlayers && |RoomNameOf(msg).value| < NameLength)
         || msg.playerId.None?)
    ensures msg.command == JoinRandomRoomCommand ==>
      (Dispatch(d, s, msg, pick).Panicked? <==> msg.data.None? || msg.playerId.None?)
    ensures msg.command !in {CreateRoomCommand, JoinRoomCommand, JoinRandomRoomCommand} ==>
      Dispatch(d, s, msg, pick).Handled?
  {
  }
}
