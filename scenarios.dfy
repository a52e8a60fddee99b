/** Concrete runs of the coordinator and two of the source's quirks on
    small inputs. */
module Scenarios {
  import opened Messages
  import opened Slices
  import opened Coordinator
  import opened Routing

  const A := Session(1)
  const B := Session(2)
  const C := Session(3)

  /** CREATE_ROOM "shuashua" by alice makes room "shua" with alice as
      master; bob's JOIN_ROOM "shua" then makes two players, and only bob
      hears ROOM_JOINED with playerCount 2. */
  lemma CreateThenJoinScenario()
    ensures var one := CreateRoom(Empty, A, "shuashua", "alice");
      && one.next.roomPlayers == map["shua" := Room("shua", "alice", [Player(A, "alice")])]
      && one.sends == [Send([A], RoomJoined("shua", "alice", 1))]
      && var two := JoinRoom(one.next, B, "shua", "bob");
         && two.next.roomPlayers["shua"].players == [Player(A, "alice"), Player(B, "bob")]
         && two.sends == [Send([B], RoomJoined("shua", "alice", 2))]
  {
    assert "shuashua"[..NameLength] == "shua";
  }

  /** In room [A, B, C] with master "a", A's disconnect makes "b" master,
      removes A, and tells B and C NEW_MASTER and then PLAYER_LEFT. */
  lemma ElectionScenario()
    ensures var room := Room("abcd", "a", [Player(A, "a"), Player(B, "b"), Player(C, "c")]);
      var d := Directory(map[A := "abcd", B := "abcd", C := "abcd"], map["abcd" := room]);
      var st := Leave(d, A);
      && st.next.roomPlayers["abcd"] == Room("abcd", "b", [Player(B, "b"), Player(C, "c")])
      && st.next.sessionRoom == map[B := "abcd", C := "abcd"]
      && st.sends == [Send([B, C], NewMaster("b")), Send([B, C], PlayerLeft)]
  {
    var room := Room("abcd", "a", [Player(A, "a"), Player(B, "b"), Player(C, "c")]);
    var d := Directory(map[A := "abcd", B := "abcd", C := "abcd"], map["abcd" := room]);
    ElectionFindsLeaver(d, room);
    ElectionVacates(room);
    assert d.sessionRoom - {A} == map[B := "abcd", C := "abcd"];
  }

  lemma ElectionFindsLeaver(d: Directory, room: Room)
    requires room == Room("abcd", "a", [Player(A, "a"), Player(B, "b"), Player(C, "c")])
    requires d == Directory(map[A := "abcd", B := "abcd", C := "abcd"], map["abcd" := room])
    ensures Leave(d, A) == Depart(d, A, "abcd", room, 0)
  {
    assert BoundRoom(d, A) == room;
    assert Members(room) == [A, B, C];
  }

  lemma ElectionVacates(room: Room)
    requires room == Room("abcd", "a", [Player(A, "a"), Player(B, "b"), Player(C, "c")])
    ensures Elects(room, 0)
    ensures Vacate(room, 0) == Room("abcd", "b", [Player(B, "b"), Player(C, "c")])
    ensures Members(Vacate(room, 0)) == [B, C]
  {
    assert room.players[..0] + room.players[1..] == [Player(B, "b"), Player(C, "c")];
  }

  /** The last player's disconnect deletes the room and sends nothing. */
  lemma EmptyingScenario()
    ensures var d := Directory(map[A := "abcd"], map["abcd" := Room("abcd", "a", [Player(A, "a")])]);
      Leave(d, A) == Step(Empty, [])
  {
    var d := Directory(map[A := "abcd"], map["abcd" := Room("abcd", "a", [Player(A, "a")])]);
    assert Members(d.roomPlayers["abcd"]) == [A];
    assert d.sessionRoom - {A} == map[];
    assert d.roomPlayers - {"abcd"} == map[];
  }

  /** MOVEMENT from B in room [A, B, C] reaches exactly A and C. */
  lemma MovementScenario(msg: Inbound)
    requires msg.command == MovementCommand
    ensures var d := Directory(map[A := "abcd", B := "abcd", C := "abcd"],
                               map["abcd" := Room("abcd", "a", [Player(A, "a"), Player(B, "b"), Player(C, "c")])]);
      Dispatch(d, B, msg, "") == Handled(Step(d, [Send([A, C], Relay(msg))]))
  {
    var room := Room("abcd", "a", [Player(A, "a"), Player(B, "b"), Player(C, "c")]);
    var d := Directory(map[A := "abcd", B := "abcd", C := "abcd"], map["abcd" := room]);
    MovementTargets(d, room, msg);
    RelayCommandsKeepDirectory(d, B, msg, "");
  }

  lemma MovementTargets(d: Directory, room: Room, msg: Inbound)
    requires room == Room("abcd", "a", [Player(A, "a"), Player(B, "b"), Player(C, "c")])
    requires d == Directory(map[A := "abcd", B := "abcd", C := "abcd"], map["abcd" := room])
    ensures ToOthers(d, B, msg) == Send([A, C], Relay(msg))
  {
    assert BoundRoom(d, B) == room;
    assert Members(room) == [A] + [B] + [C];
    OthersRelayOrder(d, B, msg, [A], [C]);
  }

  /** Ids, not sessions, decide succession: when B, a non-master sharing
      the master's id "x", leaves room [A "a", C "x"] + [B "x"], the master
      moves to A's id "a" although C, the master, is still there. */
  lemma DuplicateIdScenario()
    ensures var room := Room("abcd", "x", [Player(A, "a"), Player(C, "x"), Player(B, "x")]);
      var d := Directory(map[A := "abcd", B := "abcd", C := "abcd"], map["abcd" := room]);
      Leave(d, B).next.roomPlayers["abcd"].master == "a"
  {
    var room := Room("abcd", "x", [Player(A, "a"), Player(C, "x"), Player(B, "x")]);
    assert Members(room) == [A, C, B];
    assert IndexOf([A, C, B], B) == 2;
  }
}
