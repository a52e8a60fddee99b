/** What the coordinator promises: the effect of each operation, the
    invariants they keep, the round trips between joining and leaving, the
    routing of relays, and the quirks of the source stated as lemmas. */
module Properties {
  import opened Messages
  import opened Slices
  import opened Coordinator

  // ---------------------------------------------------------------------
  // Invariants

  /** A stored room is keyed by its own four-character name, has players,
      and its master is the id of one of them. */
  ghost predicate WellFormed(name: string, r: Room)
  {
    && |name| == NameLength
    && r.id == name
    && |r.players| > 0
    && exists j :: 0 <= j < |r.players| && r.players[j].id == r.master
  }

  /** The invariant every operation of the source keeps. */
  ghost predicate Valid(d: Directory)
  {
    forall name :: name in d.roomPlayers ==> WellFormed(name, d.roomPlayers[name])
  }

  ghost predicate Distinct(xs: seq<Session>)
  {
    forall i, j :: 0 <= i < j < |xs| ==> xs[i] != xs[j]
  }

  /** Every binding names a stored room that has the session as a player. */
  ghost predicate BindingsAreMembers(d: Directory)
  {
    forall s :: s in d.sessionRoom ==>
      d.sessionRoom[s] in d.roomPlayers && s in Members(d.roomPlayers[d.sessionRoom[s]])
  }

  /** Every player's session is bound to the room it is in. */
  ghost predicate MembersAreBound(d: Directory)
  {
    forall name, x :: name in d.roomPlayers && x in Members(d.roomPlayers[name]) ==>
      x in d.sessionRoom && d.sessionRoom[x] == name
  }

  ghost predicate NoRepeats(d: Directory)
  {
    forall name :: name in d.roomPlayers ==> Distinct(Members(d.roomPlayers[name]))
  }

  /** The membership invariant: a session is bound iff it plays in exactly
      one room, once. The source keeps it when names are fresh and joining
      sessions are unbound (see module Consistency). */
  ghost predicate Consistent(d: Directory)
  {
    Valid(d) && BindingsAreMembers(d) && MembersAreBound(d) && NoRepeats(d)
  }

  lemma ConsistentMeansOneRoom(d: Directory, s: Session)
    requires Consistent(d)
    ensures s in d.sessionRoom <==> exists name :: name in d.roomPlayers && s in Members(d.roomPlayers[name])
    ensures forall a, b :: a in d.roomPlayers && b in d.roomPlayers
              && s in Members(d.roomPlayers[a]) && s in Members(d.roomPlayers[b])
              ==> a == b
    ensures forall name, i, j :: name in d.roomPlayers && 0 <= i < |d.roomPlayers[name].players|
              && 0 <= j < |d.roomPlayers[name].players|
              && d.roomPlayers[name].players[i].session == s && d.roomPlayers[name].players[j].session == s
              ==> i == j
  {
    forall name, i, j | name in d.roomPlayers && 0 <= i < |d.roomPlayers[name].players|
      && 0 <= j < |d.roomPlayers[name].players|
      && d.roomPlayers[name].players[i].session == s && d.roomPlayers[name].players[j].session == s
      ensures i == j
    {
      var m := Members(d.roomPlayers[name]);
      assert m[i] == s && m[j] == s;
      assert Distinct(m);
    }
  }

  // ---------------------------------------------------------------------
  // Sequence facts used below

  lemma {:induction false} RemoveAtMembers(xs: seq<Session>, i: nat, x: Session)
    requires i < |xs|
    ensures x in xs[..i] + xs[i + 1..] <==> exists j :: 0 <= j < |xs| && j != i && xs[j] == x
  {
    var r := xs[..i] + xs[i + 1..];
    if x in r {
      var k :| 0 <= k < |r| && r[k] == x;
      if k < i { assert xs[k] == x; } else { assert xs[k + 1] == x; }
    }
    if j :| 0 <= j < |xs| && j != i && xs[j] == x {
      if j < i { assert r[j] == x; } else { assert r[j - 1] == x; }
    }
  }

  lemma RemoveAtDistinct(xs: seq<Session>, i: nat)
    requires i < |xs| && Distinct(xs)
    ensures Distinct(xs[..i] + xs[i + 1..])
    ensures xs[i] !in xs[..i] + xs[i + 1..]
  {
    RemoveAtMembers(xs, i, xs[i]);
    var r := xs[..i] + xs[i + 1..];
    forall a, b | 0 <= a < b < |r| ensures r[a] != r[b] {
      var a' := if a < i then a else a + 1;
      var b' := if b < i then b else b + 1;
      assert r[a] == xs[a'] && r[b] == xs[b'];
    }
  }

  // ---------------------------------------------------------------------
  // createRoom

  /** The room is keyed by the first four characters of the requested name,
      has the creator as only player and as master, the creator is bound to
      it, every other room is as it was, and ROOM_JOINED with one player goes
      to the creator alone. */
  lemma CreateRoomEffect(d: Directory, s: Session, roomName: string, playerId: string)
    requires |roomName| >= NameLength
    ensures var st := CreateRoom(d, s, roomName, playerId); var name := roomName[..NameLength];
      && st.next.roomPlayers.Keys == d.roomPlayers.Keys + {name}
      && st.next.roomPlayers[name] == Room(name, playerId, [Player(s, playerId)])
      && (forall n :: n in d.roomPlayers && n != name ==> st.next.roomPlayers[n] == d.roomPlayers[n])
      && st.next.sessionRoom == d.sessionRoom[s := name]
      && st.sends == [Send([s], RoomJoined(name, playerId, 1))]
  {
  }

  /** Creating over an existing name drops that room's players: none of
      them is a player any more, yet each stays bound to the name, so its
      later disconnect changes nothing. */
  lemma CreateRoomDisplaces(d: Directory, s: Session, roomName: string, playerId: string, x: Session)
    requires |roomName| >= NameLength
    requires roomName[..NameLength] in d.roomPlayers
    requires x in d.sessionRoom && d.sessionRoom[x] == roomName[..NameLength] && x != s
    ensures var next := CreateRoom(d, s, roomName, playerId).next;
      && x !in Members(next.roomPlayers[roomName[..NameLength]])
      && x in next.sessionRoom
      && Leave(next, x) == Step(next, [])
  {
    var next := CreateRoom(d, s, roomName, playerId).next;
    assert Members(next.roomPlayers[roomName[..NameLength]]) == [s];
    assert BoundRoom(next, x) == next.roomPlayers[roomName[..NameLength]];
  }

  // ---------------------------------------------------------------------
  // joinRoom and joinRandomRoom

  /** Joining an existing room appends the joiner as its last player and
      leaves the earlier players, the name and the master alone; the joiner
      is bound to the room and every other room is unchanged. */
  lemma JoinRoomAppends(d: Directory, s: Session, roomName: string, playerId: string)
    requires roomName in d.roomPlayers
    ensures var st := JoinRoom(d, s, roomName, playerId); var r := d.roomPlayers[roomName];
      && st.next.roomPlayers.Keys == d.roomPlayers.Keys
      && st.next.roomPlayers[roomName] == Room(r.id, r.master, r.players + [Player(s, playerId)])
      && Members(st.next.roomPlayers[roomName]) == Members(r) + [s]
      && (forall n :: n in d.roomPlayers && n != roomName ==> st.next.roomPlayers[n] == d.roomPlayers[n])
      && st.next.sessionRoom == d.sessionRoom[s := roomName]
  {
    SessionsAppend(d.roomPlayers[roomName].players, Player(s, playerId));
  }

  /** A name that is not a room key makes joinRoom act exactly as createRoom,
      so a long name whose prefix is taken replaces that room. */
  lemma JoinMissingRoomCreates(d: Directory, s: Session, roomName: string, playerId: string)
    requires roomName !in d.roomPlayers && |roomName| >= NameLength
    ensures JoinRoom(d, s, roomName, playerId) == CreateRoom(d, s, roomName, playerId)
  {
  }

  /** The ROOM_JOINED reply of a join or create goes to the acting session
      only, and reports the name it is now bound to, that room's master and
      its player count after the operation. */
  lemma JoinReplyDescribesRoom(d: Directory, s: Session, roomName: string, playerId: string)
    requires Valid(d)
    requires roomName in d.roomPlayers || |roomName| >= NameLength
    ensures var st := JoinRoom(d, s, roomName, playerId);
      && s in st.next.sessionRoom && st.next.sessionRoom[s] in st.next.roomPlayers
      && var name := st.next.sessionRoom[s]; var r := st.next.roomPlayers[name];
         st.sends == [Send([s], RoomJoined(name, r.master, |r.players|))]
  {
    if roomName in d.roomPlayers {
      assert WellFormed(roomName, d.roomPlayers[roomName]);
    }
  }

  /** With no room, JOIN_RANDOM_ROOM creates room "shua" holding only the
      joiner; otherwise it appends the joiner to the picked existing room
      and creates none. */
  lemma JoinRandomRoomEffect(d: Directory, s: Session, playerId: string, pick: string)
    requires d.roomPlayers != map[] ==> pick in d.roomPlayers
    ensures var st := JoinRandomRoom(d, s, playerId, pick);
      && (d.roomPlayers == map[] ==>
            st.next.roomPlayers == map[FallbackRoom := Room(FallbackRoom, playerId, [Player(s, playerId)])]
            && st.next.sessionRoom == d.sessionRoom[s := FallbackRoom])
      && (d.roomPlayers != map[] ==>
            st.next.roomPlayers.Keys == d.roomPlayers.Keys
            && st.next.roomPlayers[pick].players == d.roomPlayers[pick].players + [Player(s, playerId)]
            && st.next.sessionRoom == d.sessionRoom[s := pick])
  {
    if d.roomPlayers == map[] {
      assert FallbackRoom[..NameLength] == FallbackRoom;
    }
  }

  // ---------------------------------------------------------------------
  // The disconnect handler

  /** A session that is not among the players of the room it is bound to
      (unbound, displaced, or already gone) changes neither map. */
  lemma LeaveNotFound(d: Directory, s: Session)
    requires s !in Members(BoundRoom(d, s))
    ensures Leave(d, s) == Step(d, [])
  {
  }

  /** A found leaver departs from the room it is bound to, which is stored. */
  lemma LeaveFound(d: Directory, s: Session)
    requires s in Members(BoundRoom(d, s))
    ensures var name := BoundName(d, s); var room := BoundRoom(d, s); var i := IndexOf(Members(room), s);
      && 0 <= i < |room.players| && room.players[i].session == s
      && name in d.roomPlayers && room == d.roomPlayers[name]
      && Leave(d, s) == Depart(d, s, name, room, i)
  {
  }

  /** The vacated room keeps its name and exactly the other players, in
      their order. */
  lemma VacateRemoves(room: Room, i: nat)
    requires i < |room.players|
    ensures Vacate(room, i).id == room.id
    ensures Vacate(room, i).players == room.players[..i] + room.players[i + 1..]
    ensures Members(Vacate(room, i)) == Members(room)[..i] + Members(room)[i + 1..]
  {
    SessionsRemoveAt(room.players, i);
  }

  /** Leaving removes exactly the leaver's entry, keeps the others in order,
      deletes the leaver's binding, and leaves every other room alone; an
      emptied room is deleted and nobody is told. */
  lemma LeaveRemovesLeaver(d: Directory, s: Session)
    requires s in Members(BoundRoom(d, s))
    ensures var name := BoundName(d, s); var room := BoundRoom(d, s);
      var i := IndexOf(Members(room), s); var st := Leave(d, s);
      && 0 <= i < |room.players| && name in d.roomPlayers && room == d.roomPlayers[name]
      && st.next.sessionRoom == d.sessionRoom - {s}
      && (forall n :: n in d.roomPlayers && n != name ==> n in st.next.roomPlayers && st.next.roomPlayers[n] == d.roomPlayers[n])
      && (|room.players| == 1 ==> st.next.roomPlayers == d.roomPlayers - {name} && st.sends == [])
      && (|room.players| > 1 ==>
            st.next.roomPlayers.Keys == d.roomPlayers.Keys
            && name in st.next.roomPlayers
            && st.next.roomPlayers[name].id == room.id
            && st.next.roomPlayers[name].players == room.players[..i] + room.players[i + 1..]
            && Members(st.next.roomPlayers[name]) == Members(room)[..i] + Members(room)[i + 1..])
  {
    LeaveFound(d, s);
    var room := BoundRoom(d, s);
    VacateRemoves(room, IndexOf(Members(room), s));
  }

  /** Master succession: when the leaver's id is the master's and players
      remain, the first remaining player becomes master and NEW_MASTER is
      sent before PLAYER_LEFT; otherwise the master stays and only
      PLAYER_LEFT is sent. Both go to the remaining players. */
  lemma LeaveElectsFirstRemaining(d: Directory, s: Session)
    requires s in Members(BoundRoom(d, s)) && |BoundRoom(d, s).players| > 1
    ensures var name := BoundName(d, s); var room := BoundRoom(d, s);
      var i := IndexOf(Members(room), s); var st := Leave(d, s);
      var rest := room.players[..i] + room.players[i + 1..];
      var after := st.next.roomPlayers[name];
      && name in st.next.roomPlayers
      && (room.master == room.players[i].id ==>
            after.master == (if i == 0 then room.players[1].id else room.players[0].id)
            && st.sends == [Send(Sessions(rest), NewMaster(after.master)), Send(Sessions(rest), PlayerLeft)])
      && (room.master != room.players[i].id ==>
            after.master == room.master
            && st.sends == [Send(Sessions(rest), PlayerLeft)])
  {
    LeaveFound(d, s);
    var room := BoundRoom(d, s);
    VacateRemoves(room, IndexOf(Members(room), s));
  }

  /** A second disconnect of the same session is a no-op. */
  lemma LeaveTwice(d: Directory, s: Session)
    requires Valid(d)
    ensures var next := Leave(d, s).next; Leave(next, s) == Step(next, [])
  {
    var next := Leave(d, s).next;
    if IndexOf(Members(BoundRoom(d, s)), s) != -1 {
      assert s !in next.sessionRoom;
      assert next.roomPlayers.Keys <= d.roomPlayers.Keys;
      forall n | n in d.roomPlayers ensures |n| == NameLength {
        assert WellFormed(n, d.roomPlayers[n]);
      }
    }
  }

  // ---------------------------------------------------------------------
  // Round trips

  /** Creating a fresh room and leaving it restores the directory exactly. */
  lemma CreateThenLeave(d: Directory, s: Session, roomName: string, playerId: string)
    requires |roomName| >= NameLength
    requires roomName[..NameLength] !in d.roomPlayers && s !in d.sessionRoom
    ensures Leave(CreateRoom(d, s, roomName, playerId).next, s) == Step(d, [])
  {
    var name := roomName[..NameLength];
    var next := CreateRoom(d, s, roomName, playerId).next;
    assert Members(next.roomPlayers[name]) == [s];
    assert next.roomPlayers - {name} == d.roomPlayers;
    assert next.sessionRoom - {s} == d.sessionRoom;
  }

  /** Joining a room one is not in and leaving again restores the directory,
      and the remaining players hear PLAYER_LEFT, provided the joiner's id
      is not the master's id (ids are compared, not sessions). */
  lemma JoinThenLeave(d: Directory, s: Session, roomName: string, playerId: string)
    requires roomName in d.roomPlayers && |d.roomPlayers[roomName].players| > 0
    requires s !in Members(d.roomPlayers[roomName]) && s !in d.sessionRoom
    requires playerId != d.roomPlayers[roomName].master
    ensures Leave(JoinRoom(d, s, roomName, playerId).next, s)
         == Step(d, [Send(Members(d.roomPlayers[roomName]), PlayerLeft)])
  {
    var r := d.roomPlayers[roomName];
    var next := JoinRoom(d, s, roomName, playerId).next;
    LeaveAfterJoin(d, s, roomName, playerId);
    assert next.roomPlayers[roomName := r] == d.roomPlayers && next.sessionRoom - {s} == d.sessionRoom;
    DepartLast(next, s, roomName, r, playerId);
  }

  /** After the join, the joiner is found last in the room it joined. */
  lemma LeaveAfterJoin(d: Directory, s: Session, roomName: string, playerId: string)
    requires roomName in d.roomPlayers && s !in Members(d.roomPlayers[roomName])
    ensures var r := d.roomPlayers[roomName]; var next := JoinRoom(d, s, roomName, playerId).next;
      Leave(next, s) == Depart(next, s, roomName, Room(r.id, r.master, r.players + [Player(s, playerId)]), |r.players|)
  {
    var r := d.roomPlayers[roomName];
    var next := JoinRoom(d, s, roomName, playerId).next;
    var joined := Room(r.id, r.master, r.players + [Player(s, playerId)]);
    var n := |r.players|;
    assert BoundName(next, s) == roomName && BoundRoom(next, s) == joined by {
      assert next == Directory(d.sessionRoom[s := roomName], d.roomPlayers[roomName := joined]);
    }
    assert IndexOf(Members(joined), s) == n by {
      SessionsAppend(r.players, Player(s, playerId));
      assert Members(joined)[..n] == Members(r);
    }
  }

  /** The player appended last leaves again: the room is as before. */
  lemma DepartLast(d: Directory, s: Session, roomName: string, r: Room, playerId: string)
    requires |r.players| > 0 && playerId != r.master
    ensures Depart(d, s, roomName, Room(r.id, r.master, r.players + [Player(s, playerId)]), |r.players|)
         == Step(Directory(d.sessionRoom - {s}, d.roomPlayers[roomName := r]), [Send(Members(r), PlayerLeft)])
  {
    var ps := r.players + [Player(s, playerId)];
    assert ps[..|r.players|] + ps[|r.players| + 1..] == r.players;
  }

  // ---------------------------------------------------------------------
  // Valid is kept by every operation

  lemma CreateRoomKeepsValid(d: Directory, s: Session, roomName: string, playerId: string)
    requires Valid(d) && |roomName| >= NameLength
    ensures Valid(CreateRoom(d, s, roomName, playerId).next)
  {
    var next := CreateRoom(d, s, roomName, playerId).next;
    var name := roomName[..NameLength];
    assert next.roomPlayers[name].players[0].id == playerId;
    forall n | n in next.roomPlayers ensures WellFormed(n, next.roomPlayers[n]) {
      if n != name {
        assert WellFormed(n, d.roomPlayers[n]);
      }
    }
  }

  lemma JoinRoomKeepsValid(d: Directory, s: Session, roomName: string, playerId: string)
    requires Valid(d) && (roomName in d.roomPlayers || |roomName| >= NameLength)
    ensures Valid(JoinRoom(d, s, roomName, playerId).next)
  {
    if roomName !in d.roomPlayers {
      CreateRoomKeepsValid(d, s, roomName, playerId);
    } else {
      var next := JoinRoom(d, s, roomName, playerId).next;
      forall n | n in next.roomPlayers ensures WellFormed(n, next.roomPlayers[n]) {
        assert WellFormed(n, d.roomPlayers[n]);
        if n == roomName {
          var r := d.roomPlayers[n];
          var j :| 0 <= j < |r.players| && r.players[j].id == r.master;
          assert next.roomPlayers[n].players[j] == r.players[j];
        }
      }
    }
  }

  lemma JoinRandomRoomKeepsValid(d: Directory, s: Session, playerId: string, pick: string)
    requires Valid(d) && (d.roomPlayers != map[] ==> pick in d.roomPlayers)
    ensures Valid(JoinRandomRoom(d, s, playerId, pick).next)
  {
    if d.roomPlayers == map[] {
      CreateRoomKeepsValid(d, s, FallbackRoom, playerId);
    } else {
      JoinRoomKeepsValid(d, s, pick, playerId);
    }
  }

  /** The master stays the id of a player through a departure: either it is
      re-elected, or the master's player is not the one removed. */
  lemma VacateKeepsWellFormed(name: string, room: Room, i: nat)
    requires i < |room.players| && |room.players| > 1 && WellFormed(name, room)
    ensures WellFormed(name, Vacate(room, i))
  {
    var after := Vacate(room, i);
    if Elects(room, i) {
      assert after.players[0].id == after.master;
    } else {
      var j :| 0 <= j < |room.players| && room.players[j].id == room.master;
      var k := if j < i then j else j - 1;
      assert after.players[k] == room.players[j];
    }
  }

  lemma LeaveKeepsValid(d: Directory, s: Session)
    requires Valid(d)
    ensures Valid(Leave(d, s).next)
  {
    var room := BoundRoom(d, s);
    var i := IndexOf(Members(room), s);
    if i != -1 {
      var name := BoundName(d, s);
      var next := Leave(d, s).next;
      assert name in d.roomPlayers && room == d.roomPlayers[name];
      assert WellFormed(name, room);
      if |room.players| > 1 {
        VacateKeepsWellFormed(name, room, i);
        assert next.roomPlayers == d.roomPlayers[name := Vacate(room, i)];
      } else {
        assert next.roomPlayers == d.roomPlayers - {name};
      }
      forall n | n in next.roomPlayers ensures WellFormed(n, next.roomPlayers[n]) {
        if n != name {
          assert WellFormed(n, d.roomPlayers[n]);
        }
      }
    }
  }

  /** Every message handler keeps Valid, whatever room a random join picks. */
  lemma DispatchKeepsValid(d: Directory, s: Session, msg: Inbound, pick: string)
    requires Valid(d)
    requires msg.command == JoinRandomRoomCommand && d.roomPlayers != map[] ==> pick in d.roomPlayers
    ensures Dispatch(d, s, msg, pick).Handled? ==> Valid(Dispatch(d, s, msg, pick).step.next)
  {
    var name := RoomNameOf(msg);
    if msg.command == CreateRoomCommand {
      if name.Some? && msg.playerId.Some? && |name.value| >= NameLength {
        CreateRoomKeepsValid(d, s, name.value, msg.playerId.value);
      }
    } else if msg.command == JoinRoomCommand {
      if name.Some? && msg.playerId.Some? && (name.value in d.roomPlayers || |name.value| >= NameLength) {
        JoinRoomKeepsValid(d, s, name.value, msg.playerId.value);
      }
    } else if msg.command == JoinRandomRoomCommand {
      if msg.data.Some? && msg.playerId.Some? {
        JoinRandomRoomKeepsValid(d, s, msg.playerId.value, pick);
      }
    }
  }
}
