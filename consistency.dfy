/** When the source keeps the membership invariant `Consistent`: every
    disconnect keeps it, and so does every create or join by a session that
    is not in a room yet, as long as no existing room is replaced. */
module Consistency {
  import opened Messages
  import opened Slices
  import opened Coordinator
  import opened Properties

  /** `next` is `d` with a new room `name` whose only player is `s`, and
      `s`, which was in no room, bound to it. */
  ghost predicate IsCreate(d: Directory, next: Directory, s: Session, name: string)
  {
    && name !in d.roomPlayers && name in next.roomPlayers && s !in d.sessionRoom
    && Members(next.roomPlayers[name]) == [s]
    && next.roomPlayers == d.roomPlayers[name := next.roomPlayers[name]]
    && next.sessionRoom == d.sessionRoom[s := name]
  }

  lemma CreateKeepsBindings(d: Directory, next: Directory, s: Session, name: string)
    requires IsCreate(d, next, s, name) && BindingsAreMembers(d)
    ensures BindingsAreMembers(next)
  {
    forall t | t in next.sessionRoom
      ensures next.sessionRoom[t] in next.roomPlayers && t in Members(next.roomPlayers[next.sessionRoom[t]])
    {
      if t != s {
        assert d.sessionRoom[t] in d.roomPlayers;
      }
    }
  }

  lemma CreateKeepsMembersBound(d: Directory, next: Directory, s: Session, name: string)
    requires IsCreate(d, next, s, name) && MembersAreBound(d)
    ensures MembersAreBound(next)
  {
    forall n, x | n in next.roomPlayers && x in Members(next.roomPlayers[n])
      ensures x in next.sessionRoom && next.sessionRoom[x] == n
    {
      if n != name {
        assert x in Members(d.roomPlayers[n]);
      }
    }
  }

  lemma CreateKeepsNoRepeats(d: Directory, next: Directory, s: Session, name: string)
    requires IsCreate(d, next, s, name) && NoRepeats(d)
    ensures NoRepeats(next)
  {
    forall n | n in next.roomPlayers ensures Distinct(Members(next.roomPlayers[n])) {
      if n != name {
        assert Distinct(Members(d.roomPlayers[n]));
      }
    }
  }

  /** createRoom under a fresh name, by a session in no room, is a create. */
  lemma CreateRoomIsCreate(d: Directory, s: Session, roomName: string, playerId: string)
    requires |roomName| >= NameLength
    requires roomName[..NameLength] !in d.roomPlayers && s !in d.sessionRoom
    ensures IsCreate(d, CreateRoom(d, s, roomName, playerId).next, s, roomName[..NameLength])
  {
    var name := roomName[..NameLength];
    assert Members(CreateRoom(d, s, roomName, playerId).next.roomPlayers[name]) == [s];
  }

  lemma CreateRoomKeepsConsistent(d: Directory, s: Session, roomName: string, playerId: string)
    requires Consistent(d) && |roomName| >= NameLength
    requires roomName[..NameLength] !in d.roomPlayers && s !in d.sessionRoom
    ensures Consistent(CreateRoom(d, s, roomName, playerId).next)
  {
    var name := roomName[..NameLength];
    var next := CreateRoom(d, s, roomName, playerId).next;
    CreateRoomKeepsValid(d, s, roomName, playerId);
    CreateRoomIsCreate(d, s, roomName, playerId);
    CreateKeepsBindings(d, next, s, name);
    CreateKeepsMembersBound(d, next, s, name);
    CreateKeepsNoRepeats(d, next, s, name);
  }

  /** `next` is `d` with session `s` appended to room `name`, of which it
      was not a player, and bound to it. */
  ghost predicate IsAppend(d: Directory, next: Directory, s: Session, name: string)
  {
    && name in d.roomPlayers && name in next.roomPlayers
    && next.roomPlayers.Keys == d.roomPlayers.Keys
    && Members(next.roomPlayers[name]) == Members(d.roomPlayers[name]) + [s]
    && (forall n :: n in d.roomPlayers && n != name ==> next.roomPlayers[n] == d.roomPlayers[n])
    && next.sessionRoom == d.sessionRoom[s := name]
  }

  lemma AppendKeepsBindings(d: Directory, next: Directory, s: Session, name: string)
    requires IsAppend(d, next, s, name) && BindingsAreMembers(d)
    ensures BindingsAreMembers(next)
  {
    forall t | t in next.sessionRoom
      ensures next.sessionRoom[t] in next.roomPlayers && t in Members(next.roomPlayers[next.sessionRoom[t]])
    {
      if t != s {
        assert d.sessionRoom[t] in d.roomPlayers;
      }
    }
  }

  lemma AppendKeepsMembersBound(d: Directory, next: Directory, s: Session, name: string)
    requires IsAppend(d, next, s, name) && MembersAreBound(d) && s !in d.sessionRoom
    ensures MembersAreBound(next)
  {
    forall n, x | n in next.roomPlayers && x in Members(next.roomPlayers[n])
      ensures x in next.sessionRoom && next.sessionRoom[x] == n
    {
      if n != name {
        assert x in Members(d.roomPlayers[n]);
      } else if x != s {
        assert x in Members(d.roomPlayers[name]);
      }
    }
  }

  lemma AppendKeepsNoRepeats(d: Directory, next: Directory, s: Session, name: string)
    requires IsAppend(d, next, s, name) && NoRepeats(d) && s !in Members(d.roomPlayers[name])
    ensures NoRepeats(next)
  {
    forall n | n in next.roomPlayers ensures Distinct(Members(next.roomPlayers[n])) {
      assert Distinct(Members(d.roomPlayers[n]));
      if n == name {
        var m := Members(d.roomPlayers[name]);
        var m' := m + [s];
        forall i, j | 0 <= i < j < |m'| ensures m'[i] != m'[j] {
          if j == |m| {
            assert m'[i] == m[i];
          }
        }
      }
    }
  }

  /** An append of a session that was in no room keeps Consistent. */
  lemma AppendKeepsConsistent(d: Directory, next: Directory, s: Session, name: string)
    requires Consistent(d) && Valid(next) && IsAppend(d, next, s, name) && s !in d.sessionRoom
    ensures Consistent(next)
  {
    UnboundIsNoMember(d, s, name);
    AppendKeepsBindings(d, next, s, name);
    AppendKeepsMembersBound(d, next, s, name);
    AppendKeepsNoRepeats(d, next, s, name);
  }

  lemma UnboundIsNoMember(d: Directory, s: Session, name: string)
    requires MembersAreBound(d) && s !in d.sessionRoom && name in d.roomPlayers
    ensures s !in Members(d.roomPlayers[name])
  {
  }

  /** joinRoom on an existing room is an append. */
  lemma JoinRoomIsAppend(d: Directory, s: Session, roomName: string, playerId: string)
    requires roomName in d.roomPlayers
    ensures IsAppend(d, JoinRoom(d, s, roomName, playerId).next, s, roomName)
  {
    JoinRoomAppends(d, s, roomName, playerId);
  }

  lemma JoinRoomKeepsConsistent(d: Directory, s: Session, roomName: string, playerId: string)
    requires Consistent(d) && s !in d.sessionRoom
    requires roomName in d.roomPlayers || (|roomName| >= NameLength && roomName[..NameLength] !in d.roomPlayers)
    ensures Consistent(JoinRoom(d, s, roomName, playerId).next)
  {
    if roomName in d.roomPlayers {
      JoinRoomKeepsValid(d, s, roomName, playerId);
      JoinRoomIsAppend(d, s, roomName, playerId);
      AppendKeepsConsistent(d, JoinRoom(d, s, roomName, playerId).next, s, roomName);
    } else {
      CreateRoomKeepsConsistent(d, s, roomName, playerId);
    }
  }

  lemma JoinRandomRoomKeepsConsistent(d: Directory, s: Session, playerId: string, pick: string)
    requires Consistent(d) && s !in d.sessionRoom
    requires d.roomPlayers != map[] ==> pick in d.roomPlayers
    ensures Consistent(JoinRandomRoom(d, s, playerId, pick).next)
  {
    if d.roomPlayers == map[] {
      CreateRoomKeepsConsistent(d, s, FallbackRoom, playerId);
    } else {
      JoinRoomKeepsConsistent(d, s, pick, playerId);
    }
  }

  /** `next` is `d` with session `s` taken out of room `name`: the room
      keeps exactly its other players, without repeats, or is deleted when
      `s` was its only player; `s` is unbound; other rooms are unchanged. */
  ghost predicate IsRemoval(d: Directory, next: Directory, s: Session, name: string)
  {
    && name in d.roomPlayers && s in Members(d.roomPlayers[name])
    && next.sessionRoom == d.sessionRoom - {s}
    && next.roomPlayers.Keys <= d.roomPlayers.Keys
    && (forall n :: n in d.roomPlayers && n != name ==> n in next.roomPlayers && next.roomPlayers[n] == d.roomPlayers[n])
    && (name !in next.roomPlayers ==> forall x :: x in Members(d.roomPlayers[name]) ==> x == s)
    && (name in next.roomPlayers ==>
          && Distinct(Members(next.roomPlayers[name]))
          && forall x :: x in Members(next.roomPlayers[name]) ==> x in Members(d.roomPlayers[name]) && x != s)
  }

  /** ... and every other player of room `name` is still in it. */
  ghost predicate KeepsOthers(d: Directory, next: Directory, s: Session, name: string)
    requires name in d.roomPlayers
  {
    name in next.roomPlayers ==>
      forall x :: x in Members(d.roomPlayers[name]) && x != s ==> x in Members(next.roomPlayers[name])
  }

  lemma RemovalKeepsBindings(d: Directory, next: Directory, s: Session, name: string)
    requires IsRemoval(d, next, s, name) && KeepsOthers(d, next, s, name) && BindingsAreMembers(d)
    ensures BindingsAreMembers(next)
  {
    forall t | t in next.sessionRoom
      ensures next.sessionRoom[t] in next.roomPlayers && t in Members(next.roomPlayers[next.sessionRoom[t]])
    {
      var n := d.sessionRoom[t];
      assert n in d.roomPlayers && t in Members(d.roomPlayers[n]);
    }
  }

  lemma RemovalKeepsMembersBound(d: Directory, next: Directory, s: Session, name: string)
    requires IsRemoval(d, next, s, name) && MembersAreBound(d)
    ensures MembersAreBound(next)
  {
    RemovalKeepsRoomBound(d, next, s, name);
    RemovalKeepsOtherRoomsBound(d, next, s, name);
  }

  lemma RemovalKeepsRoomBound(d: Directory, next: Directory, s: Session, name: string)
    requires IsRemoval(d, next, s, name) && MembersAreBound(d)
    ensures name in next.roomPlayers ==>
      forall x :: x in Members(next.roomPlayers[name]) ==> x in next.sessionRoom && next.sessionRoom[x] == name
  {
    assert d.sessionRoom[s] == name;
    if name in next.roomPlayers {
      forall x | x in Members(next.roomPlayers[name]) ensures x in next.sessionRoom && next.sessionRoom[x] == name {
        assert x in Members(d.roomPlayers[name]) && x != s;
      }
    }
  }

  lemma RemovalKeepsOtherRoomsBound(d: Directory, next: Directory, s: Session, name: string)
    requires IsRemoval(d, next, s, name) && MembersAreBound(d)
    ensures forall n, x :: n in next.roomPlayers && n != name && x in Members(next.roomPlayers[n]) ==>
      x in next.sessionRoom && next.sessionRoom[x] == n
  {
    assert d.sessionRoom[s] == name;
    forall n, x | n in next.roomPlayers && n != name && x in Members(next.roomPlayers[n])
      ensures x in next.sessionRoom && next.sessionRoom[x] == n
    {
      assert x in Members(d.roomPlayers[n]);
    }
  }

  lemma RemovalKeepsNoRepeats(d: Directory, next: Directory, s: Session, name: string)
    requires IsRemoval(d, next, s, name) && NoRepeats(d)
    ensures NoRepeats(next)
  {
    forall n | n in next.roomPlayers ensures Distinct(Members(next.roomPlayers[n])) {
      if n != name {
        assert Distinct(Members(d.roomPlayers[n]));
      }
    }
  }

  /** A disconnect that finds its session is a removal in the above sense. */
  lemma LeaveIsRemoval(d: Directory, s: Session)
    requires Consistent(d) && s in Members(BoundRoom(d, s))
    ensures IsRemoval(d, Leave(d, s).next, s, BoundName(d, s))
    ensures KeepsOthers(d, Leave(d, s).next, s, BoundName(d, s))
  {
    LeaveRemovesLeaver(d, s);
    var name := BoundName(d, s);
    var next := Leave(d, s).next;
    var m := Members(d.roomPlayers[name]);
    var i := IndexOf(m, s);
    assert Distinct(m);
    RemoveAtDistinct(m, i);
    forall x ensures x in m[..i] + m[i + 1..] <==> x in m && x != s {
      RemoveAtMembers(m, i, x);
    }
    if name !in next.roomPlayers {
      forall x | x in m ensures x == s {
        assert m == [m[0]];
      }
    }
  }

  /** Every disconnect keeps Consistent. */
  lemma LeaveKeepsConsistent(d: Directory, s: Session)
    requires Consistent(d)
    ensures Consistent(Leave(d, s).next)
  {
    LeaveKeepsValid(d, s);
    if s in Members(BoundRoom(d, s)) {
      var name := BoundName(d, s);
      var next := Leave(d, s).next;
      LeaveIsRemoval(d, s);
      RemovalKeepsBindings(d, next, s, name);
      RemovalKeepsMembersBound(d, next, s, name);
      RemovalKeepsNoRepeats(d, next, s, name);
    }
  }
}
