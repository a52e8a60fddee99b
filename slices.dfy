/** The slice helpers `playerSessions`, `index` and `filter`: each is a
    specification function over sequences and a loop method proved to
    compute it. */
module Slices {
  import opened Messages

  /** The sessions of `ps`, one per player, in player order. */
  function Sessions(ps: seq<Player>): (r: seq<Session>)
    ensures |r| == |ps|
    ensures forall i :: 0 <= i < |ps| ==> r[i] == ps[i].session
  {
    if ps == [] then [] else [ps[0].session] + Sessions(ps[1..])
  }

  /** The first position of `t` in `vs`, or -1 when `t` does not occur. */
  function IndexOf(vs: seq<Session>, t: Session): (i: int)
    ensures -1 <= i < |vs|
    ensures i == -1 <==> t !in vs
    ensures 0 <= i ==> vs[i] == t && t !in vs[..i]
  {
    if vs == [] then -1
    else if vs[0] == t then 0
    else
      var j := IndexOf(vs[1..], t);
      if j == -1 then -1
      else
        assert vs[..j + 1] == [vs[0]] + vs[1..][..j];
        j + 1
  }

  /** The elements of `vs` that satisfy `keep`, in their original order. */
  function Filtered(vs: seq<Session>, keep: Session -> bool): (r: seq<Session>)
    ensures |r| <= |vs|
    ensures forall x :: x in r <==> x in vs && keep(x)
  {
    if vs == [] then []
    else (if keep(vs[0]) then [vs[0]] else []) + Filtered(vs[1..], keep)
  }

  /** Filtering distributes over concatenation, so it keeps relative order. */
  lemma {:induction false} FilteredConcat(a: seq<Session>, b: seq<Session>, keep: Session -> bool)
    ensures Filtered(a + b, keep) == Filtered(a, keep) + Filtered(b, keep)
  {
    if a == [] {
      assert a + b == b;
    } else {
      assert (a + b)[1..] == a[1..] + b;
      FilteredConcat(a[1..], b, keep);
    }
  }

  /** A sequence all of whose elements are kept is its own filtering. */
  lemma {:induction false} FilteredKeepsAll(a: seq<Session>, keep: Session -> bool)
    requires forall x :: x in a ==> keep(x)
    ensures Filtered(a, keep) == a
  {
    if a != [] {
      assert forall x :: x in a[1..] ==> x in a;
      FilteredKeepsAll(a[1..], keep);
    }
  }

  /** Filtering out one element that every other element survives leaves
      the elements before it followed by the elements after it. */
  lemma FilteredDropsOne(before: seq<Session>, x: Session, after: seq<Session>, keep: Session -> bool)
    requires !keep(x)
    requires forall y :: y in before ==> keep(y)
    requires forall y :: y in after ==> keep(y)
    ensures Filtered(before + [x] + after, keep) == before + after
  {
    var dropped := Filtered([x], keep);
    assert dropped == [] by {
      assert [x][1..] == [];
    }
    var head := Filtered(before + [x], keep);
    assert head == before by {
      FilteredConcat(before, [x], keep);
      FilteredKeepsAll(before, keep);
    }
    FilteredConcat(before + [x], after, keep);
    FilteredKeepsAll(after, keep);
  }

  /** Removing the player at `i` removes exactly the session at `i`. */
  lemma {:induction false} SessionsRemoveAt(ps: seq<Player>, i: nat)
    requires i < |ps|
    ensures Sessions(ps[..i] + ps[i + 1..]) == Sessions(ps)[..i] + Sessions(ps)[i + 1..]
  {
    var rest := ps[..i] + ps[i + 1..];
    var all := Sessions(ps);
    forall k | 0 <= k < |rest|
      ensures Sessions(rest)[k] == (all[..i] + all[i + 1..])[k]
    {
      if k < i {
        assert rest[k] == ps[k];
      } else {
        assert rest[k] == ps[k + 1];
      }
    }
  }

  /** Appending a player appends its session. */
  lemma {:induction false} SessionsAppend(ps: seq<Player>, p: Player)
    ensures Sessions(ps + [p]) == Sessions(ps) + [p.session]
  {
  }

  /** playerSessions: collects the session of every player, in order. */
  method PlayerSessions(ps: seq<Player>) returns (r: seq<Session>)
    ensures r == Sessions(ps)
  {
    r := [];
    for i := 0 to |ps|
      invariant |r| == i
      invariant forall j :: 0 <= j < i ==> r[j] == ps[j].session
    {
      r := r + [ps[i].session];
    }
  }

  /** index: scans `vs` for the first element equal to `t`. */
  method Index(vs: seq<Session>, t: Session) returns (i: int)
    ensures i == IndexOf(vs, t)
  {
    i := 0;
    while i < |vs|
      invariant 0 <= i <= |vs|
      invariant t !in vs[..i]
    {
      if vs[i] == t {
        return;
      }
      assert vs[..i + 1] == vs[..i] + [vs[i]];
      i := i + 1;
    }
    assert vs[..i] == vs;
    i := -1;
  }

  /** filter: keeps the elements of `vs` that satisfy `keep`, in order. */
  method Filter(vs: seq<Session>, keep: Session -> bool) returns (r: seq<Session>)
    ensures r == Filtered(vs, keep)
  {
    r := [];
    for i := 0 to |vs|
      invariant r == Filtered(vs[..i], keep)
    {
      assert vs[..i + 1] == vs[..i] + [vs[i]];
      FilteredConcat(vs[..i], [vs[i]], keep);
      assert Filtered([vs[i]], keep) == if keep(vs[i]) then [vs[i]] else [] by {
        assert [vs[i]][1..] == [];
      }
      if keep(vs[i]) {
        r := r + [vs[i]];
      }
    }
    assert vs[..|vs|] == vs;
  }
}
