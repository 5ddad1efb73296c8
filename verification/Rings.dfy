// Circular doubly linked lists threaded through the fd and bk fields of chunks.

module Rings {
  type Addr = int
  type Links = map<Addr, Addr>

  ghost predicate Distinct(s: seq<Addr>) {
    forall i, j :: 0 <= i < j < |s| ==> s[i] != s[j]
  }

  ghost function Succ(s: seq<Addr>, i: nat): Addr
    requires i < |s|
  {
    if i + 1 < |s| then s[i + 1] else s[0]
  }

  ghost function Pred(s: seq<Addr>, i: nat): Addr
    requires i < |s|
  {
    if i > 0 then s[i - 1] else s[|s| - 1]
  }

  ghost predicate Forward(fd: Links, s: seq<Addr>) {
    forall i :: 0 <= i < |s| ==> s[i] in fd && fd[s[i]] == Succ(s, i)
  }

  ghost predicate Backward(bk: Links, s: seq<Addr>) {
    forall i :: 0 <= i < |s| ==> s[i] in bk && bk[s[i]] == Pred(s, i)
  }

  // The nodes s, in this order, form one ring.
  ghost predicate IsRing(fd: Links, bk: Links, s: seq<Addr>) {
    |s| > 0 && Distinct(s) && Forward(fd, s) && Backward(bk, s)
  }

  // The same ring told from its k-th node.
  function Rotated(s: seq<Addr>, k: nat): seq<Addr>
    requires k <= |s|
  {
    s[k..] + s[..k]
  }

  function Removed(s: seq<Addr>, k: nat): seq<Addr>
    requires k < |s|
  {
    s[..k] + s[k + 1..]
  }

  lemma RingFrame(fd: Links, bk: Links, fd': Links, bk': Links, s: seq<Addr>)
    requires IsRing(fd, bk, s)
    requires forall x :: x in s && x in fd ==> x in fd' && fd'[x] == fd[x]
    requires forall x :: x in s && x in bk ==> x in bk' && bk'[x] == bk[x]
    ensures IsRing(fd', bk', s)
  {
  }

  lemma RotateOnce(fd: Links, bk: Links, s: seq<Addr>)
    requires IsRing(fd, bk, s)
    ensures IsRing(fd, bk, s[1..] + [s[0]])
  {
    var r := s[1..] + [s[0]];
    forall i | 0 <= i < |r|
      ensures r[i] in fd && fd[r[i]] == Succ(r, i)
      ensures r[i] in bk && bk[r[i]] == Pred(r, i)
    {
      assert r[i] == if i + 1 < |s| then s[i + 1] else s[0];
    }
  }

  lemma RotatedStep(s: seq<Addr>, k: nat)
    requires 0 < k <= |s|
    ensures var r := Rotated(s, k - 1); |r| == |s| && Rotated(s, k) == r[1..] + [r[0]]
  {
  }

  lemma {:induction false} Rotate(fd: Links, bk: Links, s: seq<Addr>, k: nat)
    requires IsRing(fd, bk, s) && k <= |s|
    ensures IsRing(fd, bk, Rotated(s, k))
  {
    if k == 0 {
      assert Rotated(s, 0) == s;
    } else {
      Rotate(fd, bk, s, k - 1);
      RotatedStep(s, k);
      RotateOnce(fd, bk, Rotated(s, k - 1));
    }
  }

  lemma RotatedMembers(s: seq<Addr>, k: nat)
    requires k <= |s|
    ensures forall y :: y in Rotated(s, k) <==> y in s
  {
    assert s == s[..k] + s[k..];
  }

  // T->fd = F->bk = X; X->fd = F; X->bk = T.
  lemma InsertSecond(fd: Links, bk: Links, s: seq<Addr>, x: Addr)
    requires IsRing(fd, bk, s) && x !in s
    ensures IsRing(fd[s[0] := x][x := fd[s[0]]], bk[fd[s[0]] := x][x := s[0]], [s[0], x] + s[1..])
  {
    var t, f := s[0], fd[s[0]];
    assert f == Succ(s, 0);
    var fd', bk', r := fd[t := x][x := f], bk[f := x][x := t], [t, x] + s[1..];
    forall i | 0 <= i < |r| ensures r[i] == if i == 0 then t else if i == 1 then x else s[i - 1] {
    }
    assert forall y :: y in s ==> y != x;
    SecondForward(fd, s, x, f);
    SecondBackward(bk, s, x, f);
  }

  // The same, after any node of the ring.
  lemma RingInsert(fd: Links, bk: Links, s: seq<Addr>, k: nat, x: Addr)
    requires IsRing(fd, bk, s) && k < |s| && x !in s
    ensures var r := [s[k], x] + Rotated(s, k)[1..];
            && IsRing(fd[s[k] := x][x := fd[s[k]]], bk[fd[s[k]] := x][x := s[k]], r)
            && forall y :: y in r <==> y in s || y == x
    ensures fd[s[k]] in s
  {
    var r := Rotated(s, k);
    Rotate(fd, bk, s, k);
    RotatedMembers(s, k);
    InsertSecond(fd, bk, r, x);
    assert r == [r[0]] + r[1..];
  }

  lemma SecondForward(fd: Links, s: seq<Addr>, x: Addr, f: Addr)
    requires |s| > 0 && Distinct(s) && Forward(fd, s) && x !in s && f == Succ(s, 0)
    ensures Forward(fd[s[0] := x][x := f], [s[0], x] + s[1..])
    ensures Distinct([s[0], x] + s[1..])
  {
    var fd', r := fd[s[0] := x][x := f], [s[0], x] + s[1..];
    forall i | 2 <= i < |r| ensures r[i] in fd' && fd'[r[i]] == Succ(r, i) {
      assert r[i] == s[i - 1] && s[i - 1] in s && s[i - 1] != s[0];
    }
  }

  lemma SecondBackward(bk: Links, s: seq<Addr>, x: Addr, f: Addr)
    requires |s| > 0 && Distinct(s) && Backward(bk, s) && x !in s && f == Succ(s, 0)
    ensures Backward(bk[f := x][x := s[0]], [s[0], x] + s[1..])
  {
    var bk', r := bk[f := x][x := s[0]], [s[0], x] + s[1..];
    assert s[0] in s;
    forall i | 2 <= i < |r| ensures r[i] in bk' && bk'[r[i]] == Pred(r, i) {
      assert r[i] == s[i - 1] && s[i - 1] in s;
      if i > 2 {
        assert s[i - 1] != f;
      }
    }
  }

  // F->bk = B; B->fd = F for the neighbours of the first node.
  lemma RemoveFirst(fd: Links, bk: Links, s: seq<Addr>)
    requires IsRing(fd, bk, s) && |s| > 1
    ensures IsRing(fd[bk[s[0]] := fd[s[0]]], bk[fd[s[0]] := bk[s[0]]], s[1..])
  {
    var f, b := fd[s[0]], bk[s[0]];
    assert f == s[1] && b == s[|s| - 1];
    var fd', bk', r := fd[b := f], bk[f := b], s[1..];
    forall i | 0 <= i < |r|
      ensures r[i] in fd' && fd'[r[i]] == Succ(r, i)
      ensures r[i] in bk' && bk'[r[i]] == Pred(r, i)
    {
      assert r[i] == s[i + 1];
      assert r[i] == b <==> i == |r| - 1;
      assert r[i] == f <==> i == 0;
    }
  }

  lemma RingRemove(fd: Links, bk: Links, s: seq<Addr>, k: nat)
    requires IsRing(fd, bk, s) && k < |s| && |s| > 1
    ensures IsRing(fd[bk[s[k]] := fd[s[k]]], bk[fd[s[k]] := bk[s[k]]], Removed(s, k))
  {
    Rotate(fd, bk, s, k);
    RemoveFirst(fd, bk, Rotated(s, k));
    var r := Rotated(s, k)[1..];
    assert r == s[k + 1..] + s[..k];
    Rotate(fd[bk[s[k]] := fd[s[k]]], bk[fd[s[k]] := bk[s[k]]], r, |s| - 1 - k);
    assert Rotated(r, |s| - 1 - k) == Removed(s, k);
  }

  lemma RemovedMembers(s: seq<Addr>, k: nat)
    requires k < |s| && Distinct(s)
    ensures forall y :: y in Removed(s, k) <==> y in s && y != s[k]
  {
    forall y | y in s && y != s[k] ensures y in Removed(s, k) {
      var i :| 0 <= i < |s| && s[i] == y;
      assert y == Removed(s, k)[if i < k then i else i - 1];
    }
  }

  // A node alone in its ring is its own neighbour, and only such a node is.
  lemma RingAlone(fd: Links, bk: Links, s: seq<Addr>, k: nat)
    requires IsRing(fd, bk, s) && k < |s|
    ensures bk[s[k]] == s[k] <==> |s| == 1
    ensures fd[s[k]] == bk[s[k]] <==> |s| <= 2
    ensures fd[s[k]] in s && bk[s[k]] in s
  {
  }
}
