// Doubly linked lists ended by null on both sides, threaded through the prev and next fields of
// nodes in memory.

module Lists {
  import opened Rings

  datatype Node<T> = Node(prev: Addr, next: Addr, data: T)

  ghost function AtOrNull(s: seq<Addr>, i: int): Addr { if 0 <= i < |s| then s[i] else 0 }

  ghost predicate NodeAt<T>(m: map<Addr, Node<T>>, s: seq<Addr>, i: nat)
    requires i < |s|
  {
    && s[i] != 0 && s[i] in m
    && m[s[i]].next == AtOrNull(s, i + 1) && m[s[i]].prev == AtOrNull(s, i - 1)
  }

  // The nodes s, in this order, form the list that starts at head.
  ghost predicate IsList<T>(m: map<Addr, Node<T>>, head: Addr, s: seq<Addr>) {
    && head == AtOrNull(s, 0) && Distinct(s)
    && forall i {:trigger NodeAt(m, s, i)} :: 0 <= i < |s| ==> NodeAt(m, s, i)
  }

  // Push x in front of the list: its links, and the old head's back link.
  function PushLinks<T>(m: map<Addr, Node<T>>, head: Addr, x: Addr): map<Addr, Node<T>>
    requires x in m && (head != 0 ==> head in m)
  {
    var n := m[x := m[x].(next := head, prev := 0)];
    if head == 0 || head !in n then n else n[head := n[head].(prev := x)]
  }

  // Take x out: its neighbours link to each other.
  function UnlinkNext<T>(m: map<Addr, Node<T>>, x: Addr): map<Addr, Node<T>>
    requires x in m && (m[x].prev != 0 ==> m[x].prev in m)
  {
    if m[x].prev != 0 then m[m[x].prev := m[m[x].prev].(next := m[x].next)] else m
  }

  function UnlinkPrev<T>(m: map<Addr, Node<T>>, x: Addr): map<Addr, Node<T>>
    requires x in m && (m[x].next != 0 ==> m[x].next in m)
  {
    if m[x].next != 0 then m[m[x].next := m[m[x].next].(prev := m[x].prev)] else m
  }

  ghost predicate SameData<T>(m: map<Addr, Node<T>>, n: map<Addr, Node<T>>) {
    m.Keys == n.Keys && forall x {:trigger n[x]} :: x in m ==> n[x].data == m[x].data
  }

  lemma ListFrame<T>(m: map<Addr, Node<T>>, n: map<Addr, Node<T>>, head: Addr, s: seq<Addr>)
    requires IsList(m, head, s)
    requires forall x :: x in s && x in m ==>
               x in n && n[x].next == m[x].next && n[x].prev == m[x].prev
    ensures IsList(n, head, s)
  {
    forall i {:trigger NodeAt(n, s, i)} | 0 <= i < |s| ensures NodeAt(n, s, i) {
      assert NodeAt(m, s, i);
    }
  }

  // Only the nodes of the list and x are touched.
  lemma PushList<T>(m: map<Addr, Node<T>>, head: Addr, s: seq<Addr>, x: Addr)
    requires IsList(m, head, s) && x in m && x != 0 && x !in s
    ensures head != 0 ==> head in m && head in s
    ensures var n := PushLinks(m, head, x);
            && IsList(n, x, [x] + s) && SameData(m, n)
            && forall y {:trigger n[y]} :: y in m && y !in s && y != x ==> n[y] == m[y]
  {
    if s != [] {
      assert NodeAt(m, s, 0);
    }
    var n, r := PushLinks(m, head, x), [x] + s;
    forall i {:trigger NodeAt(n, r, i)} | 0 <= i < |r| ensures NodeAt(n, r, i) {
      if i > 0 {
        assert NodeAt(m, s, i - 1) && r[i] == s[i - 1];
      }
    }
  }

  lemma Neighbours<T>(m: map<Addr, Node<T>>, head: Addr, s: seq<Addr>, k: nat)
    requires IsList(m, head, s) && k < |s|
    ensures var x := s[k];
            && x in m && x != 0
            && m[x].prev == AtOrNull(s, k - 1) && m[x].next == AtOrNull(s, k + 1)
            && (m[x].prev != 0 ==> m[x].prev in m && m[x].prev in s && m[x].prev != x)
            && (m[x].next != 0 ==> m[x].next in m && m[x].next in s && m[x].next != x && m[x].next != m[x].prev)
            && (x == head <==> k == 0)
  {
    assert NodeAt(m, s, k);
    if k > 0 {
      assert NodeAt(m, s, k - 1);
    }
    if k + 1 < |s| {
      assert NodeAt(m, s, k + 1);
    }
  }

  lemma UnlinkList<T>(m: map<Addr, Node<T>>, head: Addr, s: seq<Addr>, k: nat)
    requires IsList(m, head, s) && k < |s|
    requires s[k] in m && (m[s[k]].prev != 0 ==> m[s[k]].prev in m)
    requires s[k] in UnlinkNext(m, s[k]) &&
             (UnlinkNext(m, s[k])[s[k]].next != 0 ==> UnlinkNext(m, s[k])[s[k]].next in m)
    ensures var x := s[k];
            var n := UnlinkPrev(UnlinkNext(m, x), x);
            && IsList(n, if head == x then m[x].next else head, Removed(s, k)) && SameData(m, n)
            && forall y {:trigger n[y]} :: y in m && y !in Removed(s, k) ==> n[y] == m[y]
  {
    var x := s[k];
    Neighbours(m, head, s, k);
    var n, r := UnlinkPrev(UnlinkNext(m, x), x), Removed(s, k);
    forall i {:trigger NodeAt(n, r, i)} | 0 <= i < |r| ensures NodeAt(n, r, i) {
      var j := if i < k then i else i + 1;
      assert r[i] == s[j] && NodeAt(m, s, j);
    }
    RemovedMembers(s, k);
  }
}
