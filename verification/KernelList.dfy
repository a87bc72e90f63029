/**
 Intrusive circular doubly linked lists (`struct list_head`).

 A list is a ring of nodes, one of which the caller treats as the head. The abstract value of a
 list is the sequence of its entries, from `head.next` on, without the head. Every operation takes
 that sequence as a ghost argument and states the sequence the list holds afterwards. The `modifies`
 clauses name the two or three nodes an operation really writes.
 */
module KernelList {
  import opened Basics

  class ListHead {
    var next: ListHead
    var prev: ListHead

    constructor ()
      ensures IsList(this, [])
    {
      next := this;
      prev := this;
    }
  }

  // ----- Abstraction -----

  /** Neighbours in `p` point at each other. */
  ghost predicate Chain(p: seq<ListHead>)
    reads p
  {
    && (forall i {:trigger p[i].next} :: 0 <= i < |p| - 1 ==> p[i].next == p[i + 1])
    && (forall i {:trigger p[i].prev} :: 0 < i < |p| ==> p[i].prev == p[i - 1])
  }

  /** The nodes of `r`, in this order, form one closed ring. */
  ghost predicate IsRing(r: seq<ListHead>)
    reads r
  {
    r != [] && Distinct(r) && Chain(r) && r[|r| - 1].next == r[0] && r[0].prev == r[|r| - 1]
  }

  /** `head` heads a well-formed list whose entries are `s`. */
  ghost predicate IsList(head: ListHead, s: seq<ListHead>)
    reads [head] + s
  {
    IsRing([head] + s)
  }

  /** A ring can be read from any of its nodes. */
  lemma RingFrom(r: seq<ListHead>, k: nat)
    requires IsRing(r) && k <= |r|
    ensures IsRing(r[k..] + r[..k])
  {
    if k < |r| {
      assert (r[k..] + r[..k])[0] == r[k];
    } else {
      assert r[k..] + r[..k] == r;
    }
  }

  /** The heap determines the entries: a head heads at most one sequence. */
  lemma EntriesUnique(head: ListHead, s: seq<ListHead>, t: seq<ListHead>)
    requires IsList(head, s) && IsList(head, t)
    ensures s == t
  {
    var p, q := [head] + s, [head] + t;
    forall n: nat
      ensures n < |p| <==> n < |q|
      ensures n < |p| ==> p[n] == q[n]
    {
      if n < |p| { SameWalk(p, q, n); }
      if n < |q| { SameWalk(q, p, n); }
    }
    assert p == q;
    assert s == p[1..] && t == q[1..];
  }

  lemma {:induction false} SameWalk(p: seq<ListHead>, q: seq<ListHead>, n: nat)
    requires IsRing(p) && IsRing(q) && p[0] == q[0] && n < |p|
    ensures n < |q| && p[n] == q[n]
  {
    if n > 0 {
      SameWalk(p, q, n - 1);
      assert p[n - 1].next == p[n];
    }
  }

  lemma ChainParts(p: seq<ListHead>, q: seq<ListHead>)
    requires Chain(p + q)
    ensures Chain(p) && Chain(q)
    ensures p != [] && q != [] ==> p[|p| - 1].next == q[0] && q[0].prev == p[|p| - 1]
  {
    assert forall i :: 0 <= i < |p| ==> (p + q)[i] == p[i];
    assert forall i :: 0 <= i < |q| ==> (p + q)[|p| + i] == q[i];
  }

  lemma ChainJoin(p: seq<ListHead>, q: seq<ListHead>)
    requires Chain(p) && Chain(q) && p != [] && q != []
    requires p[|p| - 1].next == q[0] && q[0].prev == p[|p| - 1]
    ensures Chain(p + q)
  {
    assert forall i :: 0 <= i < |p| ==> (p + q)[i] == p[i];
    assert forall i :: 0 <= i < |q| ==> (p + q)[|p| + i] == q[i];
  }

  lemma RingSwap(a: seq<ListHead>, b: seq<ListHead>)
    requires IsRing(a + b)
    ensures IsRing(b + a)
  {
    RingFrom(a + b, |a|);
    assert (a + b)[|a|..] == b && (a + b)[..|a|] == a;
  }

  // ----- Queries -----

  predicate ListEmpty(head: ListHead)
    reads head
  {
    head.next == head
  }

  predicate ListEmptyCareful(head: ListHead)
    reads head
  {
    head.next == head && head.next == head.prev
  }

  predicate ListIsSingular(head: ListHead)
    reads head
  {
    !ListEmpty(head) && head.next == head.prev
  }

  predicate ListIsLast(list: ListHead, head: ListHead)
    reads list
  {
    list.next == head
  }

  /** On a well-formed list the pointer tests decide the questions their names ask. */
  lemma QueriesDecide(head: ListHead, s: seq<ListHead>)
    requires IsList(head, s)
    ensures ListEmpty(head) <==> s == []
    ensures ListEmptyCareful(head) <==> s == []
    ensures ListIsSingular(head) <==> |s| == 1
    ensures forall i :: 0 <= i < |s| ==> (ListIsLast(s[i], head) <==> i == |s| - 1)
  {
    var r := [head] + s;
    assert head.next == (if s == [] then head else r[1]);
    forall i | 0 <= i < |s|
      ensures ListIsLast(s[i], head) <==> i == |s| - 1
    {
      assert s[i] == r[i + 1] && r[0] == head;
      if i < |s| - 1 {
        assert r[i + 1].next == r[i + 2];
      }
    }
    if |s| > 1 {
      assert r[1] != r[|s|];
    }
  }

  // ----- Writing pointers at the seam of a ring -----

  // __list_add between the last and the first node of the ring
  method ListAddBetween(n: ListHead, prev: ListHead, next: ListHead, ghost r: seq<ListHead>)
    requires IsRing(r) && n !in r && prev == r[|r| - 1] && next == r[0]
    modifies n, prev`next, next`prev
    ensures IsRing(r + [n])
  {
    next.prev := n;
    n.next := next;
    n.prev := prev;
    prev.next := n;
  }

  // __list_del around the part `m` of the ring, which stays chained but is no longer reachable
  method ListUnlink(prev: ListHead, next: ListHead, ghost r: seq<ListHead>, ghost m: seq<ListHead>)
    requires IsRing(r + m) && r != [] && prev == r[|r| - 1] && next == r[0]
    modifies prev`next, next`prev
    ensures IsRing(r) && Chain(m)
  {
    assert forall i :: 0 <= i < |r| ==> (r + m)[i] == r[i];
    assert forall i :: 0 <= i < |m| ==> (r + m)[|r| + i] == m[i];
    next.prev := prev;
    prev.next := next;
  }

  // __list_splice of the entries of `list` between the last and the first node of the ring
  method ListSpliceBetween(list: ListHead, prev: ListHead, next: ListHead,
                           ghost t: seq<ListHead>, ghost r: seq<ListHead>)
    requires IsRing(r) && IsList(list, t) && t != [] && Disjoint(r, [list] + t)
    requires prev == r[|r| - 1] && next == r[0]
    modifies list.next`prev, list.prev`next, prev`next, next`prev
    ensures IsRing(r + t)
  {
    ChainParts([list], t);
    DistinctParts([list], t);
    DistinctParts(r, t);
    assert Disjoint(r, t) by { assert forall i :: 0 <= i < |t| ==> ([list] + t)[i + 1] == t[i]; }
    assert list.next == t[0] && list.prev == t[|t| - 1];
    assert prev in r && next in r && t[0] in t && t[|t| - 1] in t;
    var first := list.next;
    var last := list.prev;
    first.prev := prev;
    prev.next := first;
    last.next := next;
    next.prev := last;
    assert Chain(r) && Chain(t);
    ChainJoin(r, t);
  }

  // ----- The operations of the header -----

  /** A list seen from the position behind its entry `k - 1`. */
  lemma Reseat(head: ListHead, s: seq<ListHead>, k: nat)
    requires k <= |s|
    ensures IsList(head, s) <==> IsRing(s[k..] + [head] + s[..k])
  {
    var a, b := [head] + s[..k], s[k..];
    assert [head] + s == a + b;
    assert s[k..] + [head] + s[..k] == b + a;
    if IsRing(a + b) { RingSwap(a, b); }
    if IsRing(b + a) { RingSwap(b, a); }
  }

  method InitListHead(list: ListHead)
    modifies list
    ensures IsList(list, [])
  {
    list.next := list;
    list.prev := list;
  }

  method ListAdd(n: ListHead, head: ListHead, ghost s: seq<ListHead>)
    requires IsList(head, s) && n !in [head] + s
    modifies n, head`next, head.next`prev
    ensures IsList(head, [n] + s)
  {
    Reseat(head, s, 0);
    ghost var r := s[0..] + [head] + s[..0];
    assert head.next == r[0];
    ListAddBetween(n, head, head.next, r);
    Reseat(head, [n] + s, 1);
    assert r + [n] == ([n] + s)[1..] + [head] + ([n] + s)[..1];
  }

  method ListAddTail(n: ListHead, head: ListHead, ghost s: seq<ListHead>)
    requires IsList(head, s) && n !in [head] + s
    modifies n, head`prev, head.prev`next
    ensures IsList(head, s + [n])
  {
    ListAddBetween(n, head.prev, head, [head] + s);
    assert [head] + s + [n] == [head] + (s + [n]);
  }

  // __list_del_entry: the entry keeps its own, now stale, pointers
  method ListDelEntry(entry: ListHead, ghost head: ListHead, ghost s: seq<ListHead>, ghost k: nat)
    requires IsList(head, s) && k < |s| && entry == s[k]
    modifies entry.prev`next, entry.next`prev
    ensures IsList(head, Without(s, k))
    ensures entry !in [head] + Without(s, k)
    ensures head.next == if k == 0 then old(entry.next) else old(head.next)
    ensures head.prev == if k == |s| - 1 then old(entry.prev) else old(head.prev)
  {
    assert s[0] == ([head] + s)[1] && s[k] == ([head] + s)[k + 1];
    assert k > 0 ==> entry.prev == ([head] + s)[k];
    assert k < |s| - 1 ==> entry.next == ([head] + s)[k + 2];
    ghost var r := s[k + 1..] + [head] + s[..k];
    Reseat(head, s, k + 1);
    assert s[k + 1..] + [head] + s[..k + 1] == r + [entry];
    ChainParts(r, [entry]);
    DistinctParts(r, [entry]);
    assert [entry][0] == entry;
    assert entry.next == r[0] && entry.prev == r[|r| - 1];
    ListUnlink(entry.prev, entry.next, r, [entry]);
    assert entry in [entry];
    Reseat(head, Without(s, k), k);
    assert forall x :: x in [head] + Without(s, k) ==> x in r;
    assert r == Without(s, k)[k..] + [head] + Without(s, k)[..k];
  }

  // LIST_POISON1 and LIST_POISON2 are two nodes that no list contains.
  method ListDel(entry: ListHead, poison1: ListHead, poison2: ListHead,
                 ghost head: ListHead, ghost s: seq<ListHead>, ghost k: nat)
    requires IsList(head, s) && k < |s| && entry == s[k]
    modifies entry, entry.prev`next, entry.next`prev
    ensures IsList(head, Without(s, k))
    ensures entry.next == poison1 && entry.prev == poison2
  {
    ListDelEntry(entry, head, s, k);
    entry.next := poison1;
    entry.prev := poison2;
  }

  method ListDelInit(entry: ListHead, ghost head: ListHead, ghost s: seq<ListHead>, ghost k: nat)
    requires IsList(head, s) && k < |s| && entry == s[k]
    modifies entry, entry.prev`next, entry.next`prev
    ensures IsList(head, Without(s, k))
    ensures IsList(entry, [])
  {
    ListDelEntry(entry, head, s, k);
    InitListHead(entry);
  }

  /** Where the neighbours of an entry live. */
  lemma NeighboursInList(head: ListHead, s: seq<ListHead>, k: nat)
    requires IsList(head, s) && k <= |s|
    ensures k < |s| ==> s[k].next in [head] + s && s[k].prev in [head] + s
    ensures head.next in [head] + s && head.prev in [head] + s
  {
    var r := [head] + s;
    assert head.next == if s == [] then r[0] else r[1];
    if k == |s| { return; }
    assert s[k] == r[k + 1] && r[k + 1].prev == r[k];
    assert s[k].next == if k + 2 < |r| then r[k + 2] else r[0];
  }

  // __list_del_entry next to a bystander list
  method ListDelEntryBeside(entry: ListHead, ghost src: ListHead, ghost s: seq<ListHead>, ghost k: nat,
                            ghost head: ListHead, ghost t: seq<ListHead>)
    requires IsList(src, s) && k < |s| && entry == s[k]
    requires head != src ==> IsList(head, t) && Disjoint([src] + s, [head] + t)
    modifies entry.prev`next, entry.next`prev
    ensures IsList(src, Without(s, k)) && entry !in [src] + Without(s, k)
    ensures head != src ==> IsList(head, t) && head.next == old(head.next) && head.prev == old(head.prev)
    ensures src.next == if k == 0 then old(entry.next) else old(src.next)
    ensures src.prev == if k == |s| - 1 then old(entry.prev) else old(src.prev)
  {
    NeighboursInList(src, s, k);
    assert head in [head] + t;
    ListDelEntry(entry, src, s, k);
  }

  // the same next to a bystander ring
  method ListAddBeside(n: ListHead, head: ListHead, ghost s: seq<ListHead>, ghost other: seq<ListHead>)
    requires IsList(head, s) && n !in [head] + s
    requires other != [] ==> IsRing(other) && n !in other && head !in other && head.next !in other
    modifies n, head`next, head.next`prev
    ensures IsList(head, [n] + s)
    ensures other != [] ==> IsRing(other)
  {
    ListAdd(n, head, s);
  }

  // the same next to a bystander ring
  method ListAddTailBeside(n: ListHead, head: ListHead, ghost s: seq<ListHead>, ghost other: seq<ListHead>)
    requires IsList(head, s) && n !in [head] + s
    requires other != [] ==> IsRing(other) && n !in other && head !in other && head.prev !in other
    modifies n, head`prev, head.prev`next
    ensures IsList(head, s + [n])
    ensures other != [] ==> IsRing(other)
  {
    ListAddTail(n, head, s);
  }

  // `src` heads the list that `list` is in; `t` is what `head` holds once `list` is out of it
  method ListMove(list: ListHead, head: ListHead,
                  ghost src: ListHead, ghost s: seq<ListHead>, ghost k: nat, ghost t: seq<ListHead>)
    requires IsList(src, s) && k < |s| && list == s[k]
    requires if head == src then t == Without(s, k) else IsList(head, t) && Disjoint([src] + s, [head] + t)
    modifies list, list.prev`next, list.next`prev, head`next, head.next`prev
    ensures IsList(head, [list] + t)
    ensures head != src ==> IsList(src, Without(s, k))
  {
    MovedNodeApart(list, head, src, s, k, t);
    ListDelEntryBeside(list, src, s, k, head, t);
    NeighboursInList(head, t, 0);
    ListAddBeside(list, head, t, if head == src then [] else [src] + Without(s, k));
  }

  method ListMoveTail(list: ListHead, head: ListHead,
                      ghost src: ListHead, ghost s: seq<ListHead>, ghost k: nat, ghost t: seq<ListHead>)
    requires IsList(src, s) && k < |s| && list == s[k]
    requires if head == src then t == Without(s, k) else IsList(head, t) && Disjoint([src] + s, [head] + t)
    modifies list, list.prev`next, list.next`prev, head`prev, head.prev`next
    ensures IsList(head, t + [list])
    ensures head != src ==> IsList(src, Without(s, k))
  {
    MovedNodeApart(list, head, src, s, k, t);
    ListDelEntryBeside(list, src, s, k, head, t);
    NeighboursInList(head, t, 0);
    ListAddTailBeside(list, head, t, if head == src then [] else [src] + Without(s, k));
  }

  lemma MovedNodeApart(list: ListHead, head: ListHead, src: ListHead, s: seq<ListHead>, k: nat, t: seq<ListHead>)
    requires Distinct([src] + s) && k < |s| && list == s[k]
    requires if head == src then t == Without(s, k) else Disjoint([src] + s, [head] + t)
    ensures list !in [head] + t
    ensures forall x :: x in [src] + Without(s, k) ==> x != list
    ensures head != src ==> forall x :: x in [src] + Without(s, k) ==> x !in [head] + t
  {
    assert s[k] == ([src] + s)[k + 1] && s[k] in [src] + s;
    assert src == ([src] + s)[0];
    forall x | x in [src] + Without(s, k)
      ensures x != list && x in [src] + s
    {
      if x != src {
        var w := Without(s, k);
        var i :| 0 <= i < |w| && w[i] == x;
        var j := if i < k then i else i + 1;
        assert x == s[j] == ([src] + s)[j + 1];
      }
    }
  }

  // ----- Rotation -----

  ghost function RotateLeft<T>(s: seq<T>): seq<T> {
    if s == [] then [] else s[1..] + [s[0]]
  }

  method ListRotateLeft(head: ListHead, ghost s: seq<ListHead>)
    requires IsList(head, s)
    modifies head, s
    ensures IsList(head, RotateLeft(s))
  {
    QueriesDecide(head, s);
    NeighboursInList(head, s, 0);
    if !ListEmpty(head) {
      var first := head.next;
      assert first == ([head] + s)[1] == s[0];
      assert Without(s, 0) == s[1..];
      ListMoveTail(first, head, head, s, 0, Without(s, 0));
    }
  }

  ghost function Rotations<T>(s: seq<T>, n: nat): seq<T> {
    if n == 0 then s else RotateLeft(Rotations(s, n - 1))
  }

  lemma {:induction false} RotationsAreASplit<T>(s: seq<T>, n: nat)
    requires n <= |s|
    ensures Rotations(s, n) == s[n..] + s[..n]
  {
    if n == 0 {
      assert s[0..] + s[..0] == s;
    } else {
      RotationsAreASplit(s, n - 1);
    }
  }

  // rotating as often as there are entries gives the list back
  method RotateFully(head: ListHead, n: nat, ghost s: seq<ListHead>)
    requires IsList(head, s) && n == |s|
    modifies head, s
    ensures IsList(head, s)
  {
    for i := 0 to n
      invariant IsList(head, Rotations(s, i))
    {
      ghost var now := Rotations(s, i);
      assert forall k :: 0 <= k < |now| ==> now[k] in s by { RotationsAreASplit(s, i); }
      ListRotateLeft(head, now);
    }
    assert Rotations(s, n) == s by {
      RotationsAreASplit(s, n);
      assert s[n..] + s[..n] == s;
    }
  }

  // ----- Splicing -----

  // __list_splice(list, head, head->next); the head of `list` is left behind with stale pointers
  method SpliceFront(list: ListHead, head: ListHead, ghost t: seq<ListHead>, ghost s: seq<ListHead>)
    requires IsList(list, t) && IsList(head, s) && Disjoint([head] + s, [list] + t) && t != []
    modifies head`next, head.next`prev, list.next`prev, list.prev`next
    ensures IsList(head, t + s) && list !in [head] + (t + s)
  {
    assert list in [list] + t;
    DistinctParts([list], t);
    assert list in [list];
    ghost var r := s + [head];
    Reseat(head, s, 0);
    assert s[0..] + [head] + s[..0] == r;
    ListSpliceBetween(list, head, head.next, t, r);
    assert s + ([head] + t) == r + t;
    RingSwap(s, [head] + t);
    assert ([head] + t) + s == [head] + (t + s);
  }

  // __list_splice(list, head->prev, head); the head of `list` is left behind with stale pointers
  method SpliceBack(list: ListHead, head: ListHead, ghost t: seq<ListHead>, ghost s: seq<ListHead>)
    requires IsList(list, t) && IsList(head, s) && Disjoint([head] + s, [list] + t) && t != []
    modifies head`prev, head.prev`next, list.next`prev, list.prev`next
    ensures IsList(head, s + t) && list !in [head] + (s + t)
  {
    assert list in [list] + t;
    DistinctParts([list], t);
    assert list in [list];
    ListSpliceBetween(list, head.prev, head, t, [head] + s);
    assert [head] + s + t == [head] + (s + t);
  }

  method ListSplice(list: ListHead, head: ListHead, ghost t: seq<ListHead>, ghost s: seq<ListHead>)
    requires IsList(list, t) && IsList(head, s) && Disjoint([head] + s, [list] + t)
    modifies head`next, head.next`prev, list.next`prev, list.prev`next
    ensures IsList(head, t + s)
  {
    QueriesDecide(list, t);
    if !ListEmpty(list) {
      SpliceFront(list, head, t, s);
    } else {
      assert t + s == s;
    }
  }

  method ListSpliceInit(list: ListHead, head: ListHead, ghost t: seq<ListHead>, ghost s: seq<ListHead>)
    requires IsList(list, t) && IsList(head, s) && Disjoint([head] + s, [list] + t)
    modifies list, head`next, head.next`prev, list.next`prev, list.prev`next
    ensures IsList(head, t + s) && IsList(list, [])
  {
    QueriesDecide(list, t);
    if !ListEmpty(list) {
      SpliceFront(list, head, t, s);
      InitListHead(list);
    } else {
      assert t + s == s;
    }
  }

  method ListSpliceTail(list: ListHead, head: ListHead, ghost t: seq<ListHead>, ghost s: seq<ListHead>)
    requires IsList(list, t) && IsList(head, s) && Disjoint([head] + s, [list] + t)
    modifies head`prev, head.prev`next, list.next`prev, list.prev`next
    ensures IsList(head, s + t)
  {
    QueriesDecide(list, t);
    if !ListEmpty(list) {
      SpliceBack(list, head, t, s);
    } else {
      assert s + t == s;
    }
  }

  method ListSpliceTailInit(list: ListHead, head: ListHead, ghost t: seq<ListHead>, ghost s: seq<ListHead>)
    requires IsList(list, t) && IsList(head, s) && Disjoint([head] + s, [list] + t)
    modifies list, head`prev, head.prev`next, list.next`prev, list.prev`next
    ensures IsList(head, s + t) && IsList(list, [])
  {
    QueriesDecide(list, t);
    if !ListEmpty(list) {
      SpliceBack(list, head, t, s);
      InitListHead(list);
    } else {
      assert s + t == s;
    }
  }

  // ----- Cutting -----

  /** How many entries are cut off: up to and including `entry`, none when `entry` is the head. */
  ghost function CutLength(s: seq<ListHead>, entry: ListHead): (c: nat)
    ensures c <= |s| && (c == 0 <==> entry !in s) && (c > 0 ==> s[c - 1] == entry)
  {
    if entry in s then (var i :| 0 <= i < |s| && s[i] == entry; i + 1) else 0
  }

  lemma CutFacts(list: ListHead, head: ListHead, a: seq<ListHead>, b: seq<ListHead>)
    requires IsList(head, a + b) && list !in [head] + (a + b) && a != []
    ensures Chain(a) && Chain(b) && Distinct([list] + a) && Distinct([head] + b)
    ensures head.next == a[0] && a[|a| - 1].next == if b == [] then head else b[0]
    ensures head.prev == if b == [] then a[|a| - 1] else b[|b| - 1]
    ensures Distinct(a) && Distinct(b) && head != list
    ensures forall i :: 0 <= i < |a| ==> a[i] != head && a[i] != list
    ensures forall i, j :: 0 <= i < |a| && 0 <= j < |b| ==> a[i] != b[j]
    ensures forall i :: 0 <= i < |b| ==> b[i] != head && b[i] != list
  {
    assert [head] + (a + b) == ([head] + a) + b;
    ChainParts([head] + a, b);
    ChainParts([head], a);
    DistinctParts([head] + a, b);
    DistinctParts([head], a);
    DistinctParts([list], a);
    DistinctParts([head], b);
    assert a[|a| - 1] == ([head] + a)[|a|];
    assert head in [head] && forall x :: x in a ==> x in [head] + a;
    assert forall i :: 0 <= i < |a| ==> a[i] in a;
    assert forall i :: 0 <= i < |b| ==> b[i] in b;
  }

  // __list_cut_position: the entries `a` end with `entry` and move to `list`
  method ListCutAfter(list: ListHead, head: ListHead, entry: ListHead, ghost a: seq<ListHead>, ghost b: seq<ListHead>)
    requires IsList(head, a + b) && list !in [head] + (a + b) && a != [] && entry == a[|a| - 1]
    modifies list, head`next, head.next`prev, entry`next, entry.next`prev
    ensures IsList(list, a) && IsList(head, b)
  {
    CutFacts(list, head, a, b);
    label before:
    var newFirst := entry.next;
    list.next := head.next;
    list.next.prev := list;
    list.prev := entry;
    entry.next := list;
    head.next := newFirst;
    newFirst.prev := head;
    assert Chain(a) && Chain(b);
    ChainJoin([list], a);
    if b != [] {
      assert head.prev == old@before(head.prev);
      ChainJoin([head], b);
    } else {
      assert head.next == head && head.prev == head;
    }
  }

  method ListCutPosition(list: ListHead, head: ListHead, entry: ListHead, ghost s: seq<ListHead>)
    requires IsList(head, s) && list !in [head] + s
    // an entry of a longer list must really be on it
    requires |s| > 1 ==> entry in [head] + s
    modifies list, head, s
    ensures if s == [] || (|s| == 1 && entry !in [head] + s)
            then IsList(head, s) && list.next == old(list.next) && list.prev == old(list.prev)
            else IsList(list, s[..CutLength(s, entry)]) && IsList(head, s[CutLength(s, entry)..])
  {
    QueriesDecide(head, s);
    if ListEmpty(head) {
      return;
    }
    assert head.next == s[0] by { assert head.next == ([head] + s)[1]; }
    if ListIsSingular(head) && head.next != entry && head != entry {
      return;
    }
    assert head !in s by { DistinctParts([head], s); assert head in [head]; }
    ghost var c := CutLength(s, entry);
    if entry == head {
      assert s[..c] == [] && s[c..] == s;
      InitListHead(list);
    } else {
      assert s == s[..c] + s[c..];
      assert head.next in [head] + s && entry.next in [head] + s by { NeighboursInList(head, s, c - 1); }
      ListCutAfter(list, head, entry, s[..c], s[c..]);
    }
  }

  // cutting a list anywhere and splicing the cut part back is the identity
  method CutThenSplice(list: ListHead, head: ListHead, entry: ListHead, ghost s: seq<ListHead>)
    requires IsList(head, s) && IsList(list, []) && list !in [head] + s
    requires |s| > 1 ==> entry in [head] + s
    modifies list, head, s
    ensures IsList(head, s) && IsList(list, [])
  {
    CutPartsApart(list, head, s, CutLength(s, entry));
    ListCutPosition(list, head, entry, s);
    ghost var c := CutLength(s, entry);
    assert s == [] || entry !in [head] + s ==> c == 0 && s[..0] == [] && s[0..] == s;
    assert s[..c] + s[c..] == s;
    NeighboursInList(list, s[..c], c);
    NeighboursInList(head, s[c..], |s| - c);
    ListSpliceInit(list, head, s[..c], s[c..]);
  }

  lemma CutPartsApart(list: ListHead, head: ListHead, s: seq<ListHead>, c: nat)
    requires Distinct([head] + s) && list !in [head] + s && c <= |s|
    ensures Disjoint([head] + s[c..], [list] + s[..c])
  {
    assert [head] + s == ([head] + s[..c]) + s[c..];
    DistinctParts([head] + s[..c], s[c..]);
    DistinctParts([head], s[..c]);
    assert head in [head];
    assert forall x :: x in s[..c] ==> x in [head] + s[..c];
  }

  // ----- Replacing -----

  // `was` is the last node of the ring; it may be the only one
  method ReplaceLast(was: ListHead, n: ListHead, ghost r: seq<ListHead>)
    requires IsRing(r + [was]) && n !in r + [was]
    modifies n, was.next`prev, was.prev`next
    ensures IsRing(r + [n])
    ensures r == [] ==> was.next == was && was.prev == n
  {
    ghost var p := r + [was];
    assert forall i :: 0 <= i < |r| ==> r[i] == p[i] && p[i] in p;
    assert was == p[|r|] && was.next == p[0];
    n.next := was.next;
    n.next.prev := n;
    n.prev := was.prev;
    n.prev.next := n;
  }

  // list_replace, for an entry or for the head itself: the node at position k of the ring is exchanged
  method ListReplace(was: ListHead, n: ListHead, ghost r: seq<ListHead>, ghost k: nat)
    requires IsRing(r) && n !in r && k < |r| && was == r[k]
    modifies n, was.next`prev, was.prev`next
    ensures IsRing(r[k := n]) && was !in r[k := n]
  {
    ghost var rest, q := r[k + 1..] + r[..k], r[k := n];
    RingAt(r, k);
    assert forall x :: x in rest + [was] ==> x in r;
    ReplaceLast(was, n, rest);
    assert rest == q[k + 1..] + q[..k];
    RingAt(q, k);
  }

  /** A ring with its node `k` turned to the last place. */
  lemma RingAt(r: seq<ListHead>, k: nat)
    requires k < |r|
    ensures IsRing(r) <==> IsRing(r[k + 1..] + r[..k] + [r[k]])
    ensures Distinct(r) ==> r[k] !in r[k + 1..] + r[..k]
  {
    var a, b := r[k + 1..], r[..k + 1];
    assert r == b + a && a + b == a + r[..k] + [r[k]];
    if IsRing(b + a) { RingSwap(b, a); }
    if IsRing(a + b) { RingSwap(a, b); }
  }

  method ListReplaceInit(was: ListHead, n: ListHead, ghost r: seq<ListHead>, ghost k: nat)
    requires IsRing(r) && n !in r && k < |r| && was == r[k]
    modifies n, was, was.next`prev, was.prev`next
    ensures IsRing(r[k := n]) && IsList(was, [])
  {
    ListReplace(was, n, r, k);
    InitListHead(was);
  }

  // list_del_range: the range stays chained to itself
  method ListDelRange(begin: ListHead, end: ListHead,
                      ghost head: ListHead, ghost s: seq<ListHead>, ghost i: nat, ghost j: nat)
    requires IsList(head, s) && i <= j < |s| && begin == s[i] && end == s[j]
    modifies begin.prev`next, end.next`prev
    ensures IsList(head, s[..i] + s[j + 1..]) && Chain(s[i..j + 1])
  {
    ghost var r, m := s[j + 1..] + [head] + s[..i], s[i..j + 1];
    Reseat(head, s, j + 1);
    assert s[j + 1..] + [head] + s[..j + 1] == r + m;
    DelRangeFacts(r, m);
    begin.prev.next := end.next;
    end.next.prev := begin.prev;
    assert IsRing(r);
    ghost var left := s[..i] + s[j + 1..];
    assert r == left[i..] + [head] + left[..i];
    Reseat(head, left, i);
  }

  lemma DelRangeFacts(r: seq<ListHead>, m: seq<ListHead>)
    requires IsRing(r + m) && r != [] && m != []
    ensures Chain(r) && Chain(m) && Distinct(r) && Distinct(m)
    ensures m[0].prev == r[|r| - 1] && m[|m| - 1].next == r[0]
    ensures forall i, j :: 0 <= i < |r| && 0 <= j < |m| ==> r[i] != m[j]
  {
    ChainParts(r, m);
    DistinctParts(r, m);
    assert forall i :: 0 <= i < |r| ==> r[i] in r;
    assert (r + m)[|r + m| - 1] == m[|m| - 1];
  }

  // ----- Safe iteration -----

  /** What is left of `s` once the entries in `dead` are deleted. */
  ghost function Survivors(s: seq<ListHead>, dead: set<ListHead>): seq<ListHead> {
    if s == [] then []
    else Survivors(s[..|s| - 1], dead) + (if s[|s| - 1] in dead then [] else [s[|s| - 1]])
  }

  /** What `t` has of `s` stands in it in the same order. */
  ghost predicate InOrder(s: seq<ListHead>, t: seq<ListHead>) {
    forall i, j, k, l :: 0 <= i < j < |s| && 0 <= k < |t| && 0 <= l < |t| ==> (t[k] == s[i] && t[l] == s[j] ==> k < l)
  }

  /** The survivors are the entries not in `dead`, and keep their order. */
  lemma {:induction false} SurvivorsKeepOrder(s: seq<ListHead>, dead: set<ListHead>)
    ensures forall x :: x in Survivors(s, dead) <==> x in s && x !in dead
    ensures Distinct(s) ==> Distinct(Survivors(s, dead))
    ensures Distinct(s) ==> InOrder(s, Survivors(s, dead))
  {
    if s != [] {
      var init, last := s[..|s| - 1], s[|s| - 1];
      assert s == init + [last];
      SurvivorsKeepOrder(init, dead);
      if Distinct(s) {
        DistinctParts(init, [last]);
        assert last in [last];
      }
    }
  }

  ghost function Deleted(s: seq<ListHead>, dead: set<ListHead>): set<ListHead> {
    set x | x in s && x in dead
  }

  /** The list holds `left + rest`, all of it within `nodes`, and the entries in `gone` stand alone. */
  ghost predicate Sweeping(head: ListHead, left: seq<ListHead>, rest: seq<ListHead>,
                           gone: set<ListHead>, nodes: set<ListHead>)
    reads nodes, gone
  {
    && (forall x :: x in [head] + (left + rest) ==> x in nodes && x !in gone)
    && IsList(head, left + rest)
    && (forall x :: x in gone ==> IsList(x, []))
  }

  // the loop body: delete the visited entry when it is in `dead`
  method SafeBody(pos: ListHead, head: ListHead, dead: set<ListHead>, ghost left: seq<ListHead>,
                  ghost rest: seq<ListHead>, ghost gone: set<ListHead>, ghost nodes: set<ListHead>)
    requires rest != [] && pos == rest[0] && Sweeping(head, left, rest, gone, nodes)
    modifies nodes
    ensures if pos in dead then Sweeping(head, left, rest[1..], gone + {pos}, nodes)
            else Sweeping(head, left + [pos], rest[1..], gone, nodes)
  {
    BodyFacts(head, left, rest);
    if pos in dead {
      ListDelInit(pos, head, left + rest, |left|);
    }
  }

  /** The visited entry and its neighbours are nodes of the list, and what is left of it without the entry. */
  lemma BodyFacts(head: ListHead, left: seq<ListHead>, rest: seq<ListHead>)
    requires IsList(head, left + rest) && rest != []
    ensures left + rest == left + [rest[0]] + rest[1..] && (left + rest)[|left|] == rest[0]
    ensures Without(left + rest, |left|) == left + rest[1..]
    ensures forall x :: x in [head] + (left + rest[1..]) ==> x in [head] + (left + rest) && x != rest[0]
    ensures rest[0] in [head] + (left + rest)
    ensures rest[0].next in [head] + (left + rest) && rest[0].prev in [head] + (left + rest)
  {
    var now := left + rest;
    assert now == left + [rest[0]] + rest[1..];
    assert now[|left|] == rest[0] && rest[0] in now;
    NeighboursInList(head, now, |left|);
    assert [head] + now == [head] + left + [rest[0]] + rest[1..];
    EntryGone([head] + left, rest[0], rest[1..]);
    assert [head] + (left + rest[1..]) == [head] + left + rest[1..];
  }

  lemma EntryGone<T>(a: seq<T>, x: T, b: seq<T>)
    requires Distinct(a + [x] + b)
    ensures forall y :: y in a + b ==> y in a + [x] + b && y != x
  {
    DistinctParts(a + [x], b);
    DistinctParts(a, [x]);
    assert x in [x] && x in a + [x];
  }

  // list_for_each_safe: `n` is fetched before the body runs
  method ForEachSafe(head: ListHead, dead: set<ListHead>, ghost s: seq<ListHead>) returns (visited: seq<ListHead>)
    requires IsList(head, s)
    modifies head, s
    ensures visited == s
    ensures IsList(head, Survivors(s, dead))
    ensures forall x :: x in s && x in dead ==> IsList(x, [])
  {
    visited := [];
    ghost var nodes := set x | x in [head] + s;
    ghost var left, rest, gone: set<ListHead> := [], s, {};
    assert left + rest == s;
    HeadFacts(head, left, rest);
    var pos := head.next;
    var n := pos.next;
    while pos != head
      invariant visited + rest == s
      invariant left == Survivors(visited, dead)
      invariant gone == Deleted(visited, dead)
      invariant Sweeping(head, left, rest, gone, nodes)
      invariant pos == if rest == [] then head else rest[0]
      invariant n == pos.next
      decreases |rest|
    {
      VisitStep(visited, rest, dead);
      visited := visited + [pos];
      NextUp(head, left, rest);
      SafeBody(pos, head, dead, left, rest, gone, nodes);
      left, rest, gone := if pos in dead then left else left + [pos], rest[1..], Deleted(visited, dead);
      pos := n;
      n := pos.next;
    }
    assert rest == [] by { HeadFacts(head, left, rest); }
    assert visited == s && left + rest == left;
  }

  lemma VisitStep(visited: seq<ListHead>, rest: seq<ListHead>, dead: set<ListHead>)
    requires rest != []
    ensures visited + [rest[0]] + rest[1..] == visited + rest
    ensures Survivors(visited + [rest[0]], dead) == Survivors(visited, dead) + if rest[0] in dead then [] else [rest[0]]
    ensures Deleted(visited + [rest[0]], dead) == Deleted(visited, dead) + if rest[0] in dead then {rest[0]} else {}
  {
    assert (visited + [rest[0]])[..|visited|] == visited;
  }

  lemma NextUp(head: ListHead, left: seq<ListHead>, rest: seq<ListHead>)
    requires IsList(head, left + rest) && rest != []
    ensures rest[0].next == if |rest| == 1 then head else rest[1]
  {
    assert left + rest == (left + [rest[0]]) + rest[1..];
    HeadFacts(head, left + [rest[0]], rest[1..]);
  }

  /** Stepping from the node before `rest` leads into `rest`, or back to the head. */
  lemma HeadFacts(head: ListHead, left: seq<ListHead>, rest: seq<ListHead>)
    requires IsList(head, left + rest)
    ensures head !in left + rest
    ensures ([head] + left)[|left|].next == if rest == [] then head else rest[0]
  {
    DistinctParts([head], left + rest);
    assert head in [head];
    assert [head] + (left + rest) == ([head] + left) + rest;
    ChainParts([head] + left, rest);
  }
}
