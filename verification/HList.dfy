/**
 Hash-bucket lists (`struct hlist_head`, `struct hlist_node`).

 The back pointer `pprev` does not name a node but the slot that points at the node: the `first`
 field of a head or the `next` field of a node. `Slot` keeps that distinction.
 */
module HList {
  import opened Basics

  datatype Slot = NoSlot | FirstOf(head: HListHead) | NextOf(node: HListNode)

  class HListNode {
    var next: HListNode?
    var pprev: Slot

    // INIT_HLIST_NODE
    constructor ()
      ensures next == null && pprev == NoSlot
    {
      next := null;
      pprev := NoSlot;
    }
  }

  class HListHead {
    var first: HListNode?

    // INIT_HLIST_HEAD
    constructor ()
      ensures IsHList(this, [])
    {
      first := null;
    }
  }

  // ----- Abstraction -----

  ghost function First(s: seq<HListNode>): HListNode? {
    if s == [] then null else s[0]
  }

  /** The slot behind the entries `s` of the list at `h`. */
  ghost function SlotAfter(h: HListHead, s: seq<HListNode>): Slot {
    if s == [] then FirstOf(h) else NextOf(s[|s| - 1])
  }

  /** What a slot holds. */
  ghost function Deref(slot: Slot): HListNode?
    reads match slot case NoSlot => {} case FirstOf(h) => {h} case NextOf(n) => {n}
  {
    match slot
    case NoSlot => null
    case FirstOf(h) => h.first
    case NextOf(n) => n.next
  }

  /** Neighbours in `p` are linked to each other. */
  ghost predicate Chain(p: seq<HListNode>)
    reads p
  {
    && (forall i {:trigger p[i].next} :: 0 <= i < |p| - 1 ==> p[i].next == p[i + 1])
    && (forall i {:trigger p[i].pprev} :: 0 < i < |p| ==> p[i].pprev == NextOf(p[i - 1]))
  }

  /** `h` heads a well-formed list with entries `s`. */
  ghost predicate IsHList(h: HListHead, s: seq<HListNode>)
    reads h, s
  {
    && Distinct(s) && Chain(s) && h.first == First(s)
    && (s != [] ==> s[0].pprev == FirstOf(h) && s[|s| - 1].next == null)
  }

  /** Every `pprev` names the one slot of the list that points at its node. */
  lemma PprevIsTheSlot(h: HListHead, s: seq<HListNode>, i: nat, k: nat)
    requires IsHList(h, s) && i < |s| && k <= |s|
    ensures s[i].pprev == SlotAfter(h, s[..i])
    ensures Deref(SlotAfter(h, s[..k])) == s[i] <==> SlotAfter(h, s[..k]) == s[i].pprev
  {
    assert k > 0 ==> Deref(SlotAfter(h, s[..k])) == s[k - 1].next;
  }

  /** The heap determines the entries: a head heads at most one sequence. */
  lemma EntriesUnique(h: HListHead, s: seq<HListNode>, t: seq<HListNode>)
    requires IsHList(h, s) && IsHList(h, t)
    ensures s == t
  {
    forall n: nat
      ensures n < |s| <==> n < |t|
      ensures n < |s| ==> s[n] == t[n]
    {
      if n < |s| { SameWalk(h, s, t, n); }
      if n < |t| { SameWalk(h, t, s, n); }
    }
  }

  lemma {:induction false} SameWalk(h: HListHead, s: seq<HListNode>, t: seq<HListNode>, n: nat)
    requires IsHList(h, s) && IsHList(h, t) && n < |s|
    ensures n < |t| && s[n] == t[n]
  {
    if n > 0 {
      SameWalk(h, s, t, n - 1);
      assert s[n - 1].next == s[n];
    }
  }

  /** A list taken apart into a front `a` and a rest `b`. */
  lemma Parts(h: HListHead, a: seq<HListNode>, b: seq<HListNode>)
    requires IsHList(h, a + b)
    ensures Distinct(a) && Distinct(b) && Disjoint(a, b) && Chain(a) && Chain(b) && h.first == First(a + b)
    ensures a != [] ==> a[0].pprev == FirstOf(h) && a[|a| - 1].next == First(b)
    ensures b != [] ==> b[0].pprev == SlotAfter(h, a) && b[|b| - 1].next == null
  {
    var s := a + b;
    assert forall i :: 0 <= i < |a| ==> s[i] == a[i];
    assert forall i :: 0 <= i < |b| ==> s[|a| + i] == b[i];
    forall i, j | 0 <= i < |a| && 0 <= j < |b|
      ensures a[i] != b[j]
    {
      assert s[i] != s[|a| + j];
    }
    forall i, j | 0 <= i < j < |b|
      ensures b[i] != b[j]
    {
      assert s[|a| + i] != s[|a| + j];
    }
  }

  /** A list put together from a front `a` and a rest `b`. */
  lemma Join(h: HListHead, a: seq<HListNode>, b: seq<HListNode>)
    requires Distinct(a) && Distinct(b) && Disjoint(a, b) && Chain(a) && Chain(b) && h.first == First(a + b)
    requires a != [] ==> a[0].pprev == FirstOf(h) && a[|a| - 1].next == First(b)
    requires b != [] ==> b[0].pprev == SlotAfter(h, a) && b[|b| - 1].next == null
    ensures IsHList(h, a + b)
  {
    DistinctParts(a, b);
    var s := a + b;
    assert forall i :: 0 <= i < |a| ==> s[i] == a[i];
    assert forall i :: |a| <= i < |s| ==> s[i] == b[i - |a|];
  }

  // ----- Queries -----

  predicate HListUnhashed(n: HListNode)
    reads n
  {
    n.pprev == NoSlot
  }

  predicate HListEmpty(h: HListHead)
    reads h
  {
    h.first == null
  }

  lemma QueriesDecide(h: HListHead, s: seq<HListNode>)
    requires IsHList(h, s)
    ensures HListEmpty(h) <==> s == []
    ensures forall n :: n in s ==> !HListUnhashed(n)
  {
    forall n | n in s
      ensures !HListUnhashed(n)
    {
      var i :| 0 <= i < |s| && s[i] == n;
      assert n.pprev == SlotAfter(h, s[..i]);
    }
  }

  // ----- Updates -----

  /** The object that holds the field a slot names. */
  ghost function Owner(slot: Slot): set<object> {
    match slot
    case NoSlot => {}
    case FirstOf(h) => {h}
    case NextOf(n) => {n}
  }

  // *slot = value
  method Store(slot: Slot, value: HListNode?)
    modifies Owner(slot)
    ensures slot.FirstOf? ==> slot.head.first == value
    ensures slot.NextOf? ==> slot.node.next == value && slot.node.pprev == old(slot.node.pprev)
  {
    match slot
    case NoSlot =>
    case FirstOf(h) => h.first := value;
    case NextOf(n) => n.next := value;
  }

  /** What is known around the entry `n` between `a` and `b`. */
  lemma Around(h: HListHead, a: seq<HListNode>, n: HListNode, b: seq<HListNode>)
    requires IsHList(h, a + ([n] + b))
    ensures Distinct(a) && Distinct(b) && Disjoint(a, b) && Chain(a) && Chain(b)
    ensures n.next == First(b) && n.pprev == SlotAfter(h, a)
    ensures if a == [] then h.first == n else h.first == a[0] && a[0].pprev == FirstOf(h) && a[|a| - 1].next == n
    ensures b != [] ==> b[0].pprev == NextOf(n) && b[|b| - 1].next == null
    ensures (forall i :: 0 <= i < |a| ==> a[i] != n) && (forall i :: 0 <= i < |b| ==> b[i] != n)
  {
    Parts(h, a, [n] + b);
    assert a + ([n] + b) == (a + [n]) + b;
    Parts(h, a + [n], b);
    assert forall i :: 0 <= i < |b| ==> ([n] + b)[i + 1] == b[i];
    assert forall i :: 0 <= i < |a| ==> (a + [n])[i] == a[i];
    assert n == ([n] + b)[0] == (a + [n])[|a|];
  }

  // __hlist_del of the entry between `a` and `b`
  method HListUnlink(n: HListNode, ghost h: HListHead, ghost a: seq<HListNode>, ghost b: seq<HListNode>)
    requires IsHList(h, a + ([n] + b))
    modifies Owner(n.pprev), n.next
    ensures IsHList(h, a + b) && n !in a + b
    ensures n.pprev == old(n.pprev)
  {
    Around(h, a, n, b);
    Bridge(n, h, a, b);
    Join(h, a, b);
  }

  // the two writes of __hlist_del
  method Bridge(n: HListNode, ghost h: HListHead, ghost a: seq<HListNode>, ghost b: seq<HListNode>)
    requires Distinct(a) && Distinct(b) && Disjoint(a, b) && Chain(a) && Chain(b)
    requires (forall i :: 0 <= i < |a| ==> a[i] != n) && (forall i :: 0 <= i < |b| ==> b[i] != n)
    requires n.next == First(b) && n.pprev == SlotAfter(h, a)
    requires a != [] ==> h.first == a[0] && a[0].pprev == FirstOf(h)
    requires b != [] ==> b[|b| - 1].next == null
    modifies Owner(n.pprev), n.next
    ensures Chain(a) && Chain(b) && h.first == First(a + b) && n.pprev == old(n.pprev)
    ensures a != [] ==> a[0].pprev == FirstOf(h) && a[|a| - 1].next == First(b)
    ensures b != [] ==> b[0].pprev == SlotAfter(h, a) && b[|b| - 1].next == null
  {
    DisjointAt(a, b);
    var next := n.next;
    var pprev := n.pprev;
    PointSlot(pprev, next, h, a, b);
    if next != null {
      next.pprev := pprev;
    }
  }

  // the slot behind `a` is made to point at `value`
  method PointSlot(slot: Slot, value: HListNode?, ghost h: HListHead, ghost a: seq<HListNode>, ghost b: seq<HListNode>)
    requires slot == SlotAfter(h, a) && Distinct(a) && Chain(a) && Chain(b)
    requires forall i, j :: 0 <= i < |a| && 0 <= j < |b| ==> a[i] != b[j]
    modifies Owner(slot)
    ensures Chain(a) && Chain(b)
    ensures if a == [] then h.first == value
            else h.first == old(h.first) && a[0].pprev == old(a[0].pprev) && a[|a| - 1].next == value
    ensures b != [] ==> b[|b| - 1].next == old(b[|b| - 1].next)
  {
    Store(slot, value);
  }

  // a node that is not on a list is left alone
  method HListDelInit(n: HListNode, ghost h: HListHead, ghost a: seq<HListNode>, ghost b: seq<HListNode>)
    requires HListUnhashed(n) || IsHList(h, a + ([n] + b))
    modifies n, Owner(n.pprev), n.next
    ensures n.pprev == NoSlot && n.next == if old(HListUnhashed(n)) then old(n.next) else null
    ensures !old(HListUnhashed(n)) ==> IsHList(h, a + b)
  {
    if !HListUnhashed(n) {
      HListUnlink(n, h, a, b);
      n.next := null;
      n.pprev := NoSlot;
    }
  }

  method HListAddHead(n: HListNode, h: HListHead, ghost s: seq<HListNode>)
    requires IsHList(h, s) && n !in s
    modifies n, h, h.first
    ensures IsHList(h, [n] + s)
  {
    var first := h.first;
    n.next := first;
    if first != null {
      first.pprev := NextOf(n);
    }
    h.first := n;
    n.pprev := FirstOf(h);
    assert Chain(s);
    Join(h, [n], s);
  }

  lemma FreshApart(a: seq<HListNode>, x: HListNode, b: seq<HListNode>, n: HListNode)
    requires n !in a + ([x] + b)
    requires (forall i :: 0 <= i < |a| ==> a[i] != x) && (forall i :: 0 <= i < |b| ==> b[i] != x)
    ensures (forall i :: 0 <= i < |a| ==> a[i] != n) && (forall i :: 0 <= i < |b| ==> b[i] != n) && n != x
    ensures Disjoint(a, [n, x]) && Disjoint([n, x], b) && Disjoint(a, [x, n]) && Disjoint([x, n], b)
  {
    assert forall i :: 0 <= i < |a| ==> a[i] in a + ([x] + b);
    assert forall i :: 0 <= i < |b| ==> b[i] in a + ([x] + b);
  }

  method HListAddBefore(n: HListNode, next: HListNode,
                        ghost h: HListHead, ghost a: seq<HListNode>, ghost b: seq<HListNode>)
    requires IsHList(h, a + ([next] + b)) && n !in a + ([next] + b)
    modifies n, next, Owner(next.pprev)
    ensures IsHList(h, a + ([n, next] + b))
  {
    Around(h, a, next, b);
    FreshApart(a, next, b, n);
    n.pprev := next.pprev;
    n.next := next;
    next.pprev := NextOf(n);
    Store(n.pprev, n);
    assert Chain(a) && Chain(b);
    JoinFour(h, a, n, next, b);
  }

  method HListAddBehind(n: HListNode, prev: HListNode,
                        ghost h: HListHead, ghost a: seq<HListNode>, ghost b: seq<HListNode>)
    requires IsHList(h, a + ([prev] + b)) && n !in a + ([prev] + b)
    modifies n, prev, prev.next
    ensures IsHList(h, a + ([prev, n] + b))
  {
    Around(h, a, prev, b);
    FreshApart(a, prev, b, n);
    n.next := prev.next;
    prev.next := n;
    n.pprev := NextOf(prev);
    if n.next != null {
      n.next.pprev := NextOf(n);
    }
    assert Chain(a) && Chain(b);
    JoinFour(h, a, prev, n, b);
  }

  /** Two fresh neighbours between `a` and `b`. */
  lemma JoinFour(h: HListHead, a: seq<HListNode>, x: HListNode, y: HListNode, b: seq<HListNode>)
    requires Distinct(a) && Distinct(b) && Disjoint(a, b) && Disjoint(a, [x, y]) && Disjoint([x, y], b) && x != y
    requires Chain(a) && Chain(b) && x.next == y && y.pprev == NextOf(x)
    requires x.pprev == SlotAfter(h, a) && y.next == First(b)
    requires if a == [] then h.first == x else h.first == a[0] && a[0].pprev == FirstOf(h) && a[|a| - 1].next == x
    requires b != [] ==> b[0].pprev == NextOf(y) && b[|b| - 1].next == null
    ensures IsHList(h, a + ([x, y] + b))
  {
    var r := [x, y] + b;
    ChainJoin([x, y], b);
    DistinctParts([x, y], b);
    assert Disjoint(a, r) by {
      assert forall i :: 0 <= i < |r| ==> r[i] == if i < 2 then [x, y][i] else b[i - 2];
    }
    assert r[|r| - 1] == if b == [] then y else b[|b| - 1];
    Join(h, a, r);
  }

  lemma ChainJoin(p: seq<HListNode>, q: seq<HListNode>)
    requires Chain(p) && Chain(q)
    requires p != [] && q != [] ==> p[|p| - 1].next == q[0] && q[0].pprev == NextOf(p[|p| - 1])
    ensures Chain(p + q)
  {
    assert forall i :: 0 <= i < |p| ==> (p + q)[i] == p[i];
    assert forall i :: |p| <= i < |p + q| ==> (p + q)[i] == q[i - |p|];
  }

  // hlist_move_list: whatever `newHead` held before is overwritten; moving a list to its own head empties it
  method HListMoveList(oldHead: HListHead, newHead: HListHead, ghost s: seq<HListNode>)
    requires IsHList(oldHead, s)
    modifies oldHead, newHead, oldHead.first
    ensures oldHead != newHead ==> IsHList(newHead, s)
    ensures IsHList(oldHead, [])
  {
    newHead.first := oldHead.first;
    if newHead.first != null {
      newHead.first.pprev := FirstOf(newHead);
    }
    oldHead.first := null;
  }
}
