/**
 One writer and one reader sharing the ring buffer without a lock.

 `rb_write` and `rb_read` are cut into the steps another processor can observe: reading the other
 side's index, moving one byte, publishing the own index. Memory is sequentially consistent.
 */
module RingSpsc {
  import opened Basics
  import opened Bits
  import opened RingBuffer

  datatype Writer = WIdle | WCopy(data: seq<byte>, done: nat)
  datatype Reader = RIdle | RCopy(len: nat, got: seq<byte>)

  /** `accepted` and `delivered` are everything published so far by the writer and by the reader. */
  datatype State = State(cells: seq<byte>, inIdx: nat, outIdx: nat, w: Writer, r: Reader,
                         accepted: seq<byte>, delivered: seq<byte>)

  datatype Action = WBegin(buf: seq<byte>) | WByte | WPublish | RBegin(want: nat) | RByte | RPublish

  /** The bytes `q` stand in the cells from position `from` on. */
  ghost predicate Stored(cells: seq<byte>, from: nat, q: seq<byte>)
    requires |cells| > 0
  {
    forall k :: 0 <= k < |q| ==> Nth(cells, from, k) == q[k]
  }

  lemma StoredAppend(cells: seq<byte>, from: nat, q: seq<byte>, x: byte)
    requires |q| < |cells| && Stored(cells, from, q)
    ensures Stored(cells[Cell(from + |q|, |cells|) := x], from, q + [x])
  {
    var after := cells[Cell(from + |q|, |cells|) := x];
    forall k | 0 <= k < |q| + 1
      ensures Nth(after, from, k) == (q + [x])[k]
    {
      if k < |q| {
        CellsDiffer(from + k, from + |q|, |cells|);
        assert Nth(cells, from, k) == q[k];
      }
    }
  }

  lemma StoredDrop(cells: seq<byte>, from: nat, q: seq<byte>, m: nat)
    requires |cells| > 0 && m <= |q| && Stored(cells, from, q)
    ensures Stored(cells, from + m, q[m..])
  {
    forall k | 0 <= k < |q| - m
      ensures Nth(cells, from + m, k) == q[m..][k]
    {
      assert Nth(cells, from + m, k) == Nth(cells, from, m + k);
    }
  }

  /** Everything in the buffer: published but not yet released, and copied but not yet published. */
  function Held(s: State): seq<byte>
    requires |s.delivered| <= |s.accepted| && (s.w.WCopy? ==> s.w.done <= |s.w.data|)
  {
    s.accepted[|s.delivered|..] + (if s.w.WCopy? then s.w.data[..s.w.done] else [])
  }

  /** The wrapped indices stand for the true counts `a` of accepted and `d` of delivered bytes. */
  ghost predicate Indices(inIdx: nat, outIdx: nat, a: nat, d: nat, n: nat) {
    && IsPow2(n) && n < WRAP && inIdx < WRAP && outIdx < WRAP
    && 0 <= a - d <= n && Sub32(inIdx, outIdx) == a - d
    && Cell(inIdx, n) == Cell(a, n) && Cell(outIdx, n) == Cell(d, n)
  }

  lemma WriteIndexMoves(inIdx: nat, outIdx: nat, a: nat, d: nat, n: nat, m: nat)
    requires Indices(inIdx, outIdx, a, d, n) && a - d + m <= n
    ensures Indices(Add32(inIdx, m), outIdx, a + m, d, n)
  {
    AppendedCount(inIdx, outIdx, a - d, m);
    WrappedCell(inIdx, m, 0, n);
    SameCell(inIdx, a, m, n);
  }

  lemma ReadIndexMoves(inIdx: nat, outIdx: nat, a: nat, d: nat, n: nat, m: nat)
    requires Indices(inIdx, outIdx, a, d, n) && m <= a - d
    ensures Indices(inIdx, Add32(outIdx, m), a, d + m, n)
  {
    RemovedCount(inIdx, outIdx, a - d, m);
    WrappedCell(outIdx, m, 0, n);
    SameCell(outIdx, d, m, n);
  }

  lemma SameCell(i: nat, a: nat, k: nat, n: nat)
    requires n > 0 && k <= n && Cell(i, n) == Cell(a, n)
    ensures Cell(i + k, n) == Cell(a + k, n)
  {
    CellAfter(i, k, n);
    CellAfter(a, k, n);
  }

  ghost predicate WriterOk(s: State) {
    s.w.WCopy? ==> |s.accepted| - |s.delivered| + |s.w.data| <= |s.cells| && s.w.done <= |s.w.data|
  }

  ghost predicate ReaderOk(s: State) {
    s.r.RCopy? ==>
      && |s.r.got| <= s.r.len <= |s.accepted| - |s.delivered|
      && s.delivered + s.r.got <= s.accepted
  }

  ghost predicate Inv(s: State) {
    && Indices(s.inIdx, s.outIdx, |s.accepted|, |s.delivered|, |s.cells|)
    && WriterOk(s) && ReaderOk(s)
    && s.delivered <= s.accepted
    && Stored(s.cells, |s.delivered|, Held(s))
  }

  /**
   One step; a step that is not enabled changes nothing. Byte `j` of a copy moves between the
   caller's buffer and cell `index + j`, as CopyCellIsCell shows of the two memcpy calls.
   */
  function Apply(s: State, a: Action): (t: State)
    requires |s.cells| > 0
    ensures |t.cells| == |s.cells|
  {
    match a
    case WBegin(buf) =>
      if s.w.WIdle? && |buf| < WRAP then s.(w := WCopy(buf[..Min(|buf|, Room(s))], 0)) else s
    case WByte =>
      if s.w.WCopy? && s.w.done < |s.w.data| then
        s.(cells := s.cells[Cell(s.inIdx + s.w.done, |s.cells|) := s.w.data[s.w.done]],
           w := s.w.(done := s.w.done + 1))
      else s
    case WPublish =>
      if s.w.WCopy? && s.w.done == |s.w.data| then
        s.(inIdx := Add32(s.inIdx, |s.w.data|), accepted := s.accepted + s.w.data, w := WIdle)
      else s
    case RBegin(want) =>
      if s.r.RIdle? then s.(r := RCopy(Min(want, Sub32(s.inIdx, s.outIdx)), [])) else s
    case RByte =>
      if s.r.RCopy? && |s.r.got| < s.r.len then
        s.(r := s.r.(got := s.r.got + [Nth(s.cells, s.outIdx, |s.r.got|)]))
      else s
    case RPublish =>
      if s.r.RCopy? && |s.r.got| == s.r.len then
        s.(outIdx := Add32(s.outIdx, s.r.len), delivered := s.delivered + s.r.got, r := RIdle)
      else s
  }

  // size - in + out, in unsigned arithmetic
  function Room(s: State): nat {
    Add32(Sub32(|s.cells|, s.inIdx), s.outIdx)
  }

  function Init(n: nat): (s: State)
    requires n > 0
    ensures |s.cells| == n
  {
    State(seq(n, _ => 0), 0, 0, WIdle, RIdle, [], [])
  }

  /** The cell byte `j` of a two-part copy of `len` bytes at index `idx` goes to or comes from. */
  function CopyCell(idx: nat, len: nat, n: nat, j: nat): int
    requires n > 0
  {
    var at := BitAnd(idx, n - 1);
    var l := Min(len, Sub32(n, at));
    if j < l then at + j else j - l
  }

  lemma CopyCellIsCell(idx: nat, len: nat, n: nat, j: nat)
    requires IsPow2(n) && n < WRAP && j < len <= n
    ensures CopyCell(idx, len, n, j) == Cell(idx + j, n)
  {
    MaskIsCell(idx, n);
    Sub32Is(n, Cell(idx, n));
    CellAfter(idx, j, n);
  }

  // ----- Every step keeps the invariant -----

  lemma WBeginKeeps(s: State, buf: seq<byte>)
    requires Inv(s)
    ensures Inv(Apply(s, WBegin(buf)))
  {
    FreeSpace(s.inIdx, s.outIdx, |s.cells|);
  }

  lemma WByteKeeps(s: State)
    requires Inv(s)
    ensures Inv(Apply(s, WByte))
  {
    if s.w.WCopy? && s.w.done < |s.w.data| {
      ByteStored(s);
    }
  }

  lemma ByteStored(s: State)
    requires |s.cells| > 0 && |s.delivered| <= |s.accepted| && s.w.WCopy? && s.w.done < |s.w.data|
    requires |s.accepted| - |s.delivered| + |s.w.data| <= |s.cells|
    requires Cell(s.inIdx, |s.cells|) == Cell(|s.accepted|, |s.cells|)
    requires Stored(s.cells, |s.delivered|, Held(s))
    ensures var t := Apply(s, WByte); Stored(t.cells, |t.delivered|, Held(t))
  {
    SameCell(s.inIdx, |s.accepted|, s.w.done, |s.cells|);
    StoredAppend(s.cells, |s.delivered|, Held(s), s.w.data[s.w.done]);
    HeldGrows(s);
  }

  lemma HeldGrows(s: State)
    requires |s.cells| > 0 && |s.delivered| <= |s.accepted| && s.w.WCopy? && s.w.done < |s.w.data|
    ensures Held(Apply(s, WByte)) == Held(s) + [s.w.data[s.w.done]]
    ensures |s.delivered| + |Held(s)| == |s.accepted| + s.w.done
  {
    assert s.w.data[..s.w.done + 1] == s.w.data[..s.w.done] + [s.w.data[s.w.done]];
  }

  lemma HeldShrinks(s: State)
    requires |s.cells| > 0 && (s.w.WCopy? ==> s.w.done <= |s.w.data|)
    requires s.r.RCopy? && |s.r.got| == s.r.len && |s.delivered| + s.r.len <= |s.accepted|
    ensures Held(Apply(s, RPublish)) == Held(s)[s.r.len..]
  {
    var d, m := |s.delivered|, s.r.len;
    assert s.accepted[d..][m..] == s.accepted[d + m..];
  }

  lemma WPublishKeeps(s: State)
    requires Inv(s)
    ensures Inv(Apply(s, WPublish))
  {
    if s.w.WCopy? && s.w.done == |s.w.data| {
      WriteIndexMoves(s.inIdx, s.outIdx, |s.accepted|, |s.delivered|, |s.cells|, |s.w.data|);
      assert Held(Apply(s, WPublish)) == Held(s);
    }
  }

  lemma RByteKeeps(s: State)
    requires Inv(s)
    ensures Inv(Apply(s, RByte))
  {
    if s.r.RCopy? && |s.r.got| < s.r.len {
      NextIsAccepted(s, |s.r.got|);
    }
  }

  /** The byte at the read index plus `j` is the accepted byte that number `j` from there is to deliver. */
  lemma NextIsAccepted(s: State, j: nat)
    requires |s.cells| > 0 && |s.delivered| + j < |s.accepted| && j <= |s.cells|
    requires s.w.WCopy? ==> s.w.done <= |s.w.data|
    requires Cell(s.outIdx, |s.cells|) == Cell(|s.delivered|, |s.cells|) && Stored(s.cells, |s.delivered|, Held(s))
    ensures Nth(s.cells, s.outIdx, j) == s.accepted[|s.delivered| + j]
  {
    SameCell(s.outIdx, |s.delivered|, j, |s.cells|);
    assert Nth(s.cells, |s.delivered|, j) == Held(s)[j];
  }

  lemma RPublishKeeps(s: State)
    requires Inv(s)
    ensures Inv(Apply(s, RPublish))
  {
    if s.r.RCopy? && |s.r.got| == s.r.len {
      ReadIndexMoves(s.inIdx, s.outIdx, |s.accepted|, |s.delivered|, |s.cells|, s.r.len);
      BytesReleased(s);
    }
  }

  lemma BytesReleased(s: State)
    requires |s.cells| > 0 && (s.w.WCopy? ==> s.w.done <= |s.w.data|)
    requires s.r.RCopy? && |s.r.got| == s.r.len && |s.delivered| + s.r.len <= |s.accepted|
    requires Stored(s.cells, |s.delivered|, Held(s))
    ensures var t := Apply(s, RPublish); Stored(t.cells, |t.delivered|, Held(t))
  {
    StoredDrop(s.cells, |s.delivered|, Held(s), s.r.len);
    HeldShrinks(s);
  }

  lemma StepKeeps(s: State, a: Action)
    requires Inv(s)
    ensures Inv(Apply(s, a))
    ensures s.accepted <= Apply(s, a).accepted && s.delivered <= Apply(s, a).delivered
  {
    match a
    case WBegin(buf) => WBeginKeeps(s, buf);
    case WByte => WByteKeeps(s);
    case WPublish => WPublishKeeps(s);
    case RBegin(_) =>
    case RByte => RByteKeeps(s);
    case RPublish => RPublishKeeps(s);
  }

  // ----- All interleavings -----

  function Run(s: State, actions: seq<Action>): (t: State)
    requires |s.cells| > 0
    ensures |t.cells| == |s.cells|
  {
    if actions == [] then s
    else Apply(Run(s, actions[..|actions| - 1]), actions[|actions| - 1])
  }

  lemma {:induction false} EveryRunKeeps(s: State, actions: seq<Action>)
    requires Inv(s)
    ensures Inv(Run(s, actions))
  {
    if actions != [] {
      EveryRunKeeps(s, actions[..|actions| - 1]);
      StepKeeps(Run(s, actions[..|actions| - 1]), actions[|actions| - 1]);
    }
  }

  lemma RunKeeps(n: nat, actions: seq<Action>)
    requires IsPow2(n) && n < WRAP
    ensures Inv(Run(Init(n), actions))
  {
    EveryRunKeeps(Init(n), actions);
  }

  /** In every interleaving the bytes read are a prefix of the bytes accepted, at most a buffer behind. */
  lemma ReaderSeesPrefix(n: nat, actions: seq<Action>)
    requires IsPow2(n) && n < WRAP
    ensures var s := Run(Init(n), actions);
            s.delivered <= s.accepted && |s.accepted| - |s.delivered| <= n
            && (s.r.RCopy? ==> s.delivered + s.r.got <= s.accepted)
  {
    RunKeeps(n, actions);
  }

  /** The cells a copy in progress has still to write, or to read. */
  ghost predicate WriterWillTouch(s: State, c: int)
    requires Inv(s)
  {
    s.w.WCopy? && exists j :: s.w.done <= j < |s.w.data| && CopyCell(s.inIdx, |s.w.data|, |s.cells|, j) == c
  }

  ghost predicate ReaderWillTouch(s: State, c: int)
    requires Inv(s)
  {
    s.r.RCopy? && exists j :: |s.r.got| <= j < s.r.len && CopyCell(s.outIdx, s.r.len, |s.cells|, j) == c
  }

  /** No cell is ever in use by both sides. */
  lemma CopiesDoNotCollide(s: State, c: int)
    requires Inv(s)
    ensures !(WriterWillTouch(s, c) && ReaderWillTouch(s, c))
  {
    if WriterWillTouch(s, c) && ReaderWillTouch(s, c) {
      var j :| s.w.done <= j < |s.w.data| && CopyCell(s.inIdx, |s.w.data|, |s.cells|, j) == c;
      var k :| |s.r.got| <= k < s.r.len && CopyCell(s.outIdx, s.r.len, |s.cells|, k) == c;
      CopiesApart(s.inIdx, s.outIdx, |s.accepted|, |s.delivered|, |s.cells|, |s.w.data|, s.r.len, j, k);
    }
  }

  lemma CopiesApart(inIdx: nat, outIdx: nat, a: nat, d: nat, n: nat, wlen: nat, rlen: nat, j: nat, k: nat)
    requires Indices(inIdx, outIdx, a, d, n) && a - d + wlen <= n && rlen <= a - d && j < wlen && k < rlen
    ensures CopyCell(inIdx, wlen, n, j) != CopyCell(outIdx, rlen, n, k)
  {
    CopyCellIsCell(inIdx, wlen, n, j);
    CopyCellIsCell(outIdx, rlen, n, k);
    SameCell(inIdx, a, j, n);
    SameCell(outIdx, d, k, n);
    CellsDiffer(d + k, a + j, n);
  }

  // ----- One side alone -----

  /** What `Ring.Contents` is in this state. */
  function Fifo(s: State): (q: seq<byte>)
    requires |s.cells| > 0
    ensures |q| == Sub32(s.inIdx, s.outIdx)
  {
    Window(s.cells, s.outIdx, Sub32(s.inIdx, s.outIdx))
  }

  lemma FifoIs(s: State)
    requires Inv(s)
    ensures Fifo(s) == s.accepted[|s.delivered|..]
  {
    forall k | 0 <= k < |s.accepted| - |s.delivered|
      ensures Fifo(s)[k] == s.accepted[|s.delivered| + k]
    {
      NextIsAccepted(s, k);
    }
  }

  lemma RunOneMore(s: State, actions: seq<Action>, a: Action)
    requires |s.cells| > 0
    ensures Run(s, actions + [a]) == Apply(Run(s, actions), a)
  {
    assert (actions + [a])[..|actions|] == actions;
  }

  function CopyAlone(begin: Action, byteStep: Action, k: nat): seq<Action> {
    if k == 0 then [begin] else CopyAlone(begin, byteStep, k - 1) + [byteStep]
  }

  lemma {:induction false} WriterAlone(s: State, buf: seq<byte>, k: nat)
    requires |s.cells| > 0 && s.w.WIdle? && |buf| < WRAP && k <= Min(|buf|, Room(s))
    ensures var t := Run(s, CopyAlone(WBegin(buf), WByte, k));
            t == s.(cells := t.cells, w := WCopy(buf[..Min(|buf|, Room(s))], k))
  {
    if k == 0 {
      assert [] + [WBegin(buf)] == [WBegin(buf)] && Run(s, []) == s;
      RunOneMore(s, [], WBegin(buf));
    } else {
      var u := Run(s, CopyAlone(WBegin(buf), WByte, k - 1));
      WriterAlone(s, buf, k - 1);
      RunOneMore(s, CopyAlone(WBegin(buf), WByte, k - 1), WByte);
      StoreOne(s, u, buf[..Min(|buf|, Room(s))], k);
    }
  }

  lemma StoreOne(s: State, u: State, data: seq<byte>, k: nat)
    requires |s.cells| > 0 && |u.cells| > 0 && 0 < k <= |data|
    requires u == s.(cells := u.cells, w := WCopy(data, k - 1))
    ensures var t := Apply(u, WByte); t == s.(cells := t.cells, w := WCopy(data, k))
  {
  }

  lemma WriterPublished(s: State, buf: seq<byte>, len: nat)
    requires |s.cells| > 0 && s.w.WIdle? && |buf| < WRAP && len == Min(|buf|, Room(s))
    ensures var t := Run(s, CopyAlone(WBegin(buf), WByte, len) + [WPublish]);
            t == s.(cells := t.cells, inIdx := Add32(s.inIdx, len), accepted := s.accepted + buf[..len])
  {
    WriterAlone(s, buf, len);
    RunOneMore(s, CopyAlone(WBegin(buf), WByte, len), WPublish);
  }

  lemma RoomIs(s: State)
    requires Inv(s)
    ensures |Fifo(s)| <= |s.cells| && Room(s) == |s.cells| - |Fifo(s)|
  {
    FreeSpace(s.inIdx, s.outIdx, |s.cells|);
  }

  /** The writer's steps without the reader's in between do what `Ring.Write` does. */
  lemma SoloWrite(s: State, buf: seq<byte>, len: nat)
    requires Inv(s) && s.w.WIdle? && |buf| < WRAP && len == Min(|buf|, Room(s))
    ensures var t := Run(s, CopyAlone(WBegin(buf), WByte, len) + [WPublish]);
            && Room(s) == |s.cells| - |Fifo(s)|
            && t == s.(cells := t.cells, inIdx := Add32(s.inIdx, len), accepted := s.accepted + buf[..len])
            && Fifo(t) == Fifo(s) + buf[..len]
  {
    var actions := CopyAlone(WBegin(buf), WByte, len) + [WPublish];
    RoomIs(s);
    WriterPublished(s, buf, len);
    EveryRunKeeps(s, actions);
    FifoIs(s);
    FifoIs(Run(s, actions));
    DropFront(s.accepted, buf[..len], |s.delivered|);
  }

  lemma DropFront(a: seq<byte>, b: seq<byte>, d: nat)
    requires d <= |a|
    ensures (a + b)[d..] == a[d..] + b
  {
  }

  lemma DropMore(a: seq<byte>, d: nat, m: nat)
    requires d + m <= |a|
    ensures a[d..][m..] == a[d + m..]
  {
  }

  lemma {:induction false} ReaderAlone(s: State, want: nat, k: nat)
    requires |s.cells| > 0 && s.r.RIdle? && k <= Min(want, |Fifo(s)|)
    ensures var t := Run(s, CopyAlone(RBegin(want), RByte, k));
            t == s.(r := RCopy(Min(want, |Fifo(s)|), Fifo(s)[..k]))
  {
    if k == 0 {
      assert [] + [RBegin(want)] == [RBegin(want)] && Run(s, []) == s;
      RunOneMore(s, [], RBegin(want));
    } else {
      ReaderAlone(s, want, k - 1);
      RunOneMore(s, CopyAlone(RBegin(want), RByte, k - 1), RByte);
      FetchOne(s, Run(s, CopyAlone(RBegin(want), RByte, k - 1)), Fifo(s), Min(want, |Fifo(s)|), k);
    }
  }

  lemma FetchOne(s: State, u: State, q: seq<byte>, len: nat, k: nat)
    requires |s.cells| > 0 && 0 < k <= len <= |q| && q[k - 1] == Nth(s.cells, s.outIdx, k - 1)
    requires u == s.(r := RCopy(len, q[..k - 1]))
    ensures Apply(u, RByte) == s.(r := RCopy(len, q[..k]))
  {
    assert q[..k] == q[..k - 1] + [q[k - 1]];
  }

  lemma ReaderPublished(s: State, want: nat, len: nat)
    requires |s.cells| > 0 && s.r.RIdle? && len == Min(want, |Fifo(s)|)
    ensures Run(s, CopyAlone(RBegin(want), RByte, len) + [RPublish])
         == s.(outIdx := Add32(s.outIdx, len), delivered := s.delivered + Fifo(s)[..len])
  {
    ReaderAlone(s, want, len);
    RunOneMore(s, CopyAlone(RBegin(want), RByte, len), RPublish);
  }

  /** The reader's steps without the writer's in between do what `Ring.Read` does. */
  lemma SoloRead(s: State, want: nat, len: nat)
    requires Inv(s) && s.r.RIdle? && len == Min(want, |Fifo(s)|)
    ensures var t := Run(s, CopyAlone(RBegin(want), RByte, len) + [RPublish]);
            && t == s.(outIdx := Add32(s.outIdx, len), delivered := s.delivered + Fifo(s)[..len])
            && Fifo(t) == Fifo(s)[len..]
  {
    var actions := CopyAlone(RBegin(want), RByte, len) + [RPublish];
    ReaderPublished(s, want, len);
    EveryRunKeeps(s, actions);
    FifoDropped(s, Run(s, actions), len);
  }

  lemma FifoDropped(s: State, t: State, len: nat)
    requires Inv(s) && Inv(t) && len <= |Fifo(s)|
    requires t.accepted == s.accepted && |t.delivered| == |s.delivered| + len
    ensures Fifo(t) == Fifo(s)[len..]
  {
    FifoIs(s);
    FifoIs(t);
    DropMore(s.accepted, |s.delivered|, len);
  }
}
