/**
 Whole I2C transfers: for every sequence of interrupts, what reached the wire, what is in the
 message buffers, and how the transfer ended.
 */
module I2cRuns {
  import opened Basics
  import opened I2cSpec

  // ----- The exchange a list of messages stands for -----

  /** Interrupts needed for the first `c` messages: one for each address and one for each byte. */
  function Off(msgs: seq<Msg>, c: nat): nat
    requires c <= |msgs|
  {
    if c == 0 then 0 else Off(msgs, c - 1) + |msgs[c - 1].buf| + 1
  }

  function Cost(msgs: seq<Msg>): nat {
    Off(msgs, |msgs|)
  }

  /**
   The event at byte `j` of a message, counting the address as byte 0. The last byte of a read is
   the only one that is not acknowledged (UM10204, section 3.1.6).
   */
  function EventOf(m: Msg, j: nat): Event
    requires j <= |m.buf|
  {
    if j == 0 then Started(2 * m.addr, m.rd)
    else if m.rd then Received(j != |m.buf|)
    else Sent(m.buf[j - 1])
  }

  function MsgTraceTo(m: Msg, n: nat): (t: seq<Event>)
    requires n <= |m.buf| + 1
    ensures |t| == n
    ensures forall j :: 0 <= j < n ==> t[j] == EventOf(m, j)
  {
    if n == 0 then [] else MsgTraceTo(m, n - 1) + [EventOf(m, n - 1)]
  }

  function MsgTrace(m: Msg): seq<Event> {
    MsgTraceTo(m, |m.buf| + 1)
  }

  function TraceTo(msgs: seq<Msg>, c: nat): (t: seq<Event>)
    requires c <= |msgs|
    ensures |t| == Off(msgs, c)
  {
    if c == 0 then [] else TraceTo(msgs, c - 1) + MsgTrace(msgs[c - 1])
  }

  function Trace(msgs: seq<Msg>): (t: seq<Event>)
    ensures |t| == Cost(msgs)
  {
    TraceTo(msgs, |msgs|)
  }

  /** Whether the acknowledge bit of interrupt `i` is a slave's answer: after an address or a sent byte. */
  predicate CheckedTo(msgs: seq<Msg>, c: nat, i: nat)
    requires c <= |msgs|
  {
    if c == 0 then false
    else if i < Off(msgs, c - 1) then CheckedTo(msgs, c - 1, i)
    else i == Off(msgs, c - 1) || (i < Off(msgs, c) && !msgs[c - 1].rd)
  }

  /** Interrupt `i` tells the master that the slave did not answer. */
  predicate Refused(msgs: seq<Msg>, irqs: seq<Irq>, i: nat) {
    i < |irqs| && CheckedTo(msgs, |msgs|, i) && irqs[i].nack
  }

  ghost predicate NoneRefused(msgs: seq<Msg>, irqs: seq<Irq>, n: nat) {
    forall i :: 0 <= i < n ==> !Refused(msgs, irqs, i)
  }

  /** Message `m`, addressed at interrupt `off`, after `p` of its bytes were received. */
  function FilledTo(m: Msg, irqs: seq<Irq>, off: nat, p: nat): Msg {
    if m.rd then m.(buf := seq(|m.buf|, j requires 0 <= j < |m.buf| => ByteAt(m, irqs, off, p, j)))
    else m
  }

  function ByteAt(m: Msg, irqs: seq<Irq>, off: nat, p: nat, j: nat): byte
    requires j < |m.buf|
  {
    if j < p && off + 1 + j < |irqs| then irqs[off + 1 + j].data else m.buf[j]
  }

  /** The messages after a complete transfer: reads hold the bytes the slave sent, in order. */
  function Filled(msgs: seq<Msg>, irqs: seq<Irq>): seq<Msg> {
    seq(|msgs|, k requires 0 <= k < |msgs| => FilledTo(msgs[k], irqs, Off(msgs, k), |msgs[k].buf|))
  }

  /** The state that ends a transfer in which nothing was refused. */
  function Completed(msgs: seq<Msg>, w: seq<Event>, irqs: seq<Irq>): Xfer
    requires msgs != []
  {
    Xfer(Filled(msgs, irqs), |msgs| - 1, |msgs[|msgs| - 1].buf|, Stop, 0, w + Trace(msgs) + [Stopped])
  }

  // ----- Positions in a transfer -----

  lemma {:induction false} OffGrows(msgs: seq<Msg>, c: nat, d: nat)
    requires c < d <= |msgs|
    ensures Off(msgs, c) + |msgs[c].buf| + 1 <= Off(msgs, d)
    ensures Off(msgs, c) + |msgs[c].buf| + 1 == Off(msgs, d) <==> d == c + 1
  {
    if c < d - 1 {
      OffGrows(msgs, c, d - 1);
    }
  }

  /** The event at byte `j` of message `c`, and whether its acknowledge counts. */
  lemma {:induction false} EventAt(msgs: seq<Msg>, d: nat, c: nat, j: nat)
    requires c < d <= |msgs| && j <= |msgs[c].buf|
    ensures Off(msgs, c) + j < Off(msgs, d)
    ensures TraceTo(msgs, d)[Off(msgs, c) + j] == EventOf(msgs[c], j)
  {
    OffGrows(msgs, c, d);
    var front, last := TraceTo(msgs, d - 1), MsgTrace(msgs[d - 1]);
    assert TraceTo(msgs, d) == front + last;
    if c < d - 1 {
      EventAt(msgs, d - 1, c, j);
      assert (front + last)[Off(msgs, c) + j] == front[Off(msgs, c) + j];
    } else {
      assert (front + last)[|front| + j] == last[j];
    }
  }

  lemma {:induction false} CheckedAt(msgs: seq<Msg>, d: nat, c: nat, j: nat)
    requires c < d <= |msgs| && j <= |msgs[c].buf|
    ensures CheckedTo(msgs, d, Off(msgs, c) + j) <==> j == 0 || !msgs[c].rd
  {
    OffGrows(msgs, c, d);
    if c < d - 1 {
      OffGrows(msgs, c, d - 1);
      CheckedAt(msgs, d - 1, c, j);
    }
  }

  // ----- The invariant of a run -----

  /** Bytes received so far into message `k`. */
  function Got(msgs: seq<Msg>, x: Xfer, k: nat): nat
    requires k < |msgs|
  {
    if k < x.cur then |msgs[k].buf| else if k == x.cur then x.ptr else 0
  }

  /** Message `k` of `x` is message `k` of the request with what has been received filled in. */
  predicate BufferOk(msgs: seq<Msg>, irqs: seq<Irq>, x: Xfer, k: nat)
    requires k < |msgs| && |x.msgs| == |msgs|
  {
    x.msgs[k] == FilledTo(msgs[k], irqs, Off(msgs, k), Got(msgs, x, k))
  }

  ghost predicate BuffersOk(msgs: seq<Msg>, irqs: seq<Irq>, x: Xfer) {
    |x.msgs| == |msgs| && forall k :: 0 <= k < |msgs| ==> BufferOk(msgs, irqs, x, k)
  }

  /** How many interrupts the current message has seen. */
  function Seen(x: Xfer): nat {
    if x.phase == Read then x.ptr + 1 else x.ptr
  }

  /** After the interrupts `irqs`, none of them a refusal, the transfer is under way and is where it should be. */
  ghost predicate OnTrack(msgs: seq<Msg>, w: seq<Event>, irqs: seq<Irq>, x: Xfer) {
    && BuffersOk(msgs, irqs, x)
    && x.Active() && x.Valid() && x.err == -ENODEV
    && Off(msgs, x.cur) + Seen(x) == |irqs| < Cost(msgs)
    && x.wire == w + Trace(msgs)[..|irqs| + 1]
  }

  /** A message whose buffer may have been received into. */
  predicate SameHeader(m: Msg, o: Msg) {
    m.addr == o.addr && m.rd == o.rd && |m.buf| == |o.buf| && (!o.rd ==> m == o)
  }

  lemma HeaderKept(msgs: seq<Msg>, irqs: seq<Irq>, x: Xfer, k: nat)
    requires BuffersOk(msgs, irqs, x) && k < |msgs|
    ensures SameHeader(x.msgs[k], msgs[k])
  {
    assert BufferOk(msgs, irqs, x, k);
  }

  function NextOf(z: Xfer): Event
    requires z.cur < |z.msgs| && z.ptr <= |z.msgs[z.cur].buf|
  {
    var m := z.msgs[z.cur];
    if z.ptr < |m.buf| then
      if m.rd then Received(z.ptr < |m.buf| - 1) else Sent(m.buf[z.ptr])
    else if z.cur < |z.msgs| - 1 then Started(2 * z.msgs[z.cur + 1].addr, z.msgs[z.cur + 1].rd)
    else Stopped
  }

  lemma AdvanceShowsNext(z: Xfer)
    requires z.cur < |z.msgs| && z.ptr <= |z.msgs[z.cur].buf|
    ensures z.Advance().wire == z.wire + [NextOf(z)]
  {
  }

  /** The trace after byte `p` of message `c`. */
  lemma TraceGoesOn(msgs: seq<Msg>, c: nat, p: nat)
    requires c < |msgs| && p <= |msgs[c].buf|
    ensures var n := Off(msgs, c) + p + 1;
            if p < |msgs[c].buf| then n < Cost(msgs) && Trace(msgs)[n] == EventOf(msgs[c], p + 1)
            else if c + 1 < |msgs| then n < Cost(msgs) && Trace(msgs)[n] == EventOf(msgs[c + 1], 0)
            else n == Cost(msgs)
  {
    if p < |msgs[c].buf| {
      EventAt(msgs, |msgs|, c, p + 1);
    } else if c + 1 < |msgs| {
      EventAt(msgs, |msgs|, c + 1, 0);
    }
  }

  /** What advancing shows is the next event of the trace, until the trace is complete. */
  lemma NextEvent(msgs: seq<Msg>, z: Xfer)
    requires |z.msgs| == |msgs| && z.cur < |msgs| && z.ptr <= |z.msgs[z.cur].buf|
    requires SameHeader(z.msgs[z.cur], msgs[z.cur])
    requires z.cur + 1 < |msgs| ==> SameHeader(z.msgs[z.cur + 1], msgs[z.cur + 1])
    ensures var n := Off(msgs, z.cur) + z.ptr + 1;
            if n < Cost(msgs) then NextOf(z) == Trace(msgs)[n] else n == Cost(msgs) && NextOf(z) == Stopped
  {
    TraceGoesOn(msgs, z.cur, z.ptr);
  }

  /** ... and leaves the master at the place that belongs to the number of interrupts so far. */
  lemma PlaceAfterAdvance(msgs: seq<Msg>, z: Xfer)
    requires |z.msgs| == |msgs| && z.cur < |msgs| && z.ptr <= |z.msgs[z.cur].buf|
    requires SameHeader(z.msgs[z.cur], msgs[z.cur])
    ensures var y := z.Advance(); var n := Off(msgs, z.cur) + z.ptr + 1;
            && y.msgs == z.msgs
            && (n < Cost(msgs) ==>
                  y.Active() && y.Valid() && y.err == z.err && y.cur < |msgs| && Off(msgs, y.cur) + Seen(y) == n)
            && (n >= Cost(msgs) ==> z.cur == |msgs| - 1 && z.ptr == |msgs[z.cur].buf| && y.phase == Stop && y.err == 0)
            && forall k :: 0 <= k < |msgs| && msgs[k].rd ==> Got(msgs, y, k) == Got(msgs, z, k)
  {
    OffGrows(msgs, z.cur, |msgs|);
  }

  /** The common tail of every interrupt: `z.ptr` bytes of message `z.cur` are done after `irqs`. */
  lemma AdvanceOnTrack(msgs: seq<Msg>, w: seq<Event>, irqs: seq<Irq>, z: Xfer)
    requires BuffersOk(msgs, irqs, z) && z.cur < |msgs| && z.ptr <= |z.msgs[z.cur].buf| && z.err == -ENODEV
    requires Off(msgs, z.cur) + z.ptr + 1 == |irqs| <= Cost(msgs)
    requires z.wire == w + Trace(msgs)[..|irqs|]
    ensures if |irqs| < Cost(msgs) then OnTrack(msgs, w, irqs, z.Advance()) else z.Advance() == Completed(msgs, w, irqs)
  {
    HeadersKept(msgs, irqs, z);
    PlaceAfterAdvance(msgs, z);
    if |irqs| < Cost(msgs) {
      AdvanceGoesOn(msgs, w, irqs, z);
    } else {
      AdvanceCompletes(msgs, w, irqs, z);
    }
  }

  lemma AdvanceGoesOn(msgs: seq<Msg>, w: seq<Event>, irqs: seq<Irq>, z: Xfer)
    requires BuffersOk(msgs, irqs, z) && z.cur < |msgs| && z.ptr <= |z.msgs[z.cur].buf| && z.err == -ENODEV
    requires Off(msgs, z.cur) + z.ptr + 1 == |irqs| < Cost(msgs)
    requires z.wire == w + Trace(msgs)[..|irqs|]
    ensures OnTrack(msgs, w, irqs, z.Advance())
  {
    HeadersKept(msgs, irqs, z);
    PlaceAfterAdvance(msgs, z);
    WireAfterAdvance(msgs, w, z);
    BuffersAfterAdvance(msgs, irqs, z, z.Advance());
  }

  lemma AdvanceCompletes(msgs: seq<Msg>, w: seq<Event>, irqs: seq<Irq>, z: Xfer)
    requires BuffersOk(msgs, irqs, z) && z.cur == |msgs| - 1 && z.ptr == |msgs[z.cur].buf| == |z.msgs[z.cur].buf|
    requires z.wire == w + Trace(msgs)[..Cost(msgs)]
    ensures z.Advance() == Completed(msgs, w, irqs)
  {
    BuffersFull(msgs, irqs, z);
    WholeTrace(w, Trace(msgs), Cost(msgs));
    AdvanceFinishes(z);
  }

  lemma AdvanceFinishes(z: Xfer)
    requires z.cur == |z.msgs| - 1 && z.ptr == |z.msgs[z.cur].buf|
    ensures z.Advance() == z.Finish(0)
  {
  }

  lemma WholeTrace(w: seq<Event>, t: seq<Event>, n: nat)
    requires n == |t|
    ensures w + t[..n] == w + t
  {
  }

  lemma HeadersKept(msgs: seq<Msg>, irqs: seq<Irq>, z: Xfer)
    requires BuffersOk(msgs, irqs, z) && z.cur < |msgs|
    ensures SameHeader(z.msgs[z.cur], msgs[z.cur])
    ensures z.cur + 1 < |msgs| ==> SameHeader(z.msgs[z.cur + 1], msgs[z.cur + 1])
  {
    HeaderKept(msgs, irqs, z, z.cur);
    if z.cur + 1 < |msgs| { HeaderKept(msgs, irqs, z, z.cur + 1); }
  }

  lemma WireAfterAdvance(msgs: seq<Msg>, w: seq<Event>, z: Xfer)
    requires |z.msgs| == |msgs| && z.cur < |msgs| && z.ptr <= |z.msgs[z.cur].buf|
    requires SameHeader(z.msgs[z.cur], msgs[z.cur])
    requires z.cur + 1 < |msgs| ==> SameHeader(z.msgs[z.cur + 1], msgs[z.cur + 1])
    requires Off(msgs, z.cur) + z.ptr + 1 <= Cost(msgs)
    requires z.wire == w + Trace(msgs)[..Off(msgs, z.cur) + z.ptr + 1]
    ensures var n := Off(msgs, z.cur) + z.ptr + 1;
            z.Advance().wire == if n < Cost(msgs) then w + Trace(msgs)[..n + 1] else w + Trace(msgs) + [Stopped]
  {
    var n := Off(msgs, z.cur) + z.ptr + 1;
    NextEvent(msgs, z);
    NextShown(w, Trace(msgs), n, z);
  }

  lemma NextShown(w: seq<Event>, t: seq<Event>, n: nat, z: Xfer)
    requires z.cur < |z.msgs| && z.ptr <= |z.msgs[z.cur].buf|
    requires n <= |t| && z.wire == w + t[..n] && NextOf(z) == if n < |t| then t[n] else Stopped
    ensures z.Advance().wire == if n < |t| then w + t[..n + 1] else w + t + [Stopped]
  {
    AdvanceShowsNext(z);
    WireGrows(w, t, n, NextOf(z));
  }

  lemma WireGrows(w: seq<Event>, t: seq<Event>, n: nat, e: Event)
    requires n <= |t| && (n < |t| ==> e == t[n])
    ensures w + t[..n] + [e] == if n < |t| then w + t[..n + 1] else w + t + [e]
  {
  }

  lemma BuffersAfterAdvance(msgs: seq<Msg>, irqs: seq<Irq>, z: Xfer, y: Xfer)
    requires BuffersOk(msgs, irqs, z) && y.msgs == z.msgs
    requires forall k :: 0 <= k < |msgs| && msgs[k].rd ==> Got(msgs, y, k) == Got(msgs, z, k)
    ensures BuffersOk(msgs, irqs, y)
  {
    forall k | 0 <= k < |msgs|
      ensures BufferOk(msgs, irqs, y, k)
    {
      assert BufferOk(msgs, irqs, z, k);
    }
  }

  lemma BuffersFull(msgs: seq<Msg>, irqs: seq<Irq>, z: Xfer)
    requires BuffersOk(msgs, irqs, z) && z.cur == |msgs| - 1 && z.ptr == |msgs[z.cur].buf|
    ensures z.msgs == Filled(msgs, irqs)
  {
    forall k | 0 <= k < |msgs|
      ensures z.msgs[k] == FilledTo(msgs[k], irqs, Off(msgs, k), |msgs[k].buf|)
    {
      assert BufferOk(msgs, irqs, z, k);
    }
  }

  // ----- One interrupt -----

  lemma {:induction false} BeginOnTrack(msgs: seq<Msg>, w: seq<Event>)
    requires msgs != []
    ensures OnTrack(msgs, w, [], Begin(msgs, w))
  {
    EventAt(msgs, |msgs|, 0, 0);
    WireGrows(w, Trace(msgs), 0, EventOf(msgs[0], 0));
    assert w + Trace(msgs)[..0] == w;
    var x := Begin(msgs, w);
    forall k | 0 <= k < |msgs|
      ensures BufferOk(msgs, [], x, k)
    {
      assert FilledTo(msgs[k], [], Off(msgs, k), 0) == msgs[k];
    }
  }

  /** The interrupts at which the handler looks at the acknowledge bit are the checked ones. */
  lemma PhaseTellsChecked(msgs: seq<Msg>, irqs: seq<Irq>, x: Xfer)
    requires BuffersOk(msgs, irqs, x) && x.Active() && x.Valid() && Off(msgs, x.cur) + Seen(x) == |irqs|
    ensures CheckedTo(msgs, |msgs|, |irqs|) <==> x.phase != Read
  {
    HeaderKept(msgs, irqs, x, x.cur);
    PlaceTellsChecked(msgs, x, |irqs|);
  }

  lemma PlaceTellsChecked(msgs: seq<Msg>, x: Xfer, i: nat)
    requires |x.msgs| == |msgs| && x.Valid() && x.Active() && SameHeader(x.msgs[x.cur], msgs[x.cur])
    requires i == Off(msgs, x.cur) + Seen(x)
    ensures CheckedTo(msgs, |msgs|, i) <==> x.phase != Read
  {
    CheckedAt(msgs, |msgs|, x.cur, Seen(x));
  }

  /** Received bytes are not affected by later interrupts, and the newest goes to its place. */
  lemma OneMoreIrq(m: Msg, irqs: seq<Irq>, irq: Irq, off: nat, p: nat)
    requires p <= |m.buf|
    ensures p == 0 || off + 1 + p <= |irqs| ==> FilledTo(m, irqs + [irq], off, p) == FilledTo(m, irqs, off, p)
    ensures m.rd && p < |m.buf| && off + 1 + p == |irqs| ==>
              FilledTo(m, irqs + [irq], off, p + 1) ==
              m.(buf := FilledTo(m, irqs, off, p).buf[p := irq.data])
  {
    if p == 0 || off + 1 + p <= |irqs| {
      assert forall j :: 0 <= j < |m.buf| ==> ByteAt(m, irqs + [irq], off, p, j) == ByteAt(m, irqs, off, p, j);
    }
  }

  /** The state handed to Advance: after a read interrupt the byte has been stored. */
  function Taken(x: Xfer, irq: Irq): Xfer
    requires x.Valid() && x.Active()
  {
    if x.phase == Read then x.Store(irq.data) else x
  }

  lemma TakenBuffers(msgs: seq<Msg>, w: seq<Event>, irqs: seq<Irq>, x: Xfer, irq: Irq)
    requires OnTrack(msgs, w, irqs, x)
    ensures BuffersOk(msgs, irqs + [irq], Taken(x, irq))
  {
    var z := Taken(x, irq);
    HeadersKept(msgs, irqs, x);
    forall k | 0 <= k < |msgs|
      ensures BufferOk(msgs, irqs + [irq], z, k)
    {
      assert BufferOk(msgs, irqs, x, k);
      if k < x.cur { OffGrows(msgs, k, x.cur); }
      OneMoreIrq(msgs[k], irqs, irq, Off(msgs, k), Got(msgs, x, k));
    }
  }

  lemma StepOnTrack(msgs: seq<Msg>, w: seq<Event>, irqs: seq<Irq>, x: Xfer, irq: Irq)
    requires OnTrack(msgs, w, irqs, x) && (CheckedTo(msgs, |msgs|, |irqs|) ==> !irq.nack)
    ensures var all := irqs + [irq];
            if |all| < Cost(msgs) then OnTrack(msgs, w, all, x.Step(irq)) else x.Step(irq) == Completed(msgs, w, all)
  {
    PhaseTellsChecked(msgs, irqs, x);
    HeadersKept(msgs, irqs, x);
    TakenBuffers(msgs, w, irqs, x, irq);
    AdvanceOnTrack(msgs, w, irqs + [irq], Taken(x, irq));
  }

  // ----- Whole runs -----

  /** While nothing is refused, every run is at the place its number of interrupts tells, and ends completely. */
  lemma {:induction false} RunOnTrack(msgs: seq<Msg>, w: seq<Event>, irqs: seq<Irq>)
    requires msgs != [] && NoneRefused(msgs, irqs, |irqs|) && |irqs| <= Cost(msgs)
    ensures var x := Run(Begin(msgs, w), irqs);
            if |irqs| < Cost(msgs) then OnTrack(msgs, w, irqs, x) else x == Completed(msgs, w, irqs)
  {
    if irqs == [] {
      OffGrows(msgs, 0, |msgs|);
      BeginOnTrack(msgs, w);
    } else {
      var front, last := irqs[..|irqs| - 1], irqs[|irqs| - 1];
      assert irqs == front + [last];
      FrontIsAnswered(msgs, irqs, |front|);
      RunOnTrack(msgs, w, front);
      assert !Refused(msgs, irqs, |front|);
      StepOnTrack(msgs, w, front, Run(Begin(msgs, w), front), last);
    }
  }

  /** Once a transfer has stopped, further interrupts change nothing: it stops once. */
  lemma {:induction false} StoppedForGood(x: Xfer, irqs: seq<Irq>, n: nat)
    requires x.Valid() && n <= |irqs| && Run(x, irqs[..n]).phase == Stop
    ensures Run(x, irqs) == Run(x, irqs[..n])
    decreases |irqs|
  {
    if n == |irqs| {
      assert irqs[..n] == irqs;
    } else {
      assert irqs[..|irqs| - 1][..n] == irqs[..n];
      StoppedForGood(x, irqs[..|irqs| - 1], n);
    }
  }

  /**
   With a slave that answers, a transfer needs exactly `Cost(msgs)` interrupts. It then stops with
   err 0, the wire has carried the whole trace, and every read buffer holds the slave's bytes.
   */
  lemma AnsweredTransferCompletes(msgs: seq<Msg>, w: seq<Event>, irqs: seq<Irq>)
    requires msgs != [] && NoneRefused(msgs, irqs, |irqs|)
    ensures var x := Run(Begin(msgs, w), irqs);
            if |irqs| < Cost(msgs) then x.Active() && x.wire == w + Trace(msgs)[..|irqs| + 1]
            else x == Completed(msgs, w, irqs[..Cost(msgs)])
  {
    if |irqs| < Cost(msgs) {
      RunOnTrack(msgs, w, irqs);
    } else {
      var enough := irqs[..Cost(msgs)];
      FrontIsAnswered(msgs, irqs, Cost(msgs));
      RunOnTrack(msgs, w, enough);
      StoppedForGood(Begin(msgs, w), irqs, Cost(msgs));
    }
  }

  /**
   The first refusal ends the transfer with -ENODEV. What reached the wire is a prefix of the full
   trace, followed by a stop condition.
   */
  lemma RefusedTransferAborts(msgs: seq<Msg>, w: seq<Event>, irqs: seq<Irq>, i: nat)
    requires msgs != [] && i < |irqs| && Refused(msgs, irqs, i) && NoneRefused(msgs, irqs, i)
    ensures i < Cost(msgs)
    ensures var x := Run(Begin(msgs, w), irqs);
            x.phase == Stop && x.err == -ENODEV && x.wire == w + Trace(msgs)[..i + 1] + [Stopped]
            && x.msgs == Filled(msgs, irqs[..i])
  {
    CheckedInRange(msgs, |msgs|, i);
    RefusedPrefix(msgs, w, irqs, i);
    StoppedForGood(Begin(msgs, w), irqs, i + 1);
  }

  lemma RefusedPrefix(msgs: seq<Msg>, w: seq<Event>, irqs: seq<Irq>, i: nat)
    requires msgs != [] && i < |irqs| && Refused(msgs, irqs, i) && NoneRefused(msgs, irqs, i) && i < Cost(msgs)
    ensures var x := Run(Begin(msgs, w), irqs[..i + 1]);
            x.phase == Stop && x.err == -ENODEV && x.wire == w + Trace(msgs)[..i + 1] + [Stopped]
            && x.msgs == Filled(msgs, irqs[..i])
  {
    var front := irqs[..i];
    assert irqs[..i + 1] == front + [irqs[i]];
    FrontIsAnswered(msgs, irqs, i);
    RefusedRun(msgs, w, front, irqs[i]);
  }

  lemma RefusedRun(msgs: seq<Msg>, w: seq<Event>, front: seq<Irq>, irq: Irq)
    requires msgs != [] && NoneRefused(msgs, front, |front|) && |front| < Cost(msgs)
    requires CheckedTo(msgs, |msgs|, |front|) && irq.nack
    ensures var x := Run(Begin(msgs, w), front + [irq]);
            x.phase == Stop && x.err == -ENODEV && x.wire == w + Trace(msgs)[..|front| + 1] + [Stopped]
            && x.msgs == Filled(msgs, front)
  {
    RunOnTrack(msgs, w, front);
    RefusedStep(msgs, w, front, Run(Begin(msgs, w), front), irq);
    assert (front + [irq])[..|front|] == front;
  }

  /** A front part of the interrupts holds no refusal either. */
  lemma FrontIsAnswered(msgs: seq<Msg>, irqs: seq<Irq>, n: nat)
    requires n <= |irqs| && NoneRefused(msgs, irqs, n)
    ensures |irqs[..n]| == n && NoneRefused(msgs, irqs[..n], n)
  {
    forall i | 0 <= i < n
      ensures !Refused(msgs, irqs[..n], i)
    {
      assert !Refused(msgs, irqs, i);
    }
  }

  lemma RefusedStep(msgs: seq<Msg>, w: seq<Event>, irqs: seq<Irq>, x: Xfer, irq: Irq)
    requires OnTrack(msgs, w, irqs, x) && CheckedTo(msgs, |msgs|, |irqs|) && irq.nack
    ensures var y := x.Step(irq);
            y.phase == Stop && y.err == -ENODEV && y.wire == w + Trace(msgs)[..|irqs| + 1] + [Stopped]
            && y.msgs == Filled(msgs, irqs)
  {
    PhaseTellsChecked(msgs, irqs, x);
    FilledSoFar(msgs, irqs, x);
  }

  /** Between the bytes of a read, the buffers are as the interrupts so far have filled them. */
  lemma FilledSoFar(msgs: seq<Msg>, irqs: seq<Irq>, x: Xfer)
    requires BuffersOk(msgs, irqs, x) && x.Active() && x.Valid() && x.phase != Read
    requires Off(msgs, x.cur) + x.ptr == |irqs|
    ensures x.msgs == Filled(msgs, irqs)
  {
    forall k | 0 <= k < |msgs|
      ensures x.msgs[k] == Filled(msgs, irqs)[k]
    {
      assert BufferOk(msgs, irqs, x, k);
      HeaderKept(msgs, irqs, x, x.cur);
      NothingPartial(msgs, x, k, |irqs|);
      GotIsAll(msgs[k], irqs, Off(msgs, k), Got(msgs, x, k));
    }
  }

  lemma NothingPartial(msgs: seq<Msg>, x: Xfer, k: nat, n: nat)
    requires k < |msgs| == |x.msgs| && x.Active() && x.Valid() && x.phase != Read
    requires SameHeader(x.msgs[x.cur], msgs[x.cur]) && Off(msgs, x.cur) + x.ptr == n
    ensures msgs[k].rd ==> Got(msgs, x, k) >= |msgs[k].buf| || Off(msgs, k) >= n
  {
    if x.cur < k { OffGrows(msgs, x.cur, k); }
  }

  lemma GotIsAll(m: Msg, irqs: seq<Irq>, off: nat, p: nat)
    requires m.rd ==> p >= |m.buf| || off >= |irqs|
    ensures FilledTo(m, irqs, off, p) == FilledTo(m, irqs, off, |m.buf|)
  {
  }

  /** After a refusal a read holds the bytes received before it and is otherwise as it was; a write is untouched. */
  lemma RefusedBuffer(msgs: seq<Msg>, irqs: seq<Irq>, i: nat, c: nat)
    requires c < |msgs| && i <= |irqs|
    ensures var m := Filled(msgs, irqs[..i])[c];
            if msgs[c].rd then |m.buf| == |msgs[c].buf|
                 && forall j :: 0 <= j < |m.buf| ==>
                      m.buf[j] == if Off(msgs, c) + 1 + j < i then irqs[Off(msgs, c) + 1 + j].data else msgs[c].buf[j]
            else m == msgs[c]
  {
  }

  lemma {:induction false} CheckedInRange(msgs: seq<Msg>, c: nat, i: nat)
    requires c <= |msgs| && CheckedTo(msgs, c, i)
    ensures i < Off(msgs, c)
  {
    if c > 0 && i < Off(msgs, c - 1) {
      CheckedInRange(msgs, c - 1, i);
    }
  }

  /** How every transfer ends, by the interrupts that arrive before the time-out. */
  lemma Outcome(msgs: seq<Msg>, w: seq<Event>, irqs: seq<Irq>)
    requires msgs != []
    ensures var x := Run(Begin(msgs, w), irqs);
            if !NoneRefused(msgs, irqs, |irqs|) then x.phase == Stop && x.err == -ENODEV
            else if |irqs| >= Cost(msgs) then x.phase == Stop && x.err == 0
            else x.Active()
  {
    if NoneRefused(msgs, irqs, |irqs|) {
      AnsweredTransferCompletes(msgs, w, irqs);
    } else {
      var i := FirstRefusal(msgs, irqs, |irqs|);
      RefusedTransferAborts(msgs, w, irqs, i);
    }
  }

  lemma {:induction false} FirstRefusal(msgs: seq<Msg>, irqs: seq<Irq>, n: nat) returns (i: nat)
    requires !NoneRefused(msgs, irqs, n)
    ensures i < n && Refused(msgs, irqs, i) && NoneRefused(msgs, irqs, i)
  {
    i := n - 1;
    if !NoneRefused(msgs, irqs, i) {
      i := FirstRefusal(msgs, irqs, i);
    }
  }

  /** In every reachable active state all indices are in range. */
  lemma ActiveStatesAreInBounds(msgs: seq<Msg>, w: seq<Event>, irqs: seq<Irq>)
    requires msgs != []
    ensures var x := Run(Begin(msgs, w), irqs);
            x.Active() ==> |x.msgs| == |msgs| && x.cur < |msgs| && x.ptr <= |msgs[x.cur].buf|
                           && (x.phase == Read ==> x.ptr < |msgs[x.cur].buf|)
  {
    if !NoneRefused(msgs, irqs, |irqs|) {
      var i := FirstRefusal(msgs, irqs, |irqs|);
      RefusedTransferAborts(msgs, w, irqs, i);
    } else if |irqs| < Cost(msgs) {
      RunOnTrack(msgs, w, irqs);
      HeadersKept(msgs, irqs, Run(Begin(msgs, w), irqs));
    } else {
      AnsweredTransferCompletes(msgs, w, irqs);
    }
  }

  /**
   A completed transfer seen message by message: its address, then for a write its bytes, and for a
   read one acknowledge per byte, withheld on the last byte only.
   */
  lemma CompletedWire(msgs: seq<Msg>, w: seq<Event>, irqs: seq<Irq>, c: nat, j: nat)
    requires c < |msgs| && j <= |msgs[c].buf|
    ensures var p := |w| + Off(msgs, c) + j; var wire := Completed(msgs, w, irqs).wire;
            p < |wire| - 1 && wire[p] == EventOf(msgs[c], j)
  {
    EventAt(msgs, |msgs|, c, j);
    OnWire(w, Trace(msgs), Off(msgs, c) + j);
  }

  lemma OnWire(w: seq<Event>, t: seq<Event>, n: nat)
    requires n < |t|
    ensures (w + t + [Stopped])[|w| + n] == t[n]
  {
  }

  /** ... and its buffer: a read holds the bytes of its data interrupts in order, a write is untouched. */
  lemma CompletedBuffer(msgs: seq<Msg>, w: seq<Event>, irqs: seq<Irq>, c: nat)
    requires c < |msgs| && |irqs| == Cost(msgs)
    ensures var m := Completed(msgs, w, irqs).msgs[c];
            if msgs[c].rd then |m.buf| == |msgs[c].buf|
                 && Off(msgs, c) + |m.buf| < |irqs|
                 && forall j :: 0 <= j < |m.buf| ==> m.buf[j] == irqs[Off(msgs, c) + 1 + j].data
            else m == msgs[c]
  {
    OffGrows(msgs, c, |msgs|);
    FilledBytes(msgs[c], irqs, Off(msgs, c));
  }

  lemma FilledBytes(m: Msg, irqs: seq<Irq>, off: nat)
    requires off + |m.buf| < |irqs|
    ensures var f := FilledTo(m, irqs, off, |m.buf|);
            if m.rd then |f.buf| == |m.buf| && forall j :: 0 <= j < |f.buf| ==> f.buf[j] == irqs[off + 1 + j].data
            else f == m
  {
  }
}
