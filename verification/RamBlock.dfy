/**
 The RAM disk: draining a request queue, and why the elevator may reorder it.
 */
module RamBlock {
  import opened Basics

  const SECTOR := 512
  const RAMBLOCK_SIZE := 1024 * 1024

  // ----- What a queue of requests does -----

  /** One request: `count` sectors from `sector` on. A write carries its data; `id` names the buffer. */
  datatype Req = Req(id: nat, sector: nat, count: nat, write: bool, data: seq<byte>) {
    function From(): nat { sector * SECTOR }
    function Until(): nat { (sector + count) * SECTOR }
    predicate Covers(p: int) { From() <= p < Until() }
    predicate Fits(size: nat) { Until() <= size && (write ==> |data| == count * SECTOR) }
  }

  /** The disk, and what the read requests have fetched. */
  datatype St = St(disk: seq<byte>, got: map<nat, seq<byte>>)

  ghost predicate AllFit(q: seq<Req>, size: nat) {
    forall i :: 0 <= i < |q| ==> q[i].Fits(size)
  }

  function Step(st: St, r: Req): (t: St)
    requires r.Fits(|st.disk|)
    ensures |t.disk| == |st.disk|
  {
    if r.write then st.(disk := st.disk[..r.From()] + r.data + st.disk[r.Until()..])
    else st.(got := st.got[r.id := st.disk[r.From()..r.Until()]])
  }

  function Run(st: St, q: seq<Req>): (t: St)
    requires AllFit(q, |st.disk|)
    ensures |t.disk| == |st.disk|
    decreases |q|
  {
    if q == [] then st else Run(Step(st, q[0]), q[1..])
  }

  lemma {:induction false} RunConcat(st: St, p: seq<Req>, q: seq<Req>)
    requires AllFit(p, |st.disk|) && AllFit(q, |st.disk|)
    ensures AllFit(p + q, |st.disk|)
    ensures Run(st, p + q) == Run(Run(st, p), q)
    decreases |p|
  {
    if p == [] {
      assert p + q == q;
    } else {
      RunConcat(Step(st, p[0]), p[1..], q);
      assert (p + q)[0] == p[0] && (p + q)[1..] == p[1..] + q;
    }
  }

  // ----- The disk as a map -----

  /** The byte at `p` after `q`: that of the last write covering it, else the one from before. */
  function ByteAfter(before: byte, q: seq<Req>, p: nat): byte {
    if q == [] then before
    else
      var r := q[|q| - 1];
      if r.write && r.Covers(p) && |r.data| == r.count * SECTOR then r.data[p - r.From()]
      else ByteAfter(before, q[..|q| - 1], p)
  }

  lemma {:induction false} DiskIsLastWrite(st: St, q: seq<Req>, p: nat)
    requires AllFit(q, |st.disk|) && p < |st.disk|
    ensures Run(st, q).disk[p] == ByteAfter(st.disk[p], q, p)
  {
    if q != [] {
      var front, r := q[..|q| - 1], q[|q| - 1];
      DiskIsLastWrite(st, front, p);
      RunConcat(st, front, [r]);
      assert front + [r] == q;
      assert Run(Run(st, front), [r]) == Step(Run(st, front), r) by { assert [r][1..] == []; }
    }
  }

  ghost predicate UniqueIds(q: seq<Req>) {
    forall i, j :: 0 <= i < j < |q| ==> q[i].id != q[j].id
  }

  lemma {:induction false} GotIsKept(st: St, q: seq<Req>, id: nat)
    requires AllFit(q, |st.disk|) && id in st.got
    requires forall i :: 0 <= i < |q| ==> q[i].id != id
    ensures id in Run(st, q).got && Run(st, q).got[id] == st.got[id]
    decreases |q|
  {
    if q != [] {
      GotIsKept(Step(st, q[0]), q[1..], id);
    }
  }

  lemma RunAt(st: St, q: seq<Req>, k: nat)
    requires AllFit(q, |st.disk|) && k < |q|
    ensures Run(st, q) == Run(Step(Run(st, q[..k]), q[k]), q[k + 1..])
  {
    var rest := q[k..];
    assert q == q[..k] + rest;
    RunConcat(st, q[..k], rest);
    assert rest[0] == q[k] && rest[1..] == q[k + 1..];
  }

  /** A read fetches, byte by byte, what the writes queued before it have left. */
  lemma ReadSeesEarlierWrites(st: St, q: seq<Req>, k: nat, j: nat)
    requires AllFit(q, |st.disk|) && UniqueIds(q) && k < |q| && !q[k].write && j < q[k].count * SECTOR
    ensures q[k].id in Run(st, q).got && |Run(st, q).got[q[k].id]| == q[k].count * SECTOR
    ensures Run(st, q).got[q[k].id][j] == ByteAfter(st.disk[q[k].From() + j], q[..k], q[k].From() + j)
  {
    RunAt(st, q, k);
    GotIsKept(Step(Run(st, q[..k]), q[k]), q[k + 1..], q[k].id);
    DiskIsLastWrite(st, q[..k], q[k].From() + j);
  }

  // ----- Reordering -----

  /** Two requests conflict when they share a sector and one of them writes. */
  predicate Conflict(a: Req, b: Req) {
    && (a.write || b.write)
    && a.count > 0 && b.count > 0
    && a.sector < b.sector + b.count && b.sector < a.sector + a.count
  }

  /** That is, when they share a byte and one of them writes. */
  lemma ConflictIff(a: Req, b: Req)
    ensures Conflict(a, b) <==> (a.write || b.write) && exists p: int :: a.Covers(p) && b.Covers(p)
  {
    if a.count > 0 && b.count > 0 && a.sector < b.sector + b.count && b.sector < a.sector + a.count {
      var s := if a.sector < b.sector then b.sector else a.sector;
      assert a.Covers(s * SECTOR) && b.Covers(s * SECTOR);
    }
  }

  lemma WrittenByte(st: St, r: Req, p: nat)
    requires r.Fits(|st.disk|) && p < |st.disk|
    ensures Step(st, r).disk[p] == if r.write && r.Covers(p) then r.data[p - r.From()] else st.disk[p]
  {
  }

  lemma NoSharedByte(a: Req, b: Req, p: nat)
    requires (a.write || b.write) && !Conflict(a, b)
    ensures !(a.Covers(p) && b.Covers(p))
  {
  }

  /** Requests that do not conflict can be served in either order. */
  lemma Commute(st: St, a: Req, b: Req)
    requires a.Fits(|st.disk|) && b.Fits(|st.disk|) && !Conflict(a, b) && a.id != b.id
    ensures Step(Step(st, a), b) == Step(Step(st, b), a)
  {
    var x, y := Step(Step(st, a), b), Step(Step(st, b), a);
    forall p | 0 <= p < |st.disk|
      ensures x.disk[p] == y.disk[p]
    {
      WrittenByte(st, a, p);
      WrittenByte(st, b, p);
      WrittenByte(Step(st, a), b, p);
      WrittenByte(Step(st, b), a, p);
      if a.write && b.write { NoSharedByte(a, b, p); }
    }
    assert x.disk == y.disk;
    ReadUndisturbed(st, a, b);
    ReadUndisturbed(st, b, a);
    assert x.got == y.got;
  }

  lemma ReadUndisturbed(st: St, w: Req, r: Req)
    requires w.Fits(|st.disk|) && r.Fits(|st.disk|) && !Conflict(w, r)
    ensures !r.write ==> Step(st, w).disk[r.From()..r.Until()] == st.disk[r.From()..r.Until()]
  {
    if w.write && !r.write {
      forall p | r.From() <= p < r.Until()
        ensures Step(st, w).disk[p] == st.disk[p]
      {
        WrittenByte(st, w, p);
        NoSharedByte(w, r, p);
      }
    }
  }

  /** A request that conflicts with nothing before it may as well be served first. */
  lemma {:induction false} ServeFirst(st: St, q: seq<Req>, k: nat)
    requires AllFit(q, |st.disk|) && UniqueIds(q) && k < |q|
    requires forall i :: 0 <= i < k ==> !Conflict(q[i], q[k])
    ensures AllFit(Without(q, k), |st.disk|)
    ensures Run(st, q) == Run(Step(st, q[k]), Without(q, k))
    decreases k
  {
    var w := Without(q, k);
    if k == 0 {
      assert w == q[1..];
    } else {
      ServeFirst(Step(st, q[0]), q[1..], k - 1);
      assert w[0] == q[0] && w[1..] == Without(q[1..], k - 1);
      Commute(st, q[0], q[k]);
    }
  }

  /** `p` holds the same requests as `q`. */
  ghost predicate SameRequests(q: seq<Req>, p: seq<Req>) {
    UniqueIds(q) && UniqueIds(p) && forall r :: r in p <==> r in q
  }

  /** Conflicting requests stand in `p` in the same order as in `q`. */
  ghost predicate KeepsOrder(q: seq<Req>, p: seq<Req>) {
    forall i, j, k, l :: 0 <= i < j < |q| && 0 <= k < |p| && 0 <= l < |p| && Conflict(q[i], q[j])
      ==> (p[k] == q[i] && p[l] == q[j] ==> k < l)
  }

  /** The request `p` starts with conflicts with nothing before it in `q`. */
  lemma FirstInQueue(q: seq<Req>, p: seq<Req>) returns (k: nat)
    requires SameRequests(q, p) && KeepsOrder(q, p) && p != []
    ensures k < |q| && q[k] == p[0] && forall i :: 0 <= i < k ==> !Conflict(q[i], q[k])
  {
    assert p[0] in p;
    k :| 0 <= k < |q| && q[k] == p[0];
    forall i | 0 <= i < k
      ensures !Conflict(q[i], q[k])
    {
      assert q[i] in q;
      var l :| 0 <= l < |p| && p[l] == q[i];
    }
  }

  /** Every reordering that keeps conflicting requests in order gives the same disk and the same reads. */
  lemma {:induction false} ReorderingIsInvisible(st: St, q: seq<Req>, p: seq<Req>)
    requires AllFit(q, |st.disk|) && SameRequests(q, p) && KeepsOrder(q, p)
    ensures AllFit(p, |st.disk|) && Run(st, p) == Run(st, q)
    decreases |p|
  {
    if q != [] { assert q[0] in q; }
    if p != [] {
      var k := FirstInQueue(q, p);
      ServeFirst(st, q, k);
      TailsMatch(q, p, k);
      ReorderingIsInvisible(Step(st, p[0]), Without(q, k), p[1..]);
    }
  }

  lemma TailsMatch(q: seq<Req>, p: seq<Req>, k: nat)
    requires SameRequests(q, p) && KeepsOrder(q, p) && p != [] && k < |q| && q[k] == p[0]
    ensures SameRequests(Without(q, k), p[1..]) && KeepsOrder(Without(q, k), p[1..])
  {
    TailsInOrder(q, p, k);
    WithoutHasRest(q, k);
    WithoutHasRest(p, 0);
    assert Without(p, 0) == p[1..];
  }

  lemma WithoutHasRest(q: seq<Req>, k: nat)
    requires UniqueIds(q) && k < |q|
    ensures UniqueIds(Without(q, k))
    ensures forall r :: r in Without(q, k) <==> r in q && r != q[k]
  {
    var w := Without(q, k);
    assert forall i :: 0 <= i < |w| ==> w[i] == q[if i < k then i else i + 1];
    forall r | r in q && r != q[k]
      ensures r in w
    {
      var i :| 0 <= i < |q| && q[i] == r;
      assert w[if i < k then i else i - 1] == r;
    }
  }

  lemma TailsInOrder(q: seq<Req>, p: seq<Req>, k: nat)
    requires KeepsOrder(q, p) && p != [] && k < |q|
    ensures KeepsOrder(Without(q, k), p[1..])
  {
    var w, t := Without(q, k), p[1..];
    forall i, j, m, l | 0 <= i < j < |w| && 0 <= m < |t| && 0 <= l < |t| && Conflict(w[i], w[j])
      ensures t[m] == w[i] && t[l] == w[j] ==> m < l
    {
      var i', j' := if i < k then i else i + 1, if j < k then j else j + 1;
      assert w[i] == q[i'] && w[j] == q[j'] && t[m] == p[m + 1] && t[l] == p[l + 1];
      assert p[m + 1] == q[i'] && p[l + 1] == q[j'] ==> m + 1 < l + 1;
    }
  }

  // ----- The driver -----

  class Request {
    const sector: nat
    const count: nat
    const write: bool
    const buffer: array<byte>
    // tells the requests of a queue apart, as their addresses do
    ghost const id: nat

    constructor (sector: nat, count: nat, write: bool, buffer: array<byte>, ghost id: nat)
      ensures this.sector == sector && this.count == count && this.write == write
      ensures this.buffer == buffer && this.id == id
    {
      this.sector, this.count, this.write, this.buffer, this.id := sector, count, write, buffer, id;
    }

    ghost function Abs(): (r: Req)
      reads buffer
    {
      Req(id, sector, count, write, if write then buffer[..] else [])
    }
  }

  ghost function Buffers(q: seq<Request>): set<array<byte>> {
    set i | 0 <= i < |q| :: q[i].buffer
  }

  ghost function AbsQueue(q: seq<Request>): (r: seq<Req>)
    reads Buffers(q)
    ensures |r| == |q| && forall i :: 0 <= i < |q| ==> r[i] == q[i].Abs()
  {
    if q == [] then [] else AbsQueue(q[..|q| - 1]) + [q[|q| - 1].Abs()]
  }

  /** Every request has a number and a buffer of its own, the buffer of the right size, and lies within the disk. */
  ghost predicate GoodQueue(disk: array<byte>, q: seq<Request>) {
    && (forall i, j :: 0 <= i < j < |q| ==> q[i].buffer != q[j].buffer && q[i].id != q[j].id)
    && (forall i :: 0 <= i < |q| ==>
          && q[i].buffer != disk
          && q[i].buffer.Length == q[i].count * SECTOR
          && (q[i].sector + q[i].count) * SECTOR <= disk.Length)
  }

  class RamDisk {
    const buf: array<byte>
    var queue: seq<Request>

    constructor ()
      ensures buf.Length == RAMBLOCK_SIZE && queue == [] && fresh(buf)
    {
      buf := new byte[RAMBLOCK_SIZE](_ => 0);
      queue := [];
    }

    // memcpy between the disk and one request's buffer
    method Serve(req: Request)
      requires GoodQueue(buf, [req])
      modifies buf, req.buffer
      ensures req.Abs().Fits(buf.Length) && old(req.Abs()).Fits(buf.Length)
      ensures buf[..] == Step(St(old(buf[..]), map[]), old(req.Abs())).disk
      ensures if req.write then req.buffer[..] == old(req.buffer[..])
              else req.buffer[..] == old(buf[req.sector * 512..(req.sector + req.count) * 512])
    {
      var offset := req.sector * SECTOR;
      var len := req.count * SECTOR;
      assert [req][0] == req;
      if !req.write {
        Memcpy(req.buffer, 0, buf, offset, len);
      } else {
        Memcpy(buf, offset, req.buffer, 0, len);
      }
    }

    // request number `k` of the queue `all`, whose requests mean `abs`
    method ServeNth(req: Request, ghost all: seq<Request>, ghost abs: seq<Req>, ghost start: St, ghost k: nat)
      requires GoodQueue(buf, all) && k < |all| == |abs| && req == all[k]
      requires AllFit(abs, |start.disk|) && |start.disk| == buf.Length
      requires Unserved(all, abs, k)
      requires Served(all, buf[..], Run(start, abs[..k]), k)
      modifies buf, req.buffer
      ensures Unserved(all, abs, k + 1)
      ensures Served(all, buf[..], Run(start, abs[..k + 1]), k + 1)
    {
      assert GoodQueue(buf, [req]);
      assert req.Abs() == abs[k];
      RunOneMore(start, abs, k);
      StepParts(Run(start, abs[..k]), abs[k]);
      Serve(req);
      assert forall i :: 0 <= i < |all| && (i != k || req.write) ==> all[i].buffer[..] == old(all[i].buffer[..]);
    }

    /** The loop of do_ramblock_request. */
    method Drain(ghost all: seq<Request>, ghost abs: seq<Req>, ghost start: St)
      requires queue == all && GoodQueue(buf, all) && |abs| == |all|
      requires AllFit(abs, buf.Length) && start.disk == buf[..]
      requires Unserved(all, abs, 0)
      modifies this`queue, buf, Buffers(all)
      ensures queue == []
      ensures Unserved(all, abs, |all|)
      ensures Served(all, buf[..], Run(start, abs), |all|)
    {
      ghost var k := 0;
      while queue != []
        invariant k <= |all| && queue == all[k..]
        invariant Unserved(all, abs, k)
        invariant Served(all, buf[..], Run(start, abs[..k]), k)
        decreases |queue|
      {
        var req := queue[0];
        assert req == all[k];
        ServeNth(req, all, abs, start, k);
        k := k + 1;
        queue := queue[1..];
      }
      assert abs[..k] == abs;
    }

    // do_ramblock_request
    method DoRequests()
      requires GoodQueue(buf, queue)
      modifies this`queue, buf, Buffers(queue)
      ensures queue == []
      ensures AllFit(old(AbsQueue(queue)), buf.Length)
      ensures Unserved(old(queue), old(AbsQueue(queue)), |old(queue)|)
      ensures Served(old(queue), buf[..], Run(St(old(buf[..]), map[]), old(AbsQueue(queue))), |old(queue)|)
    {
      AbsFits(buf, queue);
      Drain(queue, AbsQueue(queue), St(buf[..], map[]));
    }
  }

  /** Requests from number `k` on are still what they were, and those that write are to the end. */
  ghost predicate Unserved(q: seq<Request>, abs: seq<Req>, k: nat)
    requires k <= |q| == |abs|
    reads Buffers(q)
  {
    forall i :: 0 <= i < |q| && (k <= i || q[i].write) ==> q[i].Abs() == abs[i]
  }

  /** The disk is as `st` says, and so are the buffers of the first `k` requests that read. */
  ghost predicate Served(q: seq<Request>, disk: seq<byte>, st: St, k: nat)
    requires k <= |q|
    reads Buffers(q)
  {
    disk == st.disk && forall i :: 0 <= i < k && !q[i].write ==> q[i].id in st.got && st.got[q[i].id] == q[i].buffer[..]
  }

  lemma AbsFits(disk: array<byte>, q: seq<Request>)
    requires GoodQueue(disk, q)
    ensures AllFit(AbsQueue(q), disk.Length) && UniqueIds(AbsQueue(q))
  {
  }

  /** A request's effect on the disk does not depend on what was fetched before. */
  lemma StepParts(st: St, r: Req)
    requires r.Fits(|st.disk|)
    ensures Step(st, r).disk == Step(St(st.disk, map[]), r).disk
    ensures Step(st, r).got == if r.write then st.got else st.got[r.id := st.disk[r.From()..r.Until()]]
  {
  }

  lemma RunOneMore(st: St, q: seq<Req>, k: nat)
    requires AllFit(q, |st.disk|) && k < |q|
    ensures Run(st, q[..k + 1]) == Step(Run(st, q[..k]), q[k])
  {
    assert q[..k + 1] == q[..k] + [q[k]];
    RunConcat(st, q[..k], [q[k]]);
    assert [q[k]][1..] == [];
  }

  // ----- Two disks -----

  /** The whole effect of draining the queue `q`, which meant `abs`. */
  ghost predicate Drained(q: seq<Request>, abs: seq<Req>, before: seq<byte>, after: seq<byte>)
    reads Buffers(q)
  {
    && |q| == |abs| && AllFit(abs, |before|)
    && (forall i :: 0 <= i < |q| ==> abs[i].id == q[i].id && abs[i].write == q[i].write)
    && Unserved(q, abs, |q|)
    && Served(q, after, Run(St(before, map[]), abs), |q|)
  }

  /** Draining `d` writes nothing of the disk `other` and of the buffers of `q`. */
  ghost predicate Beside(d: RamDisk, q: seq<Request>, other: array<byte>)
    reads d
  {
    other != d.buf && other !in Buffers(d.queue) && d.buf !in Buffers(q) && Buffers(q) !! Buffers(d.queue)
  }

  // do_ramblock_request on the first disk, while the second waits with its queue `p`
  method DrainFirst(d: RamDisk, ghost q: seq<Request>, ghost p: seq<Request>, ghost other: array<byte>)
    requires q == d.queue && GoodQueue(d.buf, q) && Beside(d, p, other)
    modifies d`queue, d.buf, Buffers(q)
    ensures d.queue == [] && other[..] == old(other[..]) && AbsQueue(p) == old(AbsQueue(p))
    ensures Drained(q, old(AbsQueue(q)), old(d.buf[..]), d.buf[..])
  {
    AbsFits(d.buf, q);
    d.DoRequests();
  }

  // do_ramblock_request on the second, when the first has drained `q`
  method DrainSecond(e: RamDisk, ghost p: seq<Request>, ghost q: seq<Request>, ghost other: array<byte>,
                     ghost abs: seq<Req>, ghost before: seq<byte>)
    requires p == e.queue && GoodQueue(e.buf, p) && Beside(e, q, other)
    requires Drained(q, abs, before, other[..])
    modifies e`queue, e.buf, Buffers(p)
    ensures e.queue == [] && Drained(q, abs, before, other[..])
    ensures Drained(p, old(AbsQueue(p)), old(e.buf[..]), e.buf[..])
  {
    AbsFits(e.buf, p);
    ghost var was := other[..];
    e.DoRequests();
    assert other[..] == was;
  }

  /**
   Two equal disks drain the same requests, one queue in an order of its own that keeps conflicting
   requests in place: the disks end equal, and so do the buffers of each request and its twin.
   */
  method DrainReordered(d: RamDisk, e: RamDisk, ghost q: seq<Request>, ghost p: seq<Request>)
    requires q == d.queue && p == e.queue && d != e && d.buf[..] == e.buf[..]
    requires GoodQueue(d.buf, q) && GoodQueue(e.buf, p) && Beside(d, p, e.buf) && Beside(e, q, d.buf)
    requires SameRequests(AbsQueue(q), AbsQueue(p)) && KeepsOrder(AbsQueue(q), AbsQueue(p))
    modifies d`queue, d.buf, Buffers(q), e`queue, e.buf, Buffers(p)
    ensures d.queue == e.queue == [] && d.buf[..] == e.buf[..] && SameBuffers(q, p)
  {
    ghost var before, absQ, absP := d.buf[..], AbsQueue(q), AbsQueue(p);
    DrainFirst(d, q, p, e.buf);
    DrainSecond(e, p, q, d.buf, absQ, before);
    SameEnd(q, p, absQ, absP, before, d.buf[..], e.buf[..]);
  }

  /** Requests with the same number have the same buffer contents. */
  ghost predicate SameBuffers(q: seq<Request>, p: seq<Request>)
    reads Buffers(q)
    reads Buffers(p)
  {
    forall i, j :: 0 <= i < |q| && 0 <= j < |p| && q[i].id == p[j].id ==> q[i].buffer[..] == p[j].buffer[..]
  }

  lemma SameEnd(q: seq<Request>, p: seq<Request>, absQ: seq<Req>, absP: seq<Req>,
                before: seq<byte>, diskQ: seq<byte>, diskP: seq<byte>)
    requires Drained(q, absQ, before, diskQ) && Drained(p, absP, before, diskP)
    requires SameRequests(absQ, absP) && KeepsOrder(absQ, absP)
    ensures diskQ == diskP && SameBuffers(q, p)
  {
    ReorderingIsInvisible(St(before, map[]), absQ, absP);
    forall i, j | 0 <= i < |q| && 0 <= j < |p| && q[i].id == p[j].id
      ensures q[i].buffer[..] == p[j].buffer[..]
    {
      TwinsMatch(absQ, absP, i, j);
      assert q[i].write ==> q[i].Abs() == absQ[i] && p[j].Abs() == absP[j];
    }
  }

  /** In two queues of the same requests, equal numbers mean equal requests. */
  lemma TwinsMatch(q: seq<Req>, p: seq<Req>, i: nat, j: nat)
    requires SameRequests(q, p) && i < |q| && j < |p| && q[i].id == p[j].id
    ensures q[i] == p[j]
  {
    assert p[j] in p;
    var k :| 0 <= k < |q| && q[k] == p[j];
  }
}
