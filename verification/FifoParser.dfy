/**
 Decoding of the sensor FIFO after a watermark interrupt (`demo_handle_wtm_irq_event`).

 The FIFO is a stream of 6-byte frames. With both sensors enabled every accelerometer frame is
 followed by a gyroscope frame. Placeholder frames are marked by their first word, and the word
 0x8000 ends the stream.
 */
module FifoParser {
  import opened Basics

  type int16 = x: int | -0x8000 <= x < 0x8000

  datatype Sensor = Acc | Gyr
  datatype Vec = Vec(x: int16, y: int16, z: int16)
  datatype Sample = Sample(sensor: Sensor, data: Vec)

  // ----- Words -----

  /** (int16_t)(lo | hi << 8) */
  function Word(lo: byte, hi: byte): int16 {
    var u := lo + 256 * hi;
    if u < 0x8000 then u else u - 0x1_0000
  }

  function WordBytes(w: int16): (s: seq<byte>)
    ensures |s| == 2 && Word(s[0], s[1]) == w
  {
    var u := if w < 0 then w + 0x1_0000 else w;
    [u % 256, u / 256]
  }

  const TERMINATOR: int16 := -0x8000

  /** The first word of a placeholder frame. */
  function Marker(s: Sensor): int16 {
    match s case Acc => 0x7f01 case Gyr => 0x7f02
  }

  // ----- What a buffer means -----

  /** How the parser disposes of a stretch of the buffer. */
  datatype Token =
    | Published(sensor: Sensor, raw: seq<byte>)
    | Placeholder(sensor: Sensor, raw: seq<byte>)
    | Dropped(raw: seq<byte>)
    | Unread(raw: seq<byte>)

  predicate Ends(b: seq<byte>) {
    |b| >= 2 && Word(b[0], b[1]) == TERMINATOR
  }

  function Frame(s: Sensor, b: seq<byte>): (r: (seq<Token>, seq<byte>))
    ensures |r.1| <= |b| && (b != [] ==> |r.1| < |b|)
  {
    if |b| >= 6 then
      if Word(b[0], b[1]) == Marker(s) then ([Placeholder(s, b[..6])], b[6..])
      else ([Published(s, b[..6])], b[6..])
    else if b == [] then ([], [])
    else ([Dropped(b)], [])
  }

  function OptFrame(on: bool, s: Sensor, b: seq<byte>): (r: (seq<Token>, seq<byte>))
    ensures |r.1| <= |b| && (on && b != [] ==> |r.1| < |b|)
  {
    if on then Frame(s, b) else ([], b)
  }

  /** What one pass of the loop leaves of the buffer. */
  function Pass(b: seq<byte>, acc: bool, gyr: bool): seq<byte> {
    OptFrame(gyr, Gyr, OptFrame(acc, Acc, b).1).1
  }

  /** The loop ends on this buffer: it makes progress, or has nothing to do. */
  predicate Terminates(b: seq<byte>, acc: bool, gyr: bool) {
    acc || gyr || b == [] || Ends(b)
  }

  function Decode(b: seq<byte>, acc: bool, gyr: bool): seq<Token>
    requires Terminates(b, acc, gyr)
    decreases |b|
  {
    if b == [] then []
    else if Ends(b) then [Unread(b)]
    else
      var (ta, ba) := OptFrame(acc, Acc, b);
      var (tg, bg) := OptFrame(gyr, Gyr, ba);
      ta + tg + Decode(bg, acc, gyr)
  }

  function FrameData(raw: seq<byte>): Vec
    requires |raw| == 6
  {
    Vec(Word(raw[0], raw[1]), Word(raw[2], raw[3]), Word(raw[4], raw[5]))
  }

  /** The samples that are sent to the clients. */
  function Samples(ts: seq<Token>): seq<Sample> {
    if ts == [] then []
    else TokenSamples(ts[0]) + Samples(ts[1..])
  }

  function TokenSamples(t: Token): seq<Sample> {
    if t.Published? && |t.raw| == 6 then [Sample(t.sensor, FrameData(t.raw))] else []
  }

  lemma Assoc<T>(a: seq<T>, b: seq<T>, c: seq<T>)
    ensures (a + b) + c == a + (b + c)
  {
  }

  lemma {:induction false} SamplesConcat(s: seq<Token>, t: seq<Token>)
    ensures Samples(s + t) == Samples(s) + Samples(t)
  {
    if s == [] {
      assert s + t == t;
    } else {
      SamplesConcat(s[1..], t);
      assert (s + t)[0] == s[0] && (s + t)[1..] == s[1..] + t;
      Assoc(TokenSamples(s[0]), Samples(s[1..]), Samples(t));
    }
  }

  // ----- The loop -----

  /** The two-byte comparisons of the parser are comparisons of words. */
  lemma WordIs(lo: byte, hi: byte)
    ensures Word(lo, hi) == TERMINATOR <==> lo == 0x00 && hi == 0x80
    ensures Word(lo, hi) == Marker(Acc) <==> lo == 0x01 && hi == 0x7f
    ensures Word(lo, hi) == Marker(Gyr) <==> lo == 0x02 && hi == 0x7f
  {
  }

  /** The part of the buffer that still counts: `fifoLen` drops to 0 when a short tail is given up. */
  ghost predicate Remaining(buf: seq<byte>, i: nat, fifoLen: nat, rest: seq<byte>) {
    i <= |buf| && |rest| == fifoLen && fifoLen % 2 == 0 && (fifoLen > 0 ==> rest == buf[i..])
  }

  // the branch for one sensor
  method TakeFrame(s: Sensor, buf: seq<byte>, i: nat, fifoLen: nat, ghost rest: seq<byte>)
      returns (j: nat, left: nat, out: seq<Sample>)
    requires Remaining(buf, i, fifoLen, rest)
    ensures Remaining(buf, j, left, Frame(s, rest).1)
    ensures out == Samples(Frame(s, rest).0)
  {
    j, left, out := i, fifoLen, [];
    if fifoLen >= 6 {
      assert rest[..6] == buf[i..i + 6] && rest[6..] == buf[i + 6..];
      WordIs(buf[i], buf[i + 1]);
      if buf[i] == (if s.Acc? then 0x01 else 0x02) && buf[i + 1] == 0x7f {
        j := i + 6;
        left := fifoLen - 6;
      } else {
        out := [Sample(s, FrameData(buf[i..i + 6]))];
        j := i + 6;
        left := fifoLen - 6;
      }
    } else {
      left := 0;
    }
  }

  /** The samples one pass sends, and those of the rest. */
  lemma OnePass(b: seq<byte>, acc: bool, gyr: bool)
    requires Terminates(b, acc, gyr)
    ensures b != [] && !Ends(b) ==>
              Samples(Decode(b, acc, gyr)) == PassSamples(b, acc, gyr) + Samples(Decode(Pass(b, acc, gyr), acc, gyr))
    ensures b == [] || Ends(b) ==> Samples(Decode(b, acc, gyr)) == []
  {
    if b != [] && !Ends(b) {
      var ra := OptFrame(acc, Acc, b);
      var rg := OptFrame(gyr, Gyr, ra.1);
      SamplesConcat(ra.0 + rg.0, Decode(rg.1, acc, gyr));
      SamplesConcat(ra.0, rg.0);
    }
  }

  lemma MoreSent(sent: seq<Sample>, out: seq<Sample>, later: seq<Sample>)
    ensures (sent + out) + later == sent + (out + later)
  {
  }

  function PassSamples(b: seq<byte>, acc: bool, gyr: bool): seq<Sample> {
    var ra := OptFrame(acc, Acc, b);
    Samples(ra.0) + Samples(OptFrame(gyr, Gyr, ra.1).0)
  }

  // the two sensor branches of one pass
  method TakeFrames(buf: seq<byte>, i: nat, fifoLen: nat, acc: bool, gyr: bool, ghost rest: seq<byte>)
      returns (j: nat, left: nat, out: seq<Sample>)
    requires Remaining(buf, i, fifoLen, rest)
    ensures Remaining(buf, j, left, Pass(rest, acc, gyr))
    ensures out == PassSamples(rest, acc, gyr)
  {
    j, left, out := i, fifoLen, [];
    ghost var ra := OptFrame(acc, Acc, rest);
    if acc {
      j, left, out := TakeFrame(Acc, buf, j, left, rest);
    }
    if gyr {
      var more;
      j, left, more := TakeFrame(Gyr, buf, j, left, ra.1);
      out := out + more;
    }
  }

  /** While there is data, the two-byte test sees the terminator; behind the data its outcome is harmless. */
  lemma ReadsEnd(buf: seq<byte>, past: seq<byte>, i: nat, fifoLen: nat, rest: seq<byte>)
    requires Remaining(buf, i, fifoLen, rest) && |past| == 2
    ensures rest != [] ==> |rest| >= 2 && (Ends(rest) <==> (buf + past)[i] == 0x00 && (buf + past)[i + 1] == 0x80)
    ensures rest != [] ==> (buf + past)[i] == buf[i] && (buf + past)[i + 1] == buf[i + 1]
  {
    if rest != [] {
      WordIs(rest[0], rest[1]);
    }
  }

  // `past` are the two bytes in memory behind the buffer, which the last test may look at
  method HandleWatermark(buf: seq<byte>, past: seq<byte>, acc: bool, gyr: bool) returns (sent: seq<Sample>)
    requires |buf| % 2 == 0 && |past| == 2 && Terminates(buf, acc, gyr)
    ensures sent == Samples(Decode(buf, acc, gyr))
  {
    sent := [];
    var i: nat, fifoLen: nat := 0, |buf|;
    ghost var rest := buf;
    var memory := buf + past;
    while fifoLen > 0
      invariant Remaining(buf, i, fifoLen, rest) && Terminates(rest, acc, gyr)
      invariant sent + Samples(Decode(rest, acc, gyr)) == Samples(Decode(buf, acc, gyr))
      decreases fifoLen
    {
      ReadsEnd(buf, past, i, fifoLen, rest);
      OnePass(rest, acc, gyr);
      if buf[i] == 0x00 && buf[i + 1] == 0x80 {
        break;
      }
      var out;
      i, fifoLen, out := TakeFrames(buf, i, fifoLen, acc, gyr, rest);
      rest := Pass(rest, acc, gyr);
      MoreSent(sent, out, Samples(Decode(rest, acc, gyr)));
      sent := sent + out;
      ReadsEnd(buf, past, i, fifoLen, rest);
      OnePass(rest, acc, gyr);
      if memory[i] == 0x00 && memory[i + 1] == 0x80 {
        break;
      }
    }
  }

  /** The buffer after `n` passes of the loop. */
  function Passes(b: seq<byte>, acc: bool, gyr: bool, n: nat): seq<byte>
    decreases n
  {
    if n == 0 || b == [] || Ends(b) then b else Passes(Pass(b, acc, gyr), acc, gyr, n - 1)
  }

  /** Otherwise the loop never ends: the buffer that stops it is reached if and only if `Terminates` holds. */
  lemma {:induction false} EndsIff(b: seq<byte>, acc: bool, gyr: bool)
    ensures Terminates(b, acc, gyr) <==> exists n: nat :: (var e := Passes(b, acc, gyr, n); e == [] || Ends(e))
  {
    if acc || gyr {
      EnoughPasses(b, acc, gyr, |b|);
    } else if b == [] || Ends(b) {
      assert Passes(b, acc, gyr, 0) == b;
    } else {
      forall n: nat
        ensures Passes(b, acc, gyr, n) == b
      {
        StandsStill(b, n);
      }
    }
  }

  lemma {:induction false} EnoughPasses(b: seq<byte>, acc: bool, gyr: bool, n: nat)
    requires (acc || gyr) && |b| <= n
    ensures var e := Passes(b, acc, gyr, n); e == [] || Ends(e)
    decreases n
  {
    if n > 0 && b != [] && !Ends(b) {
      EnoughPasses(Pass(b, acc, gyr), acc, gyr, n - 1);
    }
  }

  lemma {:induction false} StandsStill(b: seq<byte>, n: nat)
    ensures Passes(b, false, false, n) == b
    decreases n
  {
    if n > 0 && b != [] && !Ends(b) {
      StandsStill(b, n - 1);
    }
  }

  // ----- Every byte is accounted for -----

  function Bytes(ts: seq<Token>): seq<byte> {
    if ts == [] then [] else ts[0].raw + Bytes(ts[1..])
  }

  lemma {:induction false} BytesConcat(s: seq<Token>, t: seq<Token>)
    ensures Bytes(s + t) == Bytes(s) + Bytes(t)
  {
    if s == [] {
      assert s + t == t;
    } else {
      BytesConcat(s[1..], t);
      assert (s + t)[0] == s[0] && (s + t)[1..] == s[1..] + t;
      Assoc(s[0].raw, Bytes(s[1..]), Bytes(t));
    }
  }

  lemma OptFrameBytes(on: bool, s: Sensor, b: seq<byte>)
    ensures Bytes(OptFrame(on, s, b).0) + OptFrame(on, s, b).1 == b
  {
    var t := OptFrame(on, s, b).0;
    if t != [] {
      assert t[1..] == [];
    }
  }

  /** The tokens are a partition of the buffer, in order. */
  lemma {:induction false} EveryByteAccounted(b: seq<byte>, acc: bool, gyr: bool)
    requires acc || gyr
    ensures Bytes(Decode(b, acc, gyr)) == b
    decreases |b|
  {
    if b != [] && !Ends(b) {
      var ra := OptFrame(acc, Acc, b);
      var rg := OptFrame(gyr, Gyr, ra.1);
      OptFrameBytes(acc, Acc, b);
      OptFrameBytes(gyr, Gyr, ra.1);
      EveryByteAccounted(rg.1, acc, gyr);
      BytesConcat(ra.0 + rg.0, Decode(rg.1, acc, gyr));
      BytesConcat(ra.0, rg.0);
    } else if b != [] {
      assert Decode(b, acc, gyr)[1..] == [];
    }
  }

  /** What each kind of token may contain. */
  predicate Proper(t: Token, acc: bool, gyr: bool) {
    match t
    case Published(s, raw) => |raw| == 6 && Word(raw[0], raw[1]) != Marker(s) && (if s.Acc? then acc else gyr)
    case Placeholder(s, raw) => |raw| == 6 && Word(raw[0], raw[1]) == Marker(s) && (if s.Acc? then acc else gyr)
    case Dropped(raw) => 0 < |raw| < 6
    case Unread(raw) => Ends(raw)
  }

  lemma {:induction false} TokensAreProper(b: seq<byte>, acc: bool, gyr: bool)
    requires acc || gyr
    ensures forall t :: t in Decode(b, acc, gyr) ==> Proper(t, acc, gyr)
    decreases |b|
  {
    if b != [] && !Ends(b) {
      TokensAreProper(Pass(b, acc, gyr), acc, gyr);
    }
  }

  // ----- Encoding, and back -----

  /** One round of the stream: a sample or a placeholder for each enabled sensor. */
  datatype Slot = Slot(acc: Option<Vec>, gyr: Option<Vec>)

  function EncodeFrame(s: Sensor, v: Option<Vec>): (b: seq<byte>)
    ensures |b| == 6
  {
    var d := if v.Some? then v.value else Vec(Marker(s), TERMINATOR, TERMINATOR);
    WordBytes(d.x) + WordBytes(d.y) + WordBytes(d.z)
  }

  function EncodeSlot(t: Slot, acc: bool, gyr: bool): (b: seq<byte>)
    ensures acc || gyr ==> b != []
  {
    (if acc then EncodeFrame(Acc, t.acc) else []) + (if gyr then EncodeFrame(Gyr, t.gyr) else [])
  }

  function Encode(ts: seq<Slot>, acc: bool, gyr: bool, tail: seq<byte>): seq<byte> {
    if ts == [] then tail else EncodeSlot(ts[0], acc, gyr) + Encode(ts[1..], acc, gyr, tail)
  }

  function SlotSamples(t: Slot, acc: bool, gyr: bool): seq<Sample> {
    (if acc && t.acc.Some? then [Sample(Acc, t.acc.value)] else [])
    + (if gyr && t.gyr.Some? then [Sample(Gyr, t.gyr.value)] else [])
  }

  function AllSamples(ts: seq<Slot>, acc: bool, gyr: bool): seq<Sample> {
    if ts == [] then [] else SlotSamples(ts[0], acc, gyr) + AllSamples(ts[1..], acc, gyr)
  }

  /** No sample looks like a mark: the first word of the slot is not the terminator, no frame is a placeholder. */
  predicate Clean(t: Slot, acc: bool, gyr: bool) {
    && (acc && t.acc.Some? ==> t.acc.value.x != TERMINATOR && t.acc.value.x != Marker(Acc))
    && (gyr && t.gyr.Some? ==> t.gyr.value.x != Marker(Gyr) && (!acc ==> t.gyr.value.x != TERMINATOR))
  }

  predicate AllClean(ts: seq<Slot>, acc: bool, gyr: bool) {
    forall i :: 0 <= i < |ts| ==> Clean(ts[i], acc, gyr)
  }

  /**
   How a stream may end behind its slots: with bytes too few for a frame, with the terminator, or, if
   both sensors are enabled, inside a slot, after its accelerometer frame.
   */
  datatype Tail = Short(bytes: seq<byte>) | Terminated(bytes: seq<byte>) | Half(acc: Option<Vec>, bytes: seq<byte>)

  predicate GoodTail(tail: Tail, acc: bool, gyr: bool) {
    match tail
    case Short(b) => |b| < 6
    case Terminated(b) => Ends(b)
    case Half(_, b) => acc && gyr && |b| < 6
  }

  function TailBytes(tail: Tail): seq<byte> {
    match tail
    case Short(b) => b
    case Terminated(b) => b
    case Half(v, b) => EncodeFrame(Acc, v) + b
  }

  function TailSamples(tail: Tail): seq<Sample> {
    if tail.Half? && tail.acc.Some? then [Sample(Acc, tail.acc.value)] else []
  }

  predicate CleanTail(tail: Tail) {
    tail.Half? && tail.acc.Some? ==> tail.acc.value.x != TERMINATOR && tail.acc.value.x != Marker(Acc)
  }

  lemma FrameOfEncoded(s: Sensor, v: Option<Vec>, rest: seq<byte>)
    ensures var b := EncodeFrame(s, v) + rest;
            Frame(s, b).1 == rest
            && Samples(Frame(s, b).0) == if v.Some? && v.value.x != Marker(s) then [Sample(s, v.value)] else []
    ensures var b := EncodeFrame(s, v) + rest; Word(b[0], b[1]) == if v.Some? then v.value.x else Marker(s)
  {
    var b := EncodeFrame(s, v) + rest;
    assert b[6..] == rest && b[..6] == EncodeFrame(s, v);
    var t := Frame(s, b).0;
    assert t[1..] == [];
  }

  /** The slot starts with the terminator, so that the parser stops in front of it. */
  predicate Stops(t: Slot, acc: bool, gyr: bool) {
    if acc then t.acc.Some? && t.acc.value.x == TERMINATOR
    else gyr && t.gyr.Some? && t.gyr.value.x == TERMINATOR
  }

  /** The samples of a slot that are not taken for placeholders. */
  function Kept(t: Slot, acc: bool, gyr: bool): seq<Sample> {
    (if acc && t.acc.Some? && t.acc.value.x != Marker(Acc) then [Sample(Acc, t.acc.value)] else [])
    + (if gyr && t.gyr.Some? && t.gyr.value.x != Marker(Gyr) then [Sample(Gyr, t.gyr.value)] else [])
  }

  function Delivered(ts: seq<Slot>, acc: bool, gyr: bool, tail: Tail): seq<Sample> {
    if ts == [] then (if CleanTail(tail) then TailSamples(tail) else [])
    else if Stops(ts[0], acc, gyr) then []
    else Kept(ts[0], acc, gyr) + Delivered(ts[1..], acc, gyr, tail)
  }

  lemma PassOfSlot(t: Slot, acc: bool, gyr: bool, rest: seq<byte>)
    requires acc || gyr
    ensures var b := EncodeSlot(t, acc, gyr) + rest;
            && (Ends(b) <==> Stops(t, acc, gyr))
            && Pass(b, acc, gyr) == rest && PassSamples(b, acc, gyr) == Kept(t, acc, gyr)
  {
    var ga := if gyr then EncodeFrame(Gyr, t.gyr) else [];
    if acc {
      Assoc(EncodeFrame(Acc, t.acc), ga, rest);
      FrameOfEncoded(Acc, t.acc, ga + rest);
    } else {
      assert EncodeSlot(t, acc, gyr) == EncodeFrame(Gyr, t.gyr);
    }
    if gyr {
      FrameOfEncoded(Gyr, t.gyr, rest);
    } else {
      assert ga + rest == rest;
    }
  }

  lemma DecodeTail(tail: Tail, acc: bool, gyr: bool)
    requires (acc || gyr) && GoodTail(tail, acc, gyr)
    ensures Samples(Decode(TailBytes(tail), acc, gyr)) == if CleanTail(tail) then TailSamples(tail) else []
  {
    match tail
    case Short(b) => DecodeShort(b, acc, gyr);
    case Terminated(b) => OnePass(b, acc, gyr);
    case Half(v, b) => DecodeHalf(v, b);
  }

  lemma DecodeShort(b: seq<byte>, acc: bool, gyr: bool)
    requires (acc || gyr) && |b| < 6
    ensures Samples(Decode(b, acc, gyr)) == []
  {
    OnePass(b, acc, gyr);
    if b != [] && !Ends(b) {
      assert Pass(b, acc, gyr) == [];
      assert Samples([Dropped(b)]) == [];
    }
  }

  lemma DecodeHalf(v: Option<Vec>, b: seq<byte>)
    requires |b| < 6
    ensures var seen := v.Some? && v.value.x != TERMINATOR && v.value.x != Marker(Acc);
            Samples(Decode(EncodeFrame(Acc, v) + b, true, true)) == if seen then [Sample(Acc, v.value)] else []
  {
    var all := EncodeFrame(Acc, v) + b;
    FrameOfEncoded(Acc, v, b);
    OnePass(all, true, true);
    if !Ends(all) {
      assert Frame(Gyr, b).1 == [] && Samples(Frame(Gyr, b).0) == [] by {
        if b != [] { assert Samples([Dropped(b)]) == []; }
      }
      assert Samples(Decode([], true, true)) == [];
    }
  }

  /** What decoding delivers of any encoded stream. */
  lemma {:induction false} DecodeEncoded(ts: seq<Slot>, acc: bool, gyr: bool, tail: Tail)
    requires (acc || gyr) && GoodTail(tail, acc, gyr)
    ensures Samples(Decode(Encode(ts, acc, gyr, TailBytes(tail)), acc, gyr)) == Delivered(ts, acc, gyr, tail)
    decreases |ts|
  {
    if ts == [] {
      DecodeTail(tail, acc, gyr);
    } else {
      var b := Encode(ts, acc, gyr, TailBytes(tail));
      PassOfSlot(ts[0], acc, gyr, Encode(ts[1..], acc, gyr, TailBytes(tail)));
      OnePass(b, acc, gyr);
      DecodeEncoded(ts[1..], acc, gyr, tail);
    }
  }

  lemma {:induction false} DeliveredCount(ts: seq<Slot>, acc: bool, gyr: bool, tail: Tail)
    ensures |Delivered(ts, acc, gyr, tail)| <= |AllSamples(ts, acc, gyr) + TailSamples(tail)|
    ensures |Delivered(ts, acc, gyr, tail)| == |AllSamples(ts, acc, gyr) + TailSamples(tail)|
            ==> AllClean(ts, acc, gyr) && CleanTail(tail)
    ensures AllClean(ts, acc, gyr) && CleanTail(tail)
            ==> Delivered(ts, acc, gyr, tail) == AllSamples(ts, acc, gyr) + TailSamples(tail)
  {
    if ts != [] {
      DeliveredCount(ts[1..], acc, gyr, tail);
      Assoc(SlotSamples(ts[0], acc, gyr), AllSamples(ts[1..], acc, gyr), TailSamples(tail));
      assert Clean(ts[0], acc, gyr) <==>
        !Stops(ts[0], acc, gyr) && |Kept(ts[0], acc, gyr)| == |SlotSamples(ts[0], acc, gyr)|;
      assert AllClean(ts, acc, gyr) <==> Clean(ts[0], acc, gyr) && AllClean(ts[1..], acc, gyr) by {
        assert forall i :: 0 < i < |ts| ==> ts[i] == ts[1..][i - 1];
        assert forall i :: 0 <= i < |ts| - 1 ==> ts[1..][i] == ts[i + 1];
      }
    }
  }

  /**
   Decoding gives back exactly the encoded samples if and only if no sample looks like a mark: an
   accelerometer frame must not begin with 0x8000 or 0x7f01, a gyroscope frame not with 0x7f02, and
   not with 0x8000 when it is the only sensor.
   */
  lemma RoundTripIff(ts: seq<Slot>, acc: bool, gyr: bool, tail: Tail)
    requires (acc || gyr) && GoodTail(tail, acc, gyr)
    ensures var b := Encode(ts, acc, gyr, TailBytes(tail));
            (Samples(Decode(b, acc, gyr)) == AllSamples(ts, acc, gyr) + TailSamples(tail))
            <==> (AllClean(ts, acc, gyr) && CleanTail(tail))
  {
    DecodeEncoded(ts, acc, gyr, tail);
    DeliveredCount(ts, acc, gyr, tail);
  }

  /** Every buffer is such a stream: there is nothing the parser can be given that these theorems do not cover. */
  lemma {:induction false} EveryBufferIsAStream(b: seq<byte>, acc: bool, gyr: bool) returns (ts: seq<Slot>, tail: Tail)
    requires acc || gyr
    ensures GoodTail(tail, acc, gyr) && Encode(ts, acc, gyr, TailBytes(tail)) == b
    decreases |b|
  {
    var n := if acc && gyr then 12 else 6;
    if |b| < n {
      ts := [];
      if |b| < 6 {
        tail := Short(b);
      } else {
        var v := VecOf(b[..6]);
        tail := Half(Some(v), b[6..]);
        assert b == b[..6] + b[6..];
      }
    } else {
      var first := b[..n];
      var more;
      more, tail := EveryBufferIsAStream(b[n..], acc, gyr);
      var t := SlotOf(first, acc, gyr);
      ts := [t] + more;
      assert ts[1..] == more && b == first + b[n..];
    }
  }

  lemma VecOf(b: seq<byte>) returns (v: Vec)
    requires |b| == 6
    ensures forall s: Sensor :: EncodeFrame(s, Some(v)) == b
  {
    v := FrameData(b);
    WordOf(b[0], b[1]);
    WordOf(b[2], b[3]);
    WordOf(b[4], b[5]);
  }

  lemma WordOf(lo: byte, hi: byte)
    ensures WordBytes(Word(lo, hi)) == [lo, hi]
  {
  }

  lemma SlotOf(b: seq<byte>, acc: bool, gyr: bool) returns (t: Slot)
    requires (acc || gyr) && |b| == if acc && gyr then 12 else 6
    ensures EncodeSlot(t, acc, gyr) == b
  {
    var v := VecOf(b[..6]);
    assert b == b[..6] + b[6..];
    if acc && gyr {
      var u := VecOf(b[6..]);
      t := Slot(Some(v), Some(u));
    } else {
      t := Slot(Some(v), Some(v));
    }
  }
}
