/**
 The kernel message ring behind /proc/mymsg: writing to a full ring overwrites the oldest character.
 */
module MyLog {
  import opened Basics

  // ----- The ring -----

  function Succ(i: nat, n: nat): (j: nat)
    requires i < n
    ensures j == (i + 1) % n
  {
    if i + 1 == n then 0 else i + 1
  }

  /** Unread characters after a character is put into a ring of `n` cells. */
  function Pushed(unread: seq<char>, c: char, n: nat): seq<char> {
    (if |unread| == n - 1 && unread != [] then unread[1..] else unread) + [c]
  }

  class Log {
    const buf: array<char>
    var r: nat
    var w: nat

    ghost predicate Valid()
      reads this
    {
      2 <= buf.Length && r < buf.Length && w < buf.Length
    }

    /** The unread characters, oldest first. */
    ghost function Unread(): seq<char>
      requires Valid()
      reads this, buf
    {
      if r <= w then buf[r..w] else buf[r..] + buf[..w]
    }

    constructor (n: nat)
      requires n >= 2
      ensures Valid() && buf.Length == n && Unread() == [] && fresh(buf)
    {
      buf := new char[n](_ => ' ');
      r, w := 0, 0;
    }

    // is_mylog_empty
    predicate IsEmpty()
      reads this
    {
      w == r
    }

    // is_mylog_full
    predicate IsFull()
      requires Valid()
      reads this
    {
      (w + 1) % buf.Length == r
    }

    lemma TestsDecide()
      requires Valid()
      ensures |Unread()| <= buf.Length - 1
      ensures IsEmpty() <==> Unread() == []
      ensures IsFull() <==> |Unread()| == buf.Length - 1
    {
      assert Succ(w, buf.Length) == (w + 1) % buf.Length;
    }

    // mylog_putc
    method Putc(c: char)
      requires Valid()
      modifies this`r, this`w, buf
      ensures Valid() && Unread() == Pushed(old(Unread()), c, buf.Length)
    {
      TestsDecide();
      assert Succ(w, buf.Length) == (w + 1) % buf.Length && Succ(r, buf.Length) == (r + 1) % buf.Length;
      if IsFull() {
        r := (r + 1) % buf.Length;
      }
      buf[w] := c;
      w := (w + 1) % buf.Length;
    }

    // mylog_getc
    method Getc() returns (p: Option<char>)
      requires Valid()
      modifies this`r
      ensures Valid()
      ensures old(Unread()) == [] ==> p == None && Unread() == []
      ensures old(Unread()) != [] ==> p == Some(old(Unread())[0]) && Unread() == old(Unread())[1..]
    {
      TestsDecide();
      if IsEmpty() {
        return None;
      }
      assert Succ(r, buf.Length) == (r + 1) % buf.Length;
      p := Some(buf[r]);
      r := (r + 1) % buf.Length;
    }

    /** Any interleaving of the two on an empty ring: what is read and what is left is what the history says. */
    method Replay(ops: seq<Op>) returns (got: seq<char>)
      requires Valid() && Unread() == []
      modifies this`r, this`w, buf
      ensures Valid() && Unread() == Run(ops, buf.Length).Unread()
      ensures got == Run(ops, buf.Length).got
    {
      got := [];
      for i := 0 to |ops|
        invariant Valid() && Unread() == Run(ops[..i], buf.Length).Unread()
        invariant got == Run(ops[..i], buf.Length).got
      {
        assert ops[..i + 1][..i] == ops[..i];
        HistoryFollowsRing(Run(ops[..i], buf.Length), ops[i], buf.Length);
        match ops[i] {
          case Put(c) =>
            Putc(c);
          case Get =>
            var p := Getc();
            if p.Some? { got := got + [p.value]; }
        }
      }
      assert ops[..|ops|] == ops;
    }
  }

  // ----- All interleavings of writers and readers -----

  datatype Op = Put(c: char) | Get

  /** What happened to the character written as number `index`, when `total` had been written. */
  datatype Fate = Fate(index: nat, total: nat)

  /** `lo` characters have left the ring: read, or lost to a newer one. */
  datatype History = History(written: seq<char>, lo: nat, fetches: seq<Fate>, losses: seq<Fate>, got: seq<char>) {
    function Unread(): seq<char>
      requires lo <= |written|
    {
      written[lo..]
    }
  }

  function Apply(h: History, op: Op, n: nat): History
    requires h.lo <= |h.written|
  {
    match op
    case Put(c) =>
      if |h.Unread()| == n - 1 && h.Unread() != [] then
        h.(written := h.written + [c], lo := h.lo + 1, losses := h.losses + [Fate(h.lo, |h.written| + 1)])
      else h.(written := h.written + [c])
    case Get =>
      if h.Unread() == [] then h
      else h.(lo := h.lo + 1, fetches := h.fetches + [Fate(h.lo, |h.written|)], got := h.got + [h.Unread()[0]])
  }

  /** The history follows the ring: its unread suffix changes as Putc and Getc change theirs. */
  lemma HistoryFollowsRing(h: History, op: Op, n: nat)
    requires h.lo <= |h.written| && n >= 2
    ensures var t := Apply(h, op, n);
            t.lo <= |t.written| &&
            match op
            case Put(c) => t.Unread() == Pushed(h.Unread(), c, n)
            case Get => t.Unread() == (if h.Unread() == [] then [] else h.Unread()[1..])
                        && t.got == h.got + (if h.Unread() == [] then [] else [h.Unread()[0]])
  {
  }

  function Run(ops: seq<Op>, n: nat): (h: History)
    ensures h.lo <= |h.written|
  {
    if ops == [] then History([], 0, [], [], [])
    else Apply(Run(ops[..|ops| - 1], n), ops[|ops| - 1], n)
  }

  ghost predicate Increasing(fs: seq<Fate>) {
    forall i, j :: 0 <= i < j < |fs| ==> fs[i].index < fs[j].index
  }

  ghost predicate Has(fs: seq<Fate>, i: nat) {
    exists k :: 0 <= k < |fs| && fs[k].index == i
  }

  /** Reads come in write order, deliver what was written, and come before `n - 1` newer ones are written. */
  ghost predicate FetchesOk(h: History, n: nat) {
    && |h.got| == |h.fetches| && Increasing(h.fetches)
    && (forall k :: 0 <= k < |h.fetches| ==>
          && h.fetches[k].index < h.lo <= |h.written| && h.got[k] == h.written[h.fetches[k].index]
          && 0 <= h.fetches[k].total - 1 - h.fetches[k].index < n - 1 && h.fetches[k].total <= |h.written|)
  }

  /** A character is lost when exactly `n - 1` newer ones have been written. */
  ghost predicate LossesOk(h: History, n: nat) {
    && Increasing(h.losses)
    && (forall k :: 0 <= k < |h.losses| ==>
          && h.losses[k].index < h.lo && h.losses[k].total <= |h.written|
          && h.losses[k].total - 1 - h.losses[k].index == n - 1)
  }

  /** Everything that left the ring was either read or lost. */
  ghost predicate Accounted(h: History) {
    forall i :: 0 <= i < h.lo ==> (Has(h.fetches, i) <==> !Has(h.losses, i))
  }

  /** What holds after every run. */
  ghost predicate Inv(h: History, n: nat) {
    h.lo <= |h.written| <= h.lo + n - 1 && FetchesOk(h, n) && LossesOk(h, n) && Accounted(h)
  }

  lemma {:induction false} EveryRun(ops: seq<Op>, n: nat)
    requires n >= 2
    ensures Inv(Run(ops, n), n)
  {
    if ops != [] {
      EveryRun(ops[..|ops| - 1], n);
      StepKeeps(Run(ops[..|ops| - 1], n), ops[|ops| - 1], n);
    }
  }

  lemma StepKeeps(h: History, op: Op, n: nat)
    requires n >= 2 && Inv(h, n)
    ensures Inv(Apply(h, op, n), n)
  {
    FetchesStep(h, op, n);
    LossesStep(h, op, n);
    AccountedStep(h, op, n);
  }

  lemma FetchesStep(h: History, op: Op, n: nat)
    requires n >= 2 && h.lo <= |h.written| <= h.lo + n - 1 && FetchesOk(h, n)
    ensures FetchesOk(Apply(h, op, n), n)
  {
  }

  lemma LossesStep(h: History, op: Op, n: nat)
    requires n >= 2 && h.lo <= |h.written| <= h.lo + n - 1 && LossesOk(h, n)
    ensures LossesOk(Apply(h, op, n), n)
  {
  }

  lemma AccountedStep(h: History, op: Op, n: nat)
    requires n >= 2 && h.lo <= |h.written| && FetchesOk(h, n) && LossesOk(h, n) && Accounted(h)
    ensures Accounted(Apply(h, op, n))
  {
    HasMore(h.fetches, Fate(h.lo, |h.written|));
    HasMore(h.losses, Fate(h.lo, |h.written| + 1));
    NotYet(h.fetches, h.lo);
    NotYet(h.losses, h.lo);
  }

  lemma HasMore(fs: seq<Fate>, f: Fate)
    ensures forall i: nat :: Has(fs + [f], i) <==> Has(fs, i) || i == f.index
  {
    forall i: nat
      ensures Has(fs + [f], i) <==> Has(fs, i) || i == f.index
    {
      if Has(fs, i) {
        var k :| 0 <= k < |fs| && fs[k].index == i;
        assert (fs + [f])[k].index == i;
      }
      if i == f.index {
        assert (fs + [f])[|fs|].index == i;
      }
    }
  }

  lemma NotYet(fs: seq<Fate>, lo: nat)
    ensures (forall k :: 0 <= k < |fs| ==> fs[k].index < lo) ==> !Has(fs, lo)
  {
  }
}
