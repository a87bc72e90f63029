/**
 Exclusive open of the button device, guarded by one atomic counter.

 Any number of processes run `button_open` and `button_close`; a step is one atomic operation on
 `flag`, or one request or release of an interrupt line. A line is not shared: a request for a line
 that is taken is refused, which `button_open` does not notice. All requests and releases name the
 same `&pins_desc`, so that a release frees the line whoever holds it.
 */
module ButtonsAtomic {
  type Pid = nat

  // EINT0, EINT2, EINT11 and EINT19, in the order of the code
  const LINES := 4

  /**
   `restoring`: decremented `flag`, found it taken, will increment it again. `holding`: has the device
   open. `releasing`: has incremented `flag` in close, and has lines to free. `done`: how many lines a
   process has asked for, or freed. `line`: whose request each line serves.
   */
  datatype State = State(flag: int, restoring: set<Pid>, holding: set<Pid>, releasing: set<Pid>,
                         done: map<Pid, nat>, line: map<nat, Pid>) {
    function Done(p: Pid): nat { if p in done then done[p] else 0 }
  }

  datatype Action = DecAndTest(p: Pid) | Restore(p: Pid) | RequestIrq(p: Pid) | CloseInc(p: Pid) | FreeIrq(p: Pid)

  // ATOMIC_INIT(1)
  const INIT := State(1, {}, {}, {}, map[], map[])

  predicate Outside(s: State, p: Pid) {
    p !in s.restoring && p !in s.holding && p !in s.releasing
  }

  /** One atomic step; a step that the process cannot take changes nothing. */
  function Apply(s: State, a: Action): State {
    match a
    case DecAndTest(p) =>
      if !Outside(s, p) then s
      else if s.flag - 1 == 0 then s.(flag := s.flag - 1, holding := s.holding + {p}, done := s.done[p := 0])
      else s.(flag := s.flag - 1, restoring := s.restoring + {p})
    case Restore(p) =>
      if p in s.restoring then s.(flag := s.flag + 1, restoring := s.restoring - {p}) else s
    case RequestIrq(p) =>
      if p in s.holding && s.Done(p) < LINES then
        s.(done := s.done[p := s.Done(p) + 1], line := if s.Done(p) in s.line then s.line else s.line[s.Done(p) := p])
      else s
    case CloseInc(p) =>
      if p in s.holding && s.Done(p) == LINES then
        s.(flag := s.flag + 1, holding := s.holding - {p}, releasing := s.releasing + {p}, done := s.done[p := 0])
      else s
    case FreeIrq(p) =>
      if p in s.releasing then
        s.(done := s.done[p := s.Done(p) + 1], line := s.line - {s.Done(p)},
           releasing := if s.Done(p) + 1 < LINES then s.releasing else s.releasing - {p})
      else s
  }

  function RunFrom(s: State, actions: seq<Action>): State {
    if actions == [] then s
    else Apply(RunFrom(s, actions[..|actions| - 1]), actions[|actions| - 1])
  }

  function Run(actions: seq<Action>): State {
    RunFrom(INIT, actions)
  }

  // ----- The counter -----

  ghost predicate Inv(s: State) {
    && s.flag + |s.holding| + |s.restoring| == 1
    && |s.holding| <= 1
    && s.restoring !! s.holding !! s.releasing
  }

  lemma StepKeeps(s: State, a: Action)
    requires Inv(s)
    ensures Inv(Apply(s, a))
  {
  }

  lemma {:induction false} EveryRun(actions: seq<Action>)
    ensures Inv(Run(actions))
  {
    if actions != [] {
      EveryRun(actions[..|actions| - 1]);
      StepKeeps(Run(actions[..|actions| - 1]), actions[|actions| - 1]);
    }
  }

  lemma OneHolder(s: State, p: Pid, q: Pid)
    requires Inv(s) && p in s.holding && q in s.holding
    ensures p == q
  {
    if p != q {
      SubsetSize({p, q}, s.holding);
    }
  }

  /** The device is never open twice, however many processes interleave. */
  lemma MutualExclusion(actions: seq<Action>, p: Pid, q: Pid)
    requires p in Run(actions).holding && q in Run(actions).holding
    ensures p == q
  {
    EveryRun(actions);
    OneHolder(Run(actions), p, q);
  }

  lemma SubsetSize(a: set<Pid>, b: set<Pid>)
    requires a <= b
    ensures |a| <= |b|
  {
    assert b == a + (b - a);
  }

  /** `flag` is 1 exactly when no process is between its decrement and the matching increment. */
  lemma FlagTellsIdle(actions: seq<Action>)
    ensures Run(actions).flag == 1 <==> Run(actions).holding == {} && Run(actions).restoring == {}
    ensures Run(actions).flag <= 1
  {
    EveryRun(actions);
  }

  lemma OneMore(s: State, actions: seq<Action>, a: Action)
    ensures RunFrom(s, actions + [a]) == Apply(RunFrom(s, actions), a)
  {
    assert (actions + [a])[..|actions|] == actions;
  }

  /** An open succeeds exactly when nobody holds the device and nobody is backing out of a failed open. */
  lemma OpenSucceedsIff(actions: seq<Action>, p: Pid)
    requires Outside(Run(actions), p)
    ensures p in Run(actions + [DecAndTest(p)]).holding <==> Run(actions).holding == {} && Run(actions).restoring == {}
  {
    FlagTellsIdle(actions);
    OneMore(INIT, actions, DecAndTest(p));
  }

  // ----- The interrupt lines -----

  /** Process `q` is closing and has still to free line `k`. */
  predicate Owes(s: State, q: Pid, k: nat) {
    q in s.releasing && s.Done(q) <= k
  }

  ghost predicate Owed(s: State, k: nat) {
    exists q :: Owes(s, q, k)
  }

  /** Process `p` holds the device and is past its request for line `k`. */
  predicate Past(s: State, p: Pid, k: nat) {
    p in s.holding && k < s.Done(p)
  }

  /** A taken line serves a process that is past its request, or is still to be freed. */
  ghost predicate LineOk(s: State, k: nat) {
    k in s.line ==> Past(s, s.line[k], k) || Owed(s, k)
  }

  /** What is owed stays owed until the line is freed. */
  lemma OwedStep(s: State, a: Action, k: nat)
    requires Inv(s) && Owed(s, k) && k < LINES
    ensures Owed(Apply(s, a), k) || k !in Apply(s, a).line
  {
    var q :| Owes(s, q, k);
    if !(a == FreeIrq(q) && s.Done(q) == k) {
      assert Owes(Apply(s, a), q, k);
    }
  }

  lemma LineStep(s: State, a: Action, k: nat)
    requires Inv(s) && LineOk(s, k) && k < LINES
    ensures LineOk(Apply(s, a), k)
  {
    if Owed(s, k) {
      OwedStep(s, a, k);
    } else if k in s.line && a == CloseInc(s.line[k]) {
      assert Owes(Apply(s, a), s.line[k], k) || Apply(s, a) == s;
    }
  }

  lemma {:induction false} EveryLine(actions: seq<Action>, k: nat)
    requires k < LINES
    ensures LineOk(Run(actions), k)
  {
    if actions != [] {
      var front := actions[..|actions| - 1];
      EveryRun(front);
      EveryLine(front, k);
      LineStep(Run(front), actions[|actions| - 1], k);
    }
  }

  /**
   Process `p` asked for line `k`, at a quiet moment or not. If so the line serves it; if not, the line
   is nobody's as soon as no close has it still to free.
   */
  ghost predicate Kept(s: State, p: Pid, k: nat, quiet: bool) {
    && Past(s, p, k)
    && (quiet ==> !Owed(s, k) && k in s.line && s.line[k] == p)
    && (!quiet && !Owed(s, k) ==> k !in s.line)
  }

  /** While somebody holds the device, nobody else closes, so that the debts only get fewer. */
  lemma NoNewDebt(s: State, a: Action, p: Pid, k: nat)
    requires Inv(s) && p in s.holding && a != CloseInc(p)
    ensures Owed(Apply(s, a), k) ==> Owed(s, k)
    ensures p in Apply(s, a).holding && Apply(s, a).Done(p) >= s.Done(p)
    ensures k < s.Done(p) && k in Apply(s, a).line ==> k in s.line && s.line[k] == Apply(s, a).line[k]
  {
    var t := Apply(s, a);
    if a.p in s.holding { OneHolder(s, p, a.p); }
    if Owed(t, k) {
      var q :| Owes(t, q, k);
      assert Owes(s, q, k);
    }
  }

  lemma KeptStep(s: State, a: Action, p: Pid, k: nat, quiet: bool)
    requires Inv(s) && Kept(s, p, k, quiet) && a != CloseInc(p) && k < LINES
    ensures Kept(Apply(s, a), p, k, quiet)
  {
    NoNewDebt(s, a, p, k);
    if Owed(s, k) {
      OwedStep(s, a, k);
    } else if a.FreeIrq? && a.p in s.releasing {
      assert !Owes(s, a.p, k);
    }
  }

  lemma {:induction false} KeptRun(pre: seq<Action>, more: seq<Action>, p: Pid, k: nat, quiet: bool)
    requires Kept(Run(pre), p, k, quiet) && CloseInc(p) !in more && k < LINES
    ensures Kept(Run(pre + more), p, k, quiet)
  {
    if more == [] {
      assert pre + more == pre;
    } else {
      var front, a := more[..|more| - 1], more[|more| - 1];
      KeptRun(pre, front, p, k, quiet);
      assert pre + more == (pre + front) + [a];
      OneMore(INIT, pre + front, a);
      EveryRun(pre + front);
      KeptStep(Run(pre + front), a, p, k, quiet);
    }
  }

  lemma RequestKept(pre: seq<Action>, p: Pid, k: nat)
    requires p in Run(pre).holding && k == Run(pre).Done(p) < LINES
    ensures Kept(Run(pre + [RequestIrq(p)]), p, k, !Owed(Run(pre), k))
  {
    var s, t := Run(pre), Run(pre + [RequestIrq(p)]);
    OneMore(INIT, pre, RequestIrq(p));
    EveryRun(pre);
    EveryLine(pre, k);
    assert forall q :: Owes(t, q, k) <==> Owes(s, q, k);
    if !Owed(s, k) && k in s.line {
      OneHolder(s, p, s.line[k]);
    }
  }

  /**
   A process that has asked for line `k` and has not closed yet: once no close has the line still to
   free, the line serves it if and only if none had when it asked.
   */
  lemma HandlerIff(pre: seq<Action>, more: seq<Action>, p: Pid, k: nat)
    requires p in Run(pre).holding && k == Run(pre).Done(p) < LINES && CloseInc(p) !in more
    ensures var s := Run(pre + [RequestIrq(p)] + more);
            && Past(s, p, k)
            && (!Owed(s, k) ==> ((k in s.line && s.line[k] == p) <==> !Owed(Run(pre), k)))
            && (!Owed(Run(pre), k) ==> !Owed(s, k))
  {
    RequestKept(pre, p, k);
    KeptRun(pre + [RequestIrq(p)], more, p, k, !Owed(Run(pre), k));
  }

  /** A holder that finds a line it asked for free is without a handler for it until it closes. */
  lemma {:induction false} DeafForGood(pre: seq<Action>, more: seq<Action>, p: Pid, k: nat)
    requires Past(Run(pre), p, k) && k !in Run(pre).line && CloseInc(p) !in more
    ensures Past(Run(pre + more), p, k) && k !in Run(pre + more).line
  {
    if more == [] {
      assert pre + more == pre;
    } else {
      var front, a := more[..|more| - 1], more[|more| - 1];
      DeafForGood(pre, front, p, k);
      assert pre + more == (pre + front) + [a];
      OneMore(INIT, pre + front, a);
      EveryRun(pre + front);
      NoNewDebt(Run(pre + front), a, p, k);
    }
  }

  // ----- Runs in which it happens -----

  lemma {:induction false} RunOn(s: State, front: seq<Action>, more: seq<Action>)
    ensures RunFrom(s, front + more) == RunFrom(RunFrom(s, front), more)
  {
    if more == [] {
      assert front + more == front;
    } else {
      RunOn(s, front, more[..|more| - 1]);
      assert (front + more)[..|front + more| - 1] == front + more[..|more| - 1];
    }
  }

  lemma RunFour(s: State, a: Action)
    ensures RunFrom(s, [a, a, a, a]) == Apply(Apply(Apply(Apply(s, a), a), a), a)
  {
    assert RunFrom(s, []) == s;
    OneMore(s, [], a);
    OneMore(s, [a], a);
    OneMore(s, [a, a], a);
    OneMore(s, [a, a, a], a);
    assert [] + [a] == [a] && [a] + [a] == [a, a] && [a, a] + [a] == [a, a, a] && [a, a, a] + [a] == [a, a, a, a];
  }

  lemma RunOne(s: State, a: Action)
    ensures RunFrom(s, [a]) == Apply(s, a)
  {
    assert [] + [a] == [a] && RunFrom(s, []) == s;
    OneMore(s, [], a);
  }

  /** The whole of `button_open`, and the whole of `button_close` behind its increment. */
  function Open(p: Pid): seq<Action> {
    [DecAndTest(p)] + AskAll(p)
  }

  function AskAll(p: Pid): seq<Action> {
    [RequestIrq(p), RequestIrq(p), RequestIrq(p), RequestIrq(p)]
  }

  function FreeAll(p: Pid): seq<Action> {
    [FreeIrq(p), FreeIrq(p), FreeIrq(p), FreeIrq(p)]
  }

  function AllLines(p: Pid): map<nat, Pid> {
    map[0 := p, 1 := p, 2 := p, 3 := p]
  }

  /** A successful open is served by all free lines, and by none that are taken. */
  lemma OpenRun(s: State, p: Pid)
    requires s.flag == 1 && Outside(s, p)
    ensures var t := s.(flag := 0, holding := s.holding + {p}, done := s.done[p := 4]);
            && (s.line == map[] ==> RunFrom(s, Open(p)) == t.(line := AllLines(p)))
            && (s.line.Keys == {0, 1, 2, 3} ==> RunFrom(s, Open(p)) == t)
  {
    var u := s.(flag := 0, holding := s.holding + {p}, done := s.done[p := 0]);
    RunOn(s, [DecAndTest(p)], AskAll(p));
    RunOne(s, DecAndTest(p));
    assert Apply(s, DecAndTest(p)) == u;
    AskRun(u, p);
    assert u.done[p := 4] == s.done[p := 4];
  }

  lemma AskRun(s: State, p: Pid)
    requires p in s.holding && p in s.done && s.done[p] == 0
    ensures s.line == map[] ==> RunFrom(s, AskAll(p)) == s.(done := s.done[p := 4], line := AllLines(p))
    ensures s.line.Keys == {0, 1, 2, 3} ==> RunFrom(s, AskAll(p)) == s.(done := s.done[p := 4])
  {
    RunFour(s, RequestIrq(p));
    Requests(s, p);
  }

  lemma Requests(s: State, p: Pid)
    requires p in s.holding && p in s.done && s.done[p] == 0
    ensures var r := RequestIrq(p); var t := Apply(Apply(Apply(Apply(s, r), r), r), r);
            && (s.line == map[] ==> t == s.(done := s.done[p := 4], line := AllLines(p)))
            && (s.line.Keys == {0, 1, 2, 3} ==> t == s.(done := s.done[p := 4]))
  {
  }

  lemma FreeRun(s: State, p: Pid)
    requires p in s.releasing && s.Done(p) == 0 && s.line.Keys <= {0, 1, 2, 3}
    ensures RunFrom(s, FreeAll(p)) == s.(releasing := s.releasing - {p}, done := s.done[p := 4], line := map[])
  {
    RunFour(s, FreeIrq(p));
    var f := FreeIrq(p);
    var t := Apply(Apply(Apply(Apply(s, f), f), f), f);
    assert t.line == map[];
    assert t.done == s.done[p := 4];
  }

  /** An open may fail although nobody has the device: here process 3 finds 2 still backing out. */
  lemma SpuriousBusy()
    ensures var run := Open(1) + [DecAndTest(2)] + [CloseInc(1)];
            var s := Run(run + [DecAndTest(3)]);
            Run(run).holding == {} && s.holding == {} && 3 in s.restoring
  {
    OpenRun(INIT, 1);
    OneMore(INIT, Open(1), DecAndTest(2));
    OneMore(INIT, Open(1) + [DecAndTest(2)], CloseInc(1));
    OneMore(INIT, Open(1) + [DecAndTest(2)] + [CloseInc(1)], DecAndTest(3));
  }

  /** Process 2 opens while 1 is closing, and is refused every line. */
  const EARLY: seq<Action> := Open(1) + [CloseInc(1)] + Open(2) + FreeAll(1)

  const AFTER_EARLY := State(0, {}, {2}, {}, map[1 := 4, 2 := 4], map[])

  lemma EarlyRun()
    ensures Run(EARLY) == AFTER_EARLY
  {
    var s := State(1, {}, {}, {1}, map[1 := 0], AllLines(1));
    OpenRun(INIT, 1);
    OneMore(INIT, Open(1), CloseInc(1));
    assert Run(Open(1) + [CloseInc(1)]) == s;
    RunOn(INIT, Open(1) + [CloseInc(1)], Open(2));
    RunOn(INIT, Open(1) + [CloseInc(1)] + Open(2), FreeAll(1));
    EarlyEnd(s);
  }

  lemma EarlyEnd(s: State)
    requires s == State(1, {}, {}, {1}, map[1 := 0], AllLines(1))
    ensures RunFrom(RunFrom(s, Open(2)), FreeAll(1)) == AFTER_EARLY
  {
    OpenRun(s, 2);
    FreeRun(RunFrom(s, Open(2)), 1);
  }

  /** It has the device then, but no button will ever reach it. */
  lemma DeafHolder(more: seq<Action>, k: nat)
    requires CloseInc(2) !in more && k < LINES
    ensures var s := Run(EARLY + more); 2 in s.holding && k !in s.line
  {
    EarlyRun();
    DeafForGood(EARLY, more, 2, k);
  }

  /** Worse, when 2 closes it frees the lines of process 3, which had been granted all of them. */
  lemma LostHandlers(more: seq<Action>, k: nat)
    requires CloseInc(3) !in more && k < LINES
    ensures Run(EARLY + [CloseInc(2)] + Open(3)).line == AllLines(3)
    ensures var s := Run(EARLY + [CloseInc(2)] + Open(3) + FreeAll(2) + more); 3 in s.holding && k !in s.line
  {
    EarlyRun();
    OneMore(INIT, EARLY, CloseInc(2));
    var s := Run(EARLY + [CloseInc(2)]);
    RunOn(INIT, EARLY + [CloseInc(2)], Open(3));
    OpenRun(s, 3);
    RunOn(INIT, EARLY + [CloseInc(2)] + Open(3), FreeAll(2));
    FreeRun(RunFrom(s, Open(3)), 2);
    DeafForGood(EARLY + [CloseInc(2)] + Open(3) + FreeAll(2), more, 3, k);
  }
}
