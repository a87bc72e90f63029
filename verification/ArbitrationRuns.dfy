/**
 When a deferred request is programmed, and when it never is: the pending state of a sensor against
 the timer that is to clear it.
 */
module ArbitrationRuns {
  import opened Basics
  import opened SensorRate
  import opened Arbitration

  /** Waiting for a timer that will not fire. */
  predicate Stuck(d: Driver, s: SensorId) {
    d.pending.Get(s) != NotPending && !d.timer.Get(s)
  }

  predicate CreatesInstance(d: Driver, ev: Event) {
    && ev.Client? && !ev.remove && ev.incoming.Some? && !ev.incoming.value.msg.Flush?
    && d.inst.None? && d.master
  }

  /** Just one step leaves a sensor stuck: taking the timer away while its request is pending. */
  lemma StuckIff(d: Driver, ev: Event, s: SensorId)
    requires d.limits.Valid() && !Stuck(d, s)
    ensures Stuck(Apply(d, ev), s)
       <==> CreatesInstance(d, ev) && ev.s == s && ev.env.railSettled && d.pending.Get(s) != NotPending
  {
    match ev
    case Client(_, _, _, _, _) =>
    case TimerEvents(_, _) =>
    case RailOff =>
  }

  // ----- Runs in which every instance can be created -----

  predicate CreateOk(ev: Event) {
    ev.Client? ==> ev.env.createOk
  }

  predicate UnstuckAt(d: Driver, s: SensorId) {
    !Stuck(d, s) && (d.inst.None? ==> d.pending.Get(s) == NotPending)
  }

  ghost predicate Unstuck(d: Driver) {
    forall s :: UnstuckAt(d, s)
  }

  lemma UnstuckStep(d: Driver, ev: Event)
    requires d.limits.Valid() && d.master && Unstuck(d) && CreateOk(ev)
    ensures Unstuck(Apply(d, ev)) && Apply(d, ev).master
  {
    forall s
      ensures UnstuckAt(Apply(d, ev), s)
    {
      assert UnstuckAt(d, s);
      StuckIff(d, ev, s);
      match ev
      case Client(o, _, _, _, _) => assert UnstuckAt(d, o);
      case TimerEvents(o, _) => assert UnstuckAt(d, o);
      case RailOff =>
    }
  }

  /** Pending is then always pending for a timer that has been started. */
  lemma {:induction false} NeverStuck(d: Driver, events: seq<Event>)
    requires d.limits.Valid() && d.master && Unstuck(d)
    requires forall ev :: ev in events ==> CreateOk(ev)
    ensures Unstuck(Run(d, events))
    decreases |events|
  {
    if events != [] {
      UnstuckStep(d, events[0]);
      NeverStuck(Apply(d, events[0]), events[1..]);
    }
  }

  const TIMERS: seq<Event> := 
    [TimerEvents(Acc, true), TimerEvents(Gyr, true), TimerEvents(Motion, true), TimerEvents(Temp, true)]

  lemma RunCons(d: Driver, ev: Event, rest: seq<Event>)
    requires d.limits.Valid()
    ensures Run(d, [ev] + rest) == Run(Apply(d, ev), rest)
    ensures AllLegal(d, [ev] + rest) <==> Legal(d, ev) && AllLegal(Apply(d, ev), rest)
  {
    var events := [ev] + rest;
    assert events[0] == ev && events[1..] == rest;
  }

  lemma RunTimers(d: Driver)
    requires d.limits.Valid()
    ensures var b := TimerEvent(TimerEvent(d, Acc, true), Gyr, true);
            Run(d, TIMERS) == TimerEvent(TimerEvent(b, Motion, true), Temp, true)
  {
    var a, b, c, e := TIMERS[0], TIMERS[1], TIMERS[2], TIMERS[3];
    RunCons(d, a, [b, c, e]);
    RunCons(Apply(d, a), b, [c, e]);
    RunCons(Apply(Apply(d, a), b), c, [e]);
    RunCons(Apply(Apply(Apply(d, a), b), c), e, []);
    assert TIMERS == [a] + [b, c, e] && [b, c, e] == [b] + [c, e] && [c, e] == [c] + [e] && [e] == [e] + [];
  }

  lemma RevalKeepsLists(i: Instance, s: SensorId, l: Limits)
    requires l.Valid()
    ensures Reval(i, s, l).reqs == i.reqs
  {
  }

  /** What a batch of timer events may change: nothing without an expiry but a timer that nothing waits for. */
  lemma TimersChangeOnly(d: Driver, s: SensorId, expired: bool)
    requires d.limits.Valid()
    ensures var e := Apply(d, TimerEvents(s, expired));
            && e.master == d.master && (e.inst.Some? <==> d.inst.Some?)
            && (d.inst.Some? ==> e.inst.value.reqs == d.inst.value.reqs)
            && (!(d.timer.Get(s) && expired && d.pending.Get(s) == PendingSetReq) ==> e.inst == d.inst)
            && e.rail == (if d.timer.Get(s) && expired && d.pending.Get(s) == PendingDeinit then Off else d.rail)
            && (forall o :: o != s ==> e.pending.Get(o) == d.pending.Get(o) && e.timer.Get(o) == d.timer.Get(o))
            && e.pending.Get(s) == (if d.timer.Get(s) && expired then NotPending else d.pending.Get(s))
            && e.timer.Get(s) == (d.timer.Get(s) && !expired && d.pending.Get(s) != NotPending)
  {
    if d.inst.Some? { RevalKeepsLists(d.inst.value, s, d.limits); }
  }

  /** One timer's expiry on the way to having all sensors programmed. */
  lemma TimerHelps(d: Driver, o: SensorId, s: SensorId, asked: set<SensorId>)
    requires Good(d, asked) && !Stuck(d, s) && d.inst.Some?
    ensures var e := TimerEvent(d, o, true);
            && Good(e, asked) && !Stuck(e, s) && e.limits == d.limits
            && e.inst.Some? && e.inst.value.reqs == d.inst.value.reqs
            && (o == s || d.pending.Get(s) == NotPending ==> e.pending.Get(s) == NotPending)
  {
    TimerKeeps(d, o, true, asked);
    TimersChangeOnly(d, o, true);
  }

  /** Once the timers have expired, every sensor ever configured is programmed for its live requests. */
  lemma TimersProgramAll(d: Driver, asked: set<SensorId>, s: SensorId)
    requires Good(d, asked) && !Stuck(d, s)
    requires s in asked
    ensures var e := Run(d, TIMERS);
            && d.inst.Some? && e.inst.Some? && e.inst.value.reqs == d.inst.value.reqs
            && s in e.inst.value.enabled && Right(e.inst.value, s, d.limits)
  {
    AllTimersHelp(d, asked, s);
    GoodIsRight(Run(d, TIMERS), asked, s);
  }

  lemma AllTimersHelp(d: Driver, asked: set<SensorId>, s: SensorId)
    requires Good(d, asked) && !Stuck(d, s) && d.inst.Some?
    ensures var e := Run(d, TIMERS);
            && Good(e, asked) && e.pending.Get(s) == NotPending
            && e.inst.Some? && e.inst.value.reqs == d.inst.value.reqs
  {
    var a := TimerEvent(d, Acc, true);
    var b := TimerEvent(a, Gyr, true);
    var c := TimerEvent(b, Motion, true);
    var e := TimerEvent(c, Temp, true);
    RunTimers(d);
    TimerHelps(d, Acc, s, asked);
    TimerHelps(a, Gyr, s, asked);
    TimerHelps(b, Motion, s, asked);
    TimerHelps(c, Temp, s, asked);
  }

  /** The same from power-up, over every run in which instances can be created. */
  lemma DeferredRequestsAreProgrammed(l: Limits, events: seq<Event>, s: SensorId)
    requires l.Valid() && AllLegal(Start(l), events) && AllPowered(Start(l), events)
    requires forall ev :: ev in events ==> CreateOk(ev)
    requires s in AskedBy(Start(l), events)
    ensures var d := Run(Start(l), events); var e := Run(d, TIMERS);
            && d.inst.Some? && e.inst.Some? && e.inst.value.reqs == d.inst.value.reqs
            && s in e.inst.value.enabled && Right(e.inst.value, s, l)
  {
    var d := Run(Start(l), events);
    StartIsGood(l);
    RunKeeps(Start(l), events, {});
    NeverStuck(Start(l), events);
    assert UnstuckAt(d, s);
    TimersProgramAll(d, AskedBy(Start(l), events), s);
  }

  // ----- What is not programmed -----

  predicate Removes(ev: Event, s: SensorId) {
    ev.Client? && ev.remove && ev.s == s
  }

  lemma RevalOfOther(i: Instance, s: SensorId, o: SensorId, l: Limits)
    requires l.Valid() && Stable(i, l) && o != s
    ensures Reval(i, s, l).rate.Get(o) == i.rate.Get(o) && (o in Reval(i, s, l).enabled <==> o in i.enabled)
    ensures Stable(Reval(i, s, l), l)
  {
    ConfigHwIsStable(Chosen(i, s), l);
    if o in i.enabled { OthersUntouched(i, s, o, l); }
  }

  /** Nothing will program the sensor: it waits for no timer, and the guard does not hold. */
  predicate Blocked(d: Driver, s: SensorId) {
    Stuck(d, s) || (d.pending.Get(s) == NotPending && d.rail == Off)
  }

  /** A blocked sensor of a live instance, with its programmed state. */
  ghost predicate Frozen(d: Driver, s: SensorId, rate: real, on: bool) {
    && d.limits.Valid() && d.inst.Some? && Stable(d.inst.value, d.limits)
    && Blocked(d, s)
    && d.inst.value.rate.Get(s) == rate && (s in d.inst.value.enabled <==> on)
  }

  lemma FrozenNew(d: Driver, o: SensorId, exist: Option<Request>, r: Request, s: SensorId, rate: real, on: bool)
    requires Frozen(d, s, rate, on)
    ensures Frozen(HandleNew(d, o, exist, r), s, rate, on)
  {
    var rs := RemoveOpt(d.inst.value.reqs.Get(o), exist) + [r];
    RequestsAreNotSettled(d.inst.value, o, rs, d.limits);
    if Programs(d, o) { RevalOfOther(WithReqs(d.inst.value, o, rs), o, s, d.limits); }
  }

  lemma FrozenRemoval(d: Driver, o: SensorId, exist: Request, env: Env, s: SensorId, rate: real, on: bool)
    requires Frozen(d, s, rate, on) && o != s
    ensures Frozen(Apply(d, Client(o, Some(exist), None, true, env)), s, rate, on)
  {
    var rs := Remove(d.inst.value.reqs.Get(o), exist);
    RequestsAreNotSettled(d.inst.value, o, rs, d.limits);
    RevalOfOther(WithReqs(d.inst.value, o, rs), o, s, d.limits);
  }

  lemma FrozenRestored(d: Driver, o: SensorId, rs: seq<Request>, s: SensorId, rate: real, on: bool)
    requires Frozen(d, s, rate, on)
    ensures Frozen(d.(inst := Some(WithReqs(d.inst.value, o, rs))), s, rate, on)
  {
    RequestsAreNotSettled(d.inst.value, o, rs, d.limits);
  }

  lemma FrozenReval(d: Driver, o: SensorId, s: SensorId, rate: real, on: bool)
    requires Frozen(d, s, rate, on) && o != s
    ensures Frozen(d.(inst := Some(Reval(d.inst.value, o, d.limits))), s, rate, on)
  {
    RevalOfOther(d.inst.value, o, s, d.limits);
  }

  lemma FrozenTimer(d: Driver, o: SensorId, expired: bool, s: SensorId, rate: real, on: bool)
    requires Frozen(d, s, rate, on)
    ensures Frozen(TimerEvent(d, o, expired), s, rate, on)
  {
    var e := TimerEvent(d, o, expired);
    if d.timer.Get(o) && expired && d.pending.Get(o) == PendingSetReq && o != s {
      FrozenReval(d, o, s, rate, on);
      assert e.inst == Some(Reval(d.inst.value, o, d.limits));
    } else {
      assert e.inst == d.inst;
    }
  }

  lemma FrozenStep(d: Driver, ev: Event, s: SensorId, rate: real, on: bool)
    requires Frozen(d, s, rate, on) && !Removes(ev, s)
    ensures Frozen(Apply(d, ev), s, rate, on)
  {
    match ev
    case RailOff =>
    case TimerEvents(o, expired) =>
      FrozenTimer(d, o, expired, s, rate, on);
    case Client(o, exist, incoming, remove, env) =>
      if remove {
        if exist.Some? { FrozenRemoval(d, o, exist.value, env, s, rate, on); }
      } else if incoming.Some? && !incoming.value.msg.Flush? && !incoming.value.msg.CalReset? {
        FrozenNew(d, o, exist, incoming.value, s, rate, on);
        var f := HandleNew(d, o, exist, incoming.value);
        if exist.Some? { FrozenRestored(f, o, f.inst.value.reqs.Get(o) + [exist.value], s, rate, on); }
      }
  }

  /** Nothing but a removal reaches a blocked sensor again: no request of any client, no timer. */
  lemma {:induction false} BlockedForGood(d: Driver, events: seq<Event>, s: SensorId, rate: real, on: bool)
    requires Frozen(d, s, rate, on)
    requires forall ev :: ev in events ==> !Removes(ev, s)
    ensures Frozen(Run(d, events), s, rate, on)
    decreases |events|
  {
    if events != [] {
      FrozenStep(d, events[0], s, rate, on);
      BlockedForGood(Apply(d, events[0]), events[1..], s, rate, on);
    }
  }

  /** A removal always programs the sensor, whatever is pending. */
  lemma RemovalProgramsAnyway(d: Driver, s: SensorId, exist: Request, env: Env)
    requires d.limits.Valid() && d.inst.Some?
    ensures var e := Apply(d, Client(s, Some(exist), None, true, env));
            && e.inst.Some? && s in e.inst.value.enabled
            && e.inst.value.rate.Get(s) == Wanted(s, Remove(d.inst.value.reqs.Get(s), exist), d.limits)
  {
    RevalPrograms(WithReqs(d.inst.value, s, Remove(d.inst.value.reqs.Get(s), exist)), s, d.limits);
  }

  /** A request is programmed at once if the guard holds; otherwise nothing but the request list changes. */
  lemma ProgrammedIffGuard(d: Driver, s: SensorId, exist: Option<Request>, r: Request, env: Env)
    requires d.limits.Valid() && d.inst.Some? && r.msg.Config?
    ensures var e := Apply(d, Client(s, exist, Some(r), false, env)).inst;
            && e.Some?
            && (s in e.value.enabled <==> s in d.inst.value.enabled || Programs(d, s))
            && (Programs(d, s) ==> Right(e.value, s, d.limits))
            && (!Programs(d, s) ==> e.value.(reqs := d.inst.value.reqs) == d.inst.value)
  {
    if Programs(d, s) {
      RevalPrograms(WithReqs(d.inst.value, s, RemoveOpt(d.inst.value.reqs.Get(s), exist) + [r]), s, d.limits);
    }
  }

  /** The request of the sensor waits for a timer that is running. */
  predicate Waits(d: Driver, s: SensorId) {
    d.pending.Get(s) == PendingSetReq && d.timer.Get(s)
  }

  /** A waiting sensor keeps waiting until its timer expires. */
  lemma {:induction false} WaitingGoesOn(d: Driver, events: seq<Event>, s: SensorId)
    requires d.limits.Valid() && d.inst.Some? && Waits(d, s)
    requires TimerEvents(s, true) !in events
    ensures var e := Run(d, events); e.inst.Some? && Waits(e, s)
    decreases |events|
  {
    if events != [] {
      WaitsStep(d, events[0], s);
      WaitingGoesOn(Apply(d, events[0]), events[1..], s);
    }
  }

  lemma WaitsStep(d: Driver, ev: Event, s: SensorId)
    requires d.limits.Valid() && d.inst.Some? && Waits(d, s) && ev != TimerEvents(s, true)
    ensures Apply(d, ev).inst.Some? && Waits(Apply(d, ev), s)
  {
    match ev
    case Client(_, _, _, _, _) =>
    case TimerEvents(_, _) =>
    case RailOff =>
  }

  /** What becomes of a request made in `d` and accepted with state `e`, in the continuation `more`. */
  ghost predicate Fate(d: Driver, e: Driver, s: SensorId, more: seq<Event>)
    requires d.inst.Some? && e.limits.Valid()
  {
    && e.inst.Some?
    && (Programs(d, s) ==> s in e.inst.value.enabled && Right(e.inst.value, s, e.limits))
    && (Waits(d, s) && TimerEvents(s, true) !in more ==>
          var t := Run(e, more + [TimerEvents(s, true)]);
          t.inst.Some? && s in t.inst.value.enabled && Right(t.inst.value, s, t.limits))
    && (!Programs(d, s) && !Waits(d, s) && (forall ev :: ev in more ==> !Removes(ev, s)) ==>
          Frozen(Run(e, more), s, d.inst.value.rate.Get(s), s in d.inst.value.enabled))
  }

  /**
   A configuration that is accepted on a live instance is programmed at once if the guard holds, by
   the timer if one is running for it, and otherwise by no event short of a removal.
   */
  lemma FateOfConfiguration(d: Driver, s: SensorId, exist: Option<Request>, r: Request, env: Env, more: seq<Event>)
    requires d.limits.Valid() && d.inst.Some? && Stable(d.inst.value, d.limits) && r.msg.Config?
    requires d.pending.Get(s) == NotPending || d.pending.Get(s) == PendingSetReq
    ensures Fate(d, Apply(d, Client(s, exist, Some(r), false, env)), s, more)
  {
    var e := Apply(d, Client(s, exist, Some(r), false, env));
    ProgrammedIffGuard(d, s, exist, r, env);
    if Waits(d, s) && TimerEvents(s, true) !in more {
      WaitsStep(d, Client(s, exist, Some(r), false, env), s);
      WaitingGoesOn(e, more, s);
      RunLast(e, more, TimerEvents(s, true));
      RevalPrograms(Run(e, more).inst.value, s, d.limits);
    } else if !Programs(d, s) && !Waits(d, s) && (forall ev :: ev in more ==> !Removes(ev, s)) {
      assert Frozen(d, s, d.inst.value.rate.Get(s), s in d.inst.value.enabled);
      FrozenStep(d, Client(s, exist, Some(r), false, env), s, d.inst.value.rate.Get(s), s in d.inst.value.enabled);
      BlockedForGood(e, more, s, d.inst.value.rate.Get(s), s in d.inst.value.enabled);
    }
  }

  /** The driver once it has tried to create the instance that a request needs. */
  function Ready(d: Driver, s: SensorId, env: Env): Driver {
    if d.inst.None? then NewInstance(d, s, env) else d
  }

  /**
   What an attempt to create the instance decides, successful or not: the rail, which is voted on for
   the sensor that asks, and whether its request is programmed at once, waits for a timer or is stuck.
   */
  lemma CreationDecides(d: Driver, s: SensorId, env: Env)
    requires d.inst.None? && d.master
    requires d.pending.Get(s) == NotPending || d.pending.Get(s) == PendingSetReq
    ensures var e := Ready(d, s, env);
            && e.inst == (if env.createOk then Some(FRESH) else None)
            && (e.rail == OnNpm <==> s == Gyr) && (e.rail == OnLpm <==> s != Gyr)
            && (Programs(e, s) <==> d.pending.Get(s) == NotPending && (env.railSettled || !env.timerOk))
            && (Waits(e, s) <==> !env.railSettled && (env.timerOk || Waits(d, s)))
            && (Stuck(e, s) <==>
                  && d.pending.Get(s) == PendingSetReq
                  && (env.railSettled || (!env.timerOk && !d.timer.Get(s))))
  {
  }

  /**
   From power-up, in every run of any events, what becomes of every configuration the driver accepts,
   whether it creates the instance or not, in every continuation: it is programmed at once if the guard
   holds, by the timer if one is running for it, and otherwise by no event short of a removal.
   */
  lemma EveryConfigurationsFate(l: Limits, events: seq<Event>, s: SensorId, exist: Option<Request>, r: Request,
                                env: Env, more: seq<Event>)
    requires l.Valid() && r.msg.Config?
    requires Run(Start(l), events).inst.Some? || env.createOk
    ensures var d := Run(Start(l), events); var e := Ready(d, s, env);
            && e.inst.Some?
            && Fate(e, Apply(d, Client(s, exist, Some(r), false, env)), s, more)
            && (d.inst.None? ==> e.inst.value.rate.Get(s) == 0.0 && s !in e.inst.value.enabled)
  {
    var d := Run(Start(l), events);
    var e := Ready(d, s, env);
    EveryRunIsSound(l, events);
    if d.inst.None? { SoundCreated(d, s, env); }
    assert PendingOk(e, s);
    assert Apply(d, Client(s, exist, Some(r), false, env)) == Apply(e, Client(s, exist, Some(r), false, env));
    FateOfConfiguration(e, s, exist, r, env, more);
  }

  lemma {:induction false} RunLast(d: Driver, events: seq<Event>, ev: Event)
    requires d.limits.Valid()
    ensures Run(d, events + [ev]) == Apply(Run(d, events), ev)
    decreases |events|
  {
    if events == [] {
      RunCons(d, ev, []);
      assert [] + [ev] == [ev] + [];
    } else {
      RunLast(Apply(d, events[0]), events[1..], ev);
      assert events + [ev] == [events[0]] + (events[1..] + [ev]);
      RunCons(d, events[0], events[1..] + [ev]);
    }
  }

  const ASK := Request(1, Config(Some(Body(100.0, 0))))

  /** The first creation fails after its timer was started; the second finds the rail settled. */
  const STUCK_RUN: seq<Event> := [
    Client(Acc, None, Some(ASK), false, Env(false, false, true)),
    Client(Acc, None, Some(ASK), false, Env(true, true, true))
  ]

  lemma RunTwo(d: Driver, a: Event, b: Event)
    requires d.limits.Valid()
    ensures Run(d, [a, b]) == Apply(Apply(d, a), b)
    ensures AllLegal(d, [a, b]) <==> Legal(d, a) && Legal(Apply(d, a), b)
  {
    RunCons(d, a, [b]);
    RunCons(Apply(d, a), b, []);
    assert [a] + [b] == [a, b] && [b] + [] == [b];
  }

  /**
   A legal run in which a client asks for 100 Hz and, whatever follows short of a removal, never gets
   it: the invariant over every run needs its exception for sensors that wait.
   */
  lemma StuckRun(l: Limits, more: seq<Event>)
    requires l.Valid() && forall ev :: ev in more ==> !Removes(ev, Acc)
    ensures AllLegal(Start(l), STUCK_RUN)
    ensures var d := Run(Start(l), STUCK_RUN);
            && d.inst.Some? && d.inst.value.reqs.Get(Acc) == [ASK] && d.rail == OnLpm
            && Frozen(Run(d, more), Acc, 0.0, false)
  {
    var d := Run(Start(l), STUCK_RUN);
    RunTwo(Start(l), STUCK_RUN[0], STUCK_RUN[1]);
    RequestsAreNotSettled(FRESH, Acc, [ASK], l);
    FreshIsStable(l);
    assert Frozen(d, Acc, 0.0, false);
    BlockedForGood(d, more, Acc, 0.0, false);
  }

  const RAIL_RUN: seq<Event> := [Client(Acc, None, Some(ASK), false, Env(true, true, true)), RailOff]

  /** A request made while the rail is voted off is accepted, and not programmed whatever follows short of a removal. */
  lemma UnpoweredRequest(l: Limits, more: seq<Event>)
    requires l.Valid() && forall ev :: ev in more ==> !Removes(ev, Gyr)
    ensures AllLegal(Start(l), RAIL_RUN)
    ensures var d := Run(Start(l), RAIL_RUN);
            var e := Apply(d, Client(Gyr, None, Some(ASK), false, Env(true, true, true)));
            && e.inst.Some? && e.inst.value.reqs.Get(Gyr) == [ASK]
            && Frozen(Run(e, more), Gyr, 0.0, false)
  {
    var a := Apply(Start(l), RAIL_RUN[0]);
    RunTwo(Start(l), RAIL_RUN[0], RAIL_RUN[1]);
    assert [] + [ASK] == [ASK];
    var i := WithReqs(FRESH, Acc, [ASK]);
    FreshIsStable(l);
    RequestsAreNotSettled(FRESH, Acc, [ASK], l);
    RevalOfOther(i, Acc, Gyr, l);
    assert a.inst == Some(Reval(i, Acc, l));
    FateOfConfiguration(Apply(a, RailOff), Gyr, None, ASK, Env(true, true, true), more);
  }

  // ----- Which event leaves an instance -----

  /** Every first message but a flush creates the instance. */
  lemma InstanceIffCreated(d: Driver, ev: Event)
    requires d.limits.Valid() && d.inst.None?
    ensures Apply(d, ev).inst.Some? <==> CreatesInstance(d, ev) && ev.env.createOk
  {
    match ev
    case Client(_, _, _, _, _) =>
    case TimerEvents(_, _) =>
    case RailOff =>
  }

  /** A calibration reset among them, which leaves an instance with no request at all. */
  lemma ResetCreatesInstance(d: Driver, s: SensorId, exist: Option<Request>, id: nat, env: Env)
    requires d.limits.Valid() && d.inst.None?
    ensures Apply(d, Client(s, exist, Some(Request(id, CalReset)), false, env)).inst
         == if d.master && env.createOk then Some(FRESH) else None
  {
    InstanceIffCreated(d, Client(s, exist, Some(Request(id, CalReset)), false, env));
  }
}
