/**
 What the clients have asked for, kept from the events alone: a ledger of the live requests of each
 sensor, of who created the instance, and of the rail. The driver's lists, its rail vote and the rates
 it programs are those of the ledger, after every run.
 */
module ArbitrationLedger {
  import opened Basics
  import opened SensorRate
  import opened Arbitration
  import opened ArbitrationRuns

  /** `creator`: whose request created the instance. `dark`: the rail was voted off since. */
  datatype Ledger = Ledger(creator: Option<SensorId>, dark: bool, live: PerSensor<multiset<Request>>)

  const EMPTY := Ledger(None, false, All(multiset{}))

  /** A message that is kept as a request, whether it is a configuration or refused. */
  predicate IsKept(ev: Event) {
    ev.Client? && !ev.remove && ev.incoming.Some? && !ev.incoming.value.msg.Flush? && !ev.incoming.value.msg.CalReset?
  }

  predicate IsConfiguration(ev: Event) {
    IsKept(ev) && ev.incoming.value.msg.Config?
  }

  /** A message that needs an instance. */
  predicate NeedsInstance(ev: Event) {
    ev.Client? && !ev.remove && ev.incoming.Some? && !ev.incoming.value.msg.Flush?
  }

  predicate Exists(g: Ledger, ev: Event) {
    g.creator.Some? || (NeedsInstance(ev) && ev.env.createOk)
  }

  function Entry(g: Ledger, ev: Event): Ledger {
    Ledger(
      if g.creator.None? && Exists(g, ev) then Some(ev.s) else g.creator,
      if g.creator.None? && Exists(g, ev) then false else g.dark || ev.RailOff?,
      if ev.Client? && Exists(g, ev) then g.live.Set(ev.s, Booked(g.live.Get(ev.s), ev)) else g.live)
  }

  /** Removed and replaced requests leave, kept messages enter; a refused message brings back what it was to replace. */
  function Booked(qs: multiset<Request>, ev: Event): multiset<Request>
    requires ev.Client?
  {
    if ev.remove then qs - Named(ev.exist)
    else if IsConfiguration(ev) then qs - Named(ev.exist) + multiset{ev.incoming.value}
    else if IsKept(ev) then qs - Named(ev.exist) + multiset{ev.incoming.value} + Named(ev.exist)
    else qs
  }

  function Named(exist: Option<Request>): multiset<Request> {
    if exist.Some? then multiset{exist.value} else multiset{}
  }

  function Book(events: seq<Event>): Ledger {
    if events == [] then EMPTY else Entry(Book(events[..|events| - 1]), events[|events| - 1])
  }

  // ----- One event -----

  /** The lists are those of the ledger, and the rail is voted for whoever created the instance. */
  ghost predicate Follows(d: Driver, g: Ledger) {
    && d.limits.Valid() && d.master
    && (d.inst.Some? <==> g.creator.Some?)
    && (d.inst.None? ==> g.live == All(multiset{}))
    && (d.inst.Some? ==> SameLists(d.inst.value, g))
    && (d.inst.Some? ==> d.rail == if g.dark then Off else if g.creator == Some(Gyr) then OnNpm else OnLpm)
  }

  ghost predicate SameLists(i: Instance, g: Ledger) {
    forall s :: multiset(i.reqs.Get(s)) == g.live.Get(s)
  }

  lemma RemoveTakesOne(rs: seq<Request>, r: Request)
    ensures multiset(Remove(rs, r)) == multiset(rs) - multiset{r}
  {
    RemoveKeeps(rs, r, r);
  }

  lemma ReplacedList(rs: seq<Request>, exist: Option<Request>, r: Request)
    ensures multiset(RemoveOpt(rs, exist) + [r]) == multiset(rs) - Named(exist) + multiset{r}
  {
    if exist.Some? { RemoveTakesOne(rs, exist.value); }
  }

  lemma RestoredList(rs: seq<Request>, exist: Option<Request>, r: Request)
    ensures exist.Some? ==> multiset(RemoveOpt(rs, exist) + [r] + [exist.value])
                            == multiset(rs) - Named(exist) + multiset{r} + Named(exist)
    ensures exist.None? ==> multiset(RemoveOpt(rs, exist) + [r])
                            == multiset(rs) - Named(exist) + multiset{r} + Named(exist)
  {
    ReplacedList(rs, exist, r);
  }

  /** An accepted configuration, new or replacing another: the one request out, the other in, for its sensor only. */
  lemma ConfigurationIsBooked(d: Driver, s: SensorId, exist: Option<Request>, r: Request, env: Env)
    requires d.limits.Valid() && d.inst.Some? && r.msg.Config?
    ensures var e := Apply(d, Client(s, exist, Some(r), false, env));
            e.inst.Some? && OneListChanged(d.inst.value, e.inst.value, s)
            && multiset(e.inst.value.reqs.Get(s)) == multiset(d.inst.value.reqs.Get(s)) - Named(exist) + multiset{r}
  {
    ConfigurationLists(d, s, exist, r, env);
    ReplacedList(d.inst.value.reqs.Get(s), exist, r);
  }

  lemma ConfigurationLists(d: Driver, s: SensorId, exist: Option<Request>, r: Request, env: Env)
    requires d.limits.Valid() && d.inst.Some? && r.msg.Config?
    ensures var e := Apply(d, Client(s, exist, Some(r), false, env));
            e.inst.Some?
            && e.inst.value.reqs == d.inst.value.reqs.Set(s, RemoveOpt(d.inst.value.reqs.Get(s), exist) + [r])
  {
    RevalKeepsLists(WithReqs(d.inst.value, s, RemoveOpt(d.inst.value.reqs.Get(s), exist) + [r]), s, d.limits);
  }

  ghost predicate OneListChanged(i: Instance, j: Instance, s: SensorId) {
    forall o :: o != s ==> j.reqs.Get(o) == i.reqs.Get(o)
  }

  /** A removal. */
  lemma RemovalIsBooked(d: Driver, s: SensorId, exist: Request, incoming: Option<Request>, env: Env)
    requires d.limits.Valid() && d.inst.Some?
    ensures var e := Apply(d, Client(s, Some(exist), incoming, true, env));
            e.inst.Some? && OneListChanged(d.inst.value, e.inst.value, s)
            && multiset(e.inst.value.reqs.Get(s)) == multiset(d.inst.value.reqs.Get(s)) - multiset{exist}
  {
    RemovalLists(d, s, exist, incoming, env);
    RemoveTakesOne(d.inst.value.reqs.Get(s), exist);
  }

  lemma RemovalLists(d: Driver, s: SensorId, exist: Request, incoming: Option<Request>, env: Env)
    requires d.limits.Valid() && d.inst.Some?
    ensures var e := Apply(d, Client(s, Some(exist), incoming, true, env));
            e.inst.Some? && e.inst.value.reqs == d.inst.value.reqs.Set(s, Remove(d.inst.value.reqs.Get(s), exist))
  {
    RevalKeepsLists(WithReqs(d.inst.value, s, Remove(d.inst.value.reqs.Get(s), exist)), s, d.limits);
  }

  /** A refused message stays in the list with the request it was to replace, and changes nothing else. */
  lemma RefusalIsBooked(d: Driver, s: SensorId, exist: Option<Request>, r: Request, env: Env)
    requires d.limits.Valid() && d.inst.Some? && r.msg.Other?
    ensures var e := Apply(d, Client(s, exist, Some(r), false, env));
            e.inst.Some? && OneListChanged(d.inst.value, e.inst.value, s)
            && multiset(e.inst.value.reqs.Get(s))
               == multiset(d.inst.value.reqs.Get(s)) - Named(exist) + multiset{r} + Named(exist)
            && e == d.(inst := Some(d.inst.value.(reqs := e.inst.value.reqs)))
  {
    RefusalLists(d, s, exist, r, env);
    RestoredList(d.inst.value.reqs.Get(s), exist, r);
  }

  lemma RefusalLists(d: Driver, s: SensorId, exist: Option<Request>, r: Request, env: Env)
    requires d.limits.Valid() && d.inst.Some? && r.msg.Other?
    ensures var e := Apply(d, Client(s, exist, Some(r), false, env));
            var kept := RemoveOpt(d.inst.value.reqs.Get(s), exist) + [r];
            e == d.(inst := Some(WithReqs(d.inst.value, s, if exist.Some? then kept + [exist.value] else kept)))
  {
  }

  /** A flush or a calibration reset on a live instance, and a message that is none, leave the whole state alone. */
  lemma OthersChangeNothing(d: Driver, ev: Event)
    requires d.limits.Valid() && d.inst.Some? && ev.Client?
    requires !IsKept(ev) && (ev.remove ==> ev.exist.None?)
    ensures Apply(d, ev) == d
  {
  }

  /** No client changes the rail, a pending state or a timer once the instance is there. */
  lemma ClientsLeaveRailAndTimers(d: Driver, ev: Event)
    requires d.limits.Valid() && d.inst.Some? && ev.Client?
    ensures var e := Apply(d, ev);
            e == d.(inst := e.inst) && e.inst.Some?
  {
  }

  /** Nothing but the codes and the power bytes of its own sensor is ever changed in a register pair. */
  ghost predicate HighBitsKept(i: Instance, j: Instance) {
    j.accConf.odr & 0xf0 == i.accConf.odr & 0xf0 && j.gyrConf.odr & 0xf0 == i.gyrConf.odr & 0xf0
  }

  lemma SettleKeepsHighBits(i: Instance, s: SensorId, l: Limits)
    requires l.Valid()
    ensures HighBitsKept(i, SettleSensor(i, s, l))
  {
    CodeSticks(i.accConf, Settle(i.rate.Get(s), l));
    CodeSticks(i.gyrConf, Settle(i.rate.Get(s), l));
  }

  lemma RevalKeepsHighBits(i: Instance, s: SensorId, l: Limits)
    requires l.Valid()
    ensures HighBitsKept(i, Reval(i, s, l))
  {
    var a := Chosen(i, s);
    var b := SettleSensor(a, Acc, l);
    var c := SettleSensor(b, Gyr, l);
    SettleKeepsHighBits(a, Acc, l);
    SettleKeepsHighBits(b, Gyr, l);
    SettleKeepsHighBits(c, Temp, l);
  }

  lemma EveryEventKeepsHighBits(d: Driver, ev: Event)
    requires d.limits.Valid() && d.inst.Some?
    ensures Apply(d, ev).inst.Some? && HighBitsKept(d.inst.value, Apply(d, ev).inst.value)
  {
    match ev
    case RailOff => SameRegisters(d.inst.value, d.inst.value, d.inst.value);
    case TimerEvents(s, expired) => TimerKeepsHighBits(d, s, expired);
    case Client(s, exist, incoming, remove, env) =>
      if remove {
        if exist.Some? { RemovalKeepsHighBits(d, s, exist.value, incoming, env); }
      } else if incoming.Some? {
        MessageKeepsHighBits(d, s, exist, incoming.value, env);
      }
  }

  lemma TimerKeepsHighBits(d: Driver, s: SensorId, expired: bool)
    requires d.limits.Valid() && d.inst.Some?
    ensures var e := Apply(d, TimerEvents(s, expired));
            e.inst.Some? && HighBitsKept(d.inst.value, e.inst.value)
  {
    TimersChangeOnly(d, s, expired);
    if d.timer.Get(s) && expired && d.pending.Get(s) == PendingSetReq {
      RevalKeepsHighBits(d.inst.value, s, d.limits);
      assert TimerEvent(d, s, expired).inst == Some(Reval(d.inst.value, s, d.limits));
    } else {
      SameRegisters(d.inst.value, d.inst.value, d.inst.value);
    }
  }

  lemma RemovalKeepsHighBits(d: Driver, s: SensorId, exist: Request, incoming: Option<Request>, env: Env)
    requires d.limits.Valid() && d.inst.Some?
    ensures var e := Apply(d, Client(s, Some(exist), incoming, true, env));
            e.inst.Some? && HighBitsKept(d.inst.value, e.inst.value)
  {
    RevalKeepsHighBits(WithReqs(d.inst.value, s, Remove(d.inst.value.reqs.Get(s), exist)), s, d.limits);
  }

  lemma MessageKeepsHighBits(d: Driver, s: SensorId, exist: Option<Request>, r: Request, env: Env)
    requires d.limits.Valid() && d.inst.Some?
    ensures var e := Apply(d, Client(s, exist, Some(r), false, env));
            e.inst.Some? && HighBitsKept(d.inst.value, e.inst.value)
  {
    if r.msg.Config? {
      HandledKeepsHighBits(d, s, exist, r);
    } else if r.msg.Other? {
      RefusalLists(d, s, exist, r, env);
    }
  }

  lemma HandledKeepsHighBits(d: Driver, s: SensorId, exist: Option<Request>, r: Request)
    requires d.limits.Valid() && d.inst.Some?
    ensures HighBitsKept(d.inst.value, HandleNew(d, s, exist, r).inst.value)
  {
    var i := WithReqs(d.inst.value, s, RemoveOpt(d.inst.value.reqs.Get(s), exist) + [r]);
    if r.msg.Config? && Programs(d, s) {
      RevalKeepsHighBits(i, s, d.limits);
      SameRegisters(d.inst.value, i, Reval(i, s, d.limits));
    } else {
      SameRegisters(d.inst.value, i, i);
    }
  }

  lemma SameRegisters(i: Instance, j: Instance, k: Instance)
    requires i.accConf == j.accConf && i.gyrConf == j.gyrConf && HighBitsKept(j, k)
    ensures HighBitsKept(i, k)
  {
  }

  /** Without a master nothing is attempted. */
  lemma NoMasterNoCreation(d: Driver, ev: Event)
    requires d.limits.Valid() && d.inst.None? && !d.master && ev.Client?
    ensures Apply(d, ev) == d
  {
  }

  /** What an attempt to create the instance leaves, successful or not. */
  lemma CreationChangesOnly(d: Driver, s: SensorId, env: Env)
    requires d.limits.Valid() && d.inst.None? && d.master
    ensures var e := NewInstance(d, s, env);
            && e.inst == (if env.createOk then Some(FRESH) else None)
            && e.master && e.limits == d.limits
            && (e.rail == OnNpm <==> s == Gyr) && (e.rail == OnLpm <==> s != Gyr)
            && (forall o :: o != s ==> e.pending.Get(o) == d.pending.Get(o) && e.timer.Get(o) == d.timer.Get(o))
            && e.pending.Get(s) == (if !env.railSettled && env.timerOk then PendingSetReq else d.pending.Get(s))
            && e.timer.Get(s) == (!env.railSettled && (env.timerOk || d.timer.Get(s)))
  {
  }

  lemma ServedFollows(d: Driver, g: Ledger, ev: Event)
    requires Follows(d, g) && d.inst.Some? && ev.Client?
    ensures Follows(Apply(d, ev), Entry(g, ev))
  {
    ClientsLeaveRailAndTimers(d, ev);
    EveryClientIsBooked(d, ev);
    ListsFollow(d, g, ev);
  }

  /** Whatever a client sends to a live instance, the list of its sensor is booked and no other list changes. */
  lemma EveryClientIsBooked(d: Driver, ev: Event)
    requires d.limits.Valid() && d.inst.Some? && ev.Client?
    ensures var e := Apply(d, ev);
            e.inst.Some? && OneListChanged(d.inst.value, e.inst.value, ev.s)
            && multiset(e.inst.value.reqs.Get(ev.s)) == Booked(multiset(d.inst.value.reqs.Get(ev.s)), ev)
  {
    if ev.remove {
      if ev.exist.Some? {
        RemovalIsBooked(d, ev.s, ev.exist.value, ev.incoming, ev.env);
      } else {
        OthersChangeNothing(d, ev);
      }
    } else if IsConfiguration(ev) {
      ConfigurationIsBooked(d, ev.s, ev.exist, ev.incoming.value, ev.env);
    } else if IsKept(ev) {
      RefusalIsBooked(d, ev.s, ev.exist, ev.incoming.value, ev.env);
    } else {
      OthersChangeNothing(d, ev);
    }
  }

  lemma ListsFollow(d: Driver, g: Ledger, ev: Event)
    requires Follows(d, g) && d.inst.Some? && ev.Client? && Apply(d, ev).inst.Some?
    requires multiset(Apply(d, ev).inst.value.reqs.Get(ev.s)) == Booked(multiset(d.inst.value.reqs.Get(ev.s)), ev)
    requires OneListChanged(d.inst.value, Apply(d, ev).inst.value, ev.s)
    ensures SameLists(Apply(d, ev).inst.value, Entry(g, ev))
  {
    forall o
      ensures multiset(Apply(d, ev).inst.value.reqs.Get(o)) == Entry(g, ev).live.Get(o)
    {
      assert multiset(d.inst.value.reqs.Get(o)) == g.live.Get(o);
    }
  }

  /** The request that creates the instance is the first of its list. */
  lemma CreatedFollows(d: Driver, g: Ledger, ev: Event)
    requires Follows(d, g) && d.inst.None? && ev.Client?
    ensures Follows(Apply(d, ev), Entry(g, ev))
  {
    if NeedsInstance(ev) {
      CreationChangesOnly(d, ev.s, ev.env);
      var e := NewInstance(d, ev.s, ev.env);
      if ev.env.createOk {
        var h := Ledger(Some(ev.s), false, g.live);
        assert Follows(e, h);
        ServedFollows(e, h, ev);
        assert Apply(d, ev) == Apply(e, ev) && Entry(g, ev) == Entry(h, ev);
      }
    }
  }

  lemma EventFollows(d: Driver, g: Ledger, ev: Event)
    requires Follows(d, g) && Sound(d)
    ensures Follows(Apply(d, ev), Entry(g, ev))
  {
    match ev
    case RailOff =>
      if d.inst.Some? { assert forall s :: multiset(d.inst.value.reqs.Get(s)) == g.live.Get(s); }
    case TimerEvents(s, expired) =>
      assert PendingOk(d, s);
      TimerFollows(d, g, s, expired);
    case Client(_, _, _, _, _) =>
      if d.inst.Some? { ServedFollows(d, g, ev); } else { CreatedFollows(d, g, ev); }
  }

  lemma TimerFollows(d: Driver, g: Ledger, s: SensorId, expired: bool)
    requires Follows(d, g) && d.pending.Get(s) != PendingDeinit
    ensures Follows(Apply(d, TimerEvents(s, expired)), Entry(g, TimerEvents(s, expired)))
  {
    TimersChangeOnly(d, s, expired);
    if d.inst.Some? { assert forall o :: multiset(d.inst.value.reqs.Get(o)) == g.live.Get(o); }
  }

  // ----- Every run -----

  /** After every run of any events, the driver's lists and its rail vote are those of the ledger. */
  lemma {:induction false} EveryRunFollows(l: Limits, events: seq<Event>)
    requires l.Valid()
    ensures Follows(Run(Start(l), events), Book(events))
  {
    if events != [] {
      var front, ev := events[..|events| - 1], events[|events| - 1];
      EveryRunFollows(l, front);
      EveryRunIsSound(l, front);
      EventFollows(Run(Start(l), front), Book(front), ev);
      RunLast(Start(l), front, ev);
      assert front + [ev] == events;
    }
  }

  /** While an instance lives and the rail is not voted off, the vote is that of the sensor that created it. */
  lemma EveryRunsRail(l: Limits, events: seq<Event>)
    requires l.Valid()
    ensures var d, g := Run(Start(l), events), Book(events);
            && (d.inst.Some? <==> g.creator.Some?)
            && (d.inst.Some? ==>
                  && (d.rail == OnNpm <==> !g.dark && g.creator == Some(Gyr))
                  && (d.rail == OnLpm <==> !g.dark && g.creator != Some(Gyr))
                  && (d.rail == Off <==> g.dark))
  {
    EveryRunFollows(l, events);
  }

  // ----- Requests are neither lost nor invented -----

  /** Whether the event puts `r` on the list of `s`, and whether it takes it off. */
  function EnteredBy(g: Ledger, ev: Event, s: SensorId, r: Request): nat {
    if IsKept(ev) && ev.s == s && ev.incoming == Some(r) && Exists(g, ev) then 1 else 0
  }

  function LeftBy(ev: Event, s: SensorId, r: Request): nat {
    if ev.Client? && ev.s == s && ev.exist == Some(r) && (ev.remove || IsConfiguration(ev)) then 1 else 0
  }

  /** How often the run has done so. */
  function Entered(events: seq<Event>, s: SensorId, r: Request): nat {
    if events == [] then 0
    else Entered(events[..|events| - 1], s, r) + EnteredBy(Book(events[..|events| - 1]), events[|events| - 1], s, r)
  }

  function Left(events: seq<Event>, s: SensorId, r: Request): nat {
    if events == [] then 0 else Left(events[..|events| - 1], s, r) + LeftBy(events[|events| - 1], s, r)
  }

  /** In every legal run a request is live as often as it was accepted and has not been removed or replaced. */
  lemma {:induction false} RequestsAreConserved(l: Limits, events: seq<Event>, s: SensorId, r: Request)
    requires l.Valid() && AllLegal(Start(l), events)
    ensures Book(events).live.Get(s)[r] + Left(events, s, r) == Entered(events, s, r)
  {
    if events != [] {
      var front, ev := events[..|events| - 1], events[|events| - 1];
      assert front + [ev] == events;
      LegalFront(Start(l), front, ev);
      RequestsAreConserved(l, front, s, r);
      LegalInBook(l, front, ev);
      EntryConserves(Book(front), ev, s, r);
    }
  }

  /** The ledger knows what a legal event names. */
  predicate LegalEntry(g: Ledger, ev: Event) {
    && (ev.Client? && ev.exist.Some? ==> g.creator.Some? && ev.exist.value in g.live.Get(ev.s))
    && (g.creator.None? ==> g.live == All(multiset{}))
  }

  lemma LegalInBook(l: Limits, front: seq<Event>, ev: Event)
    requires l.Valid() && Legal(Run(Start(l), front), ev)
    ensures LegalEntry(Book(front), ev)
  {
    EveryRunFollows(l, front);
    var d := Run(Start(l), front);
    if ev.Client? && ev.exist.Some? {
      assert multiset(d.inst.value.reqs.Get(ev.s)) == Book(front).live.Get(ev.s);
    }
  }

  lemma EntryConserves(g: Ledger, ev: Event, s: SensorId, r: Request)
    requires LegalEntry(g, ev)
    ensures Entry(g, ev).live.Get(s)[r] + LeftBy(ev, s, r) == g.live.Get(s)[r] + EnteredBy(g, ev, s, r)
  {
    if ev.Client? && ev.s == s && Exists(g, ev) {
      BookedConserves(g.live.Get(s), ev, r);
    }
  }

  lemma BookedConserves(qs: multiset<Request>, ev: Event, r: Request)
    requires ev.Client? && (ev.exist.Some? ==> ev.exist.value in qs)
    ensures Booked(qs, ev)[r] + LeftBy(ev, ev.s, r)
         == qs[r] + if IsKept(ev) && ev.incoming == Some(r) then 1 else 0
  {
    Minus(qs, ev.exist, r);
    if IsKept(ev) {
      Plus(qs - Named(ev.exist), ev.incoming, r);
      Plus(qs - Named(ev.exist) + Named(ev.incoming), ev.exist, r);
    }
  }

  lemma Minus(qs: multiset<Request>, x: Option<Request>, r: Request)
    requires x.Some? ==> x.value in qs
    ensures (qs - Named(x))[r] + (if x == Some(r) then 1 else 0) == qs[r]
  {
  }

  lemma Plus(qs: multiset<Request>, x: Option<Request>, r: Request)
    ensures (qs + Named(x))[r] == qs[r] + if x == Some(r) then 1 else 0
  {
  }

  lemma {:induction false} LegalFront(d: Driver, front: seq<Event>, ev: Event)
    requires d.limits.Valid() && AllLegal(d, front + [ev])
    ensures AllLegal(d, front) && Legal(Run(d, front), ev)
    decreases |front|
  {
    if front != [] {
      assert (front + [ev])[0] == front[0] && (front + [ev])[1..] == front[1..] + [ev];
      LegalFront(Apply(d, front[0]), front[1..], ev);
    }
  }

  // ----- What is programmed, from the ledger -----

  /** The run has accepted a configuration of `s`. */
  predicate Configured(events: seq<Event>, s: SensorId) {
    && events != []
    && var front, ev := events[..|events| - 1], events[|events| - 1];
       Configured(front, s) || (IsConfiguration(ev) && ev.s == s && Exists(Book(front), ev))
  }

  lemma {:induction false} AskedLast(d: Driver, front: seq<Event>, ev: Event, asked: set<SensorId>)
    requires d.limits.Valid()
    ensures AskedFrom(d, front + [ev], asked) == Asked(Run(d, front), ev, AskedFrom(d, front, asked))
    decreases |front|
  {
    if front != [] {
      assert (front + [ev])[0] == front[0] && (front + [ev])[1..] == front[1..] + [ev];
      AskedLast(Apply(d, front[0]), front[1..], ev, Asked(d, front[0], asked));
    }
  }

  lemma {:induction false} AskedIsConfigured(l: Limits, events: seq<Event>, s: SensorId)
    requires l.Valid()
    ensures s in AskedBy(Start(l), events) <==> Configured(events, s)
  {
    if events != [] {
      var front, ev := events[..|events| - 1], events[|events| - 1];
      assert front + [ev] == events;
      AskedIsConfigured(l, front, s);
      AskedLast(Start(l), front, ev, {});
      EveryRunFollows(l, front);
      EveryRunFollows(l, events);
      RunLast(Start(l), front, ev);
    }
  }

  lemma {:induction false} PoweredLast(d: Driver, front: seq<Event>, ev: Event)
    requires d.limits.Valid()
    ensures AllPowered(d, front + [ev]) <==> AllPowered(d, front) && Powered(Run(d, front), ev)
    decreases |front|
  {
    if front != [] {
      assert (front + [ev])[0] == front[0] && (front + [ev])[1..] == front[1..] + [ev];
      PoweredLast(Apply(d, front[0]), front[1..], ev);
    }
  }

  lemma {:induction false} PoweredIsNotDark(l: Limits, events: seq<Event>)
    requires l.Valid()
    ensures AllPowered(Start(l), events) <==> Book(events).creator.None? || !Book(events).dark
  {
    if events != [] {
      var front, ev := events[..|events| - 1], events[|events| - 1];
      assert front + [ev] == events;
      PoweredIsNotDark(l, front);
      PoweredLast(Start(l), front, ev);
      EveryRunFollows(l, front);
    }
  }

  /**
   From power-up, in every legal run: a sensor that was ever configured and waits for no timer, on an
   instance whose rail is still on, is programmed to the target of the greatest rate the ledger's live
   requests ask for, and reports just often enough for all of their batch periods.
   */
  lemma EveryRunServesTheLedger(l: Limits, events: seq<Event>, s: SensorId, m: real, n: real)
    requires l.Valid() && AllLegal(Start(l), events)
    requires Configured(events, s) && !Book(events).dark && Run(Start(l), events).pending.Get(s) == NotPending
    requires IsMaxSample(Book(events).live.Get(s), m) && IsMaxReport(Book(events).live.Get(s), n)
    ensures var d := Run(Start(l), events);
            && d.inst.Some? && s in d.inst.value.enabled
            && d.inst.value.rate.Get(s) == Target(s, m, l) && d.inst.value.report.Get(s) == n
  {
    var d := Run(Start(l), events);
    AskedIsConfigured(l, events, s);
    PoweredIsNotDark(l, events);
    EveryRunIsProgrammed(l, events, s);
    EveryRunFollows(l, events);
    var rs := d.inst.value.reqs.Get(s);
    assert multiset(rs) == Book(events).live.Get(s);
    MaxRateIsMax(rs);
    MaximaAreUnique(multiset(rs), m, MaxRate(rs, SampleRate));
    MaximaAreUnique(multiset(rs), n, MaxRate(rs, ReportRate));
  }

  /** In every run no rate of the chip is above the rounded upper limit, nor a positive one below the lower. */
  lemma EveryRunIsInBounds(l: Limits, events: seq<Event>, s: SensorId)
    requires l.Valid() && Run(Start(l), events).inst.Some? && s != Motion
    requires s in Run(Start(l), events).inst.value.enabled
    ensures var rate := Run(Start(l), events).inst.value.rate.Get(s);
            && (exists r :: r in TABLE && rate == r as real)
            && rate <= RoundUp(l.maxOdr) as real
            && (rate > 0.0 && l.minOdr <= l.maxOdr && l.minOdr <= 3200 ==> rate >= l.minOdr as real)
  {
    var i := Run(Start(l), events).inst.value;
    EveryRunIsSound(l, events);
    assert SettleSensor(i, s, l) == i;
    var r := Settle(i.rate.Get(s), l);
    assert i.rate.Get(s) == r as real && r in TABLE;
    SettleBounds(i.rate.Get(s), l);
  }

  /** And a sensor whose live requests want a positive rate is not left below the minimum. */
  lemma EveryRunKeepsTheMinimum(l: Limits, events: seq<Event>, s: SensorId, m: real, n: real)
    requires l.Valid() && AllLegal(Start(l), events) && s != Motion
    requires Configured(events, s) && !Book(events).dark && Run(Start(l), events).pending.Get(s) == NotPending
    requires IsMaxSample(Book(events).live.Get(s), m) && IsMaxReport(Book(events).live.Get(s), n)
    requires m > 0.0 && l.minOdr <= l.maxOdr && l.minOdr <= 3200
    ensures var d := Run(Start(l), events); d.inst.Some? && d.inst.value.rate.Get(s) >= l.minOdr as real
  {
    EveryRunServesTheLedger(l, events, s, m, n);
    SettleBounds(m, l);
  }
}
