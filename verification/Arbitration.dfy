/**
 Arbitration between the clients of one sensor chip: which requests are live, what they add up to,
 and when that is programmed into the chip.
 */
module Arbitration {
  import opened Basics
  import opened SensorRate

  datatype SensorId = Acc | Gyr | Motion | Temp

  /** One value for each sensor. */
  datatype PerSensor<T> = PerSensor(acc: T, gyr: T, motion: T, temp: T) {
    function Get(s: SensorId): T {
      match s case Acc => acc case Gyr => gyr case Motion => motion case Temp => temp
    }
    function Set(s: SensorId, x: T): PerSensor<T> {
      match s
      case Acc => this.(acc := x)
      case Gyr => this.(gyr := x)
      case Motion => this.(motion := x)
      case Temp => this.(temp := x)
    }
  }

  function All<T>(x: T): PerSensor<T> { PerSensor(x, x, x, x) }

  /** What is decoded of a configuration request; a batch period of 0 stands for none. */
  datatype Body = Body(rate: real, batch: nat) {
    function Report(): real { if batch > 0 then 1000000.0 / batch as real else rate }
  }

  /** A client's message; a configuration whose payload cannot be decoded has no body. */
  datatype Msg = Config(body: Option<Body>) | Flush | CalReset | Other
  datatype Request = Request(id: nat, msg: Msg)

  datatype Rail = Off | OnLpm | OnNpm
  datatype Pending = NotPending | PendingInit | PendingSetReq | PendingDeinit

  /** The two bytes of ACC_CONF or GYR_CONF. */
  datatype Conf = Conf(odr: bv8, power: bv8)

  /** The shared sensor instance. */
  datatype Instance = Instance(reqs: PerSensor<seq<Request>>, rate: PerSensor<real>, report: PerSensor<real>,
                               enabled: set<SensorId>, accConf: Conf, gyrConf: Conf)

  datatype Driver = Driver(limits: Limits, master: bool, rail: Rail, pending: PerSensor<Pending>,
                           timer: PerSensor<bool>, inst: Option<Instance>)

  /** The framework's answers: an instance can be created, the rail has been on long enough, a timer starts. */
  datatype Env = Env(createOk: bool, railSettled: bool, timerOk: bool)

  datatype Event =
    | Client(s: SensorId, exist: Option<Request>, incoming: Option<Request>, remove: bool, env: Env)
    | TimerEvents(s: SensorId, expired: bool)   // a batch of the timer stream, with an expiry in it or not
    | RailOff   // hardware detection of a sibling sensor ends by voting the rail off

  // ----- Configuration -----

  function PowerByte(rate: nat): bv8 {
    if rate == 0 then 0x00 else if rate < 15 then 0x30 else if rate >= 400 then 0x70 else 0x40
  }

  /** The two rates that are chosen. */
  datatype Measure = SampleRate | ReportRate

  function ValueOf(b: Body, k: Measure): real {
    match k case SampleRate => b.rate case ReportRate => b.Report()
  }

  /** The greatest rate among the configuration requests that can be decoded, 0 without any. */
  function MaxRate(rs: seq<Request>, k: Measure): real {
    if rs == [] then 0.0
    else
      var m := MaxRate(rs[..|rs| - 1], k);
      match rs[|rs| - 1].msg
      case Config(Some(b)) => Max(m, ValueOf(b, k))
      case _ => m
  }

  ghost predicate HasConfig(rs: seq<Request>) {
    exists i :: 0 <= i < |rs| && rs[i].msg.Config?
  }

  /** The rate a sensor ought to be programmed to for the greatest requested one; motion has no rate of the chip. */
  function Target(s: SensorId, rate: real, l: Limits): real
    requires l.Valid()
  {
    if s == Motion then rate else Settle(rate, l) as real
  }

  /** The same for the live requests `rs`. */
  function Wanted(s: SensorId, rs: seq<Request>, l: Limits): real
    requires l.Valid()
  {
    Target(s, MaxRate(rs, SampleRate), l)
  }

  /** The register bytes for a rate: only the code nibble of the first byte changes. */
  function ConfFor(was: Conf, rate: nat): Conf {
    Conf((was.odr & 0xf0) | OdrCode(rate), PowerByte(rate))
  }

  /** One sensor's part of `demo_config_hw`. */
  function SettleSensor(i: Instance, s: SensorId, l: Limits): Instance
    requires l.Valid()
  {
    if s !in i.enabled then i
    else
      var r := Settle(i.rate.Get(s), l);
      var j := i.(rate := i.rate.Set(s, r as real));
      match s
      case Acc => j.(accConf := ConfFor(i.accConf, r))
      case Gyr => j.(gyrConf := ConfFor(i.gyrConf, r))
      case Motion => i
      case Temp => j
  }

  /** Every enabled sensor is derived again, whichever the request was for. */
  function ConfigHw(i: Instance, l: Limits): Instance
    requires l.Valid()
  {
    SettleSensor(SettleSensor(SettleSensor(i, Acc, l), Gyr, l), Temp, l)
  }

  /** demo_reval_instance_config, down to the hardware. */
  function Reval(i: Instance, s: SensorId, l: Limits): Instance
    requires l.Valid()
  {
    ConfigHw(Chosen(i, s), l)
  }

  /** The instance with the chosen rates of one sensor, before the hardware is configured. */
  function Chosen(i: Instance, s: SensorId): Instance {
    i.(rate := i.rate.Set(s, MaxRate(i.reqs.Get(s), SampleRate)),
       report := i.report.Set(s, MaxRate(i.reqs.Get(s), ReportRate)),
       enabled := i.enabled + {s})
  }

  // ----- Requests -----

  function Remove(rs: seq<Request>, r: Request): seq<Request> {
    if rs == [] then []
    else if rs[0] == r then rs[1..]
    else [rs[0]] + Remove(rs[1..], r)
  }

  function RemoveOpt(rs: seq<Request>, r: Option<Request>): seq<Request> {
    match r case None => rs case Some(x) => Remove(rs, x)
  }

  function WithReqs(i: Instance, s: SensorId, rs: seq<Request>): Instance {
    i.(reqs := i.reqs.Set(s, rs))
  }

  const FRESH := Instance(All([]), All(0.0), All(0.0), {}, Conf(0, 0), Conf(0, 0))

  function NewInstance(d: Driver, s: SensorId, env: Env): Driver {
    if !d.master then d
    else
      var on := d.(rail := if s == Gyr then OnNpm else OnLpm, inst := if env.createOk then Some(FRESH) else None);
      if env.railSettled then on.(timer := d.timer.Set(s, false))
      else if env.timerOk then on.(timer := d.timer.Set(s, true), pending := d.pending.Set(s, PendingSetReq))
      else on
  }

  /** The guard under which a request is programmed at once. */
  predicate Programs(d: Driver, s: SensorId) {
    d.rail != Off && d.pending.Get(s) == NotPending
  }

  function HandleNew(d: Driver, s: SensorId, exist: Option<Request>, r: Request): Driver
    requires d.limits.Valid() && d.inst.Some?
  {
    var i := WithReqs(d.inst.value, s, RemoveOpt(d.inst.value.reqs.Get(s), exist) + [r]);
    d.(inst := Some(if r.msg.Config? && Programs(d, s) then Reval(i, s, d.limits) else i))
  }

  function SetClientRequest(d: Driver, s: SensorId, exist: Option<Request>, incoming: Option<Request>, remove: bool,
                            env: Env): Driver
    requires d.limits.Valid()
  {
    if remove then
      if d.inst.Some? && exist.Some? then
        d.(inst := Some(Reval(WithReqs(d.inst.value, s, Remove(d.inst.value.reqs.Get(s), exist.value)), s, d.limits)))
      else d
    else if incoming.None? then d
    else
      var msg := incoming.value.msg;
      var e := if d.inst.None? && !msg.Flush? then NewInstance(d, s, env) else d;
      if e.inst.None? || msg.Flush? || msg.CalReset? then e
      else
        var f := HandleNew(e, s, exist, incoming.value);
        // a message that is no configuration is refused, and the replaced request is put back
        if !msg.Config? && exist.Some? then
          f.(inst := Some(WithReqs(f.inst.value, s, f.inst.value.reqs.Get(s) + [exist.value])))
        else f
  }

  function TimerEvent(d: Driver, s: SensorId, expired: bool): Driver
    requires d.limits.Valid()
  {
    if !d.timer.Get(s) then d
    else
      var e := if expired then Expired(d, s) else d;
      if e.pending.Get(s) == NotPending then e.(timer := e.timer.Set(s, false)) else e
  }

  function Expired(d: Driver, s: SensorId): Driver
    requires d.limits.Valid()
  {
    var e :=
      match d.pending.Get(s)
      case NotPending => d
      case PendingInit => d
      case PendingSetReq => if d.inst.Some? then d.(inst := Some(Reval(d.inst.value, s, d.limits))) else d
      case PendingDeinit => d.(rail := Off);
    e.(pending := d.pending.Set(s, NotPending))
  }

  function Apply(d: Driver, ev: Event): (e: Driver)
    requires d.limits.Valid()
    ensures e.limits == d.limits
  {
    match ev
    case Client(s, exist, incoming, remove, env) => SetClientRequest(d, s, exist, incoming, remove, env)
    case TimerEvents(s, expired) => TimerEvent(d, s, expired)
    case RailOff => d.(rail := Off)
  }

  /** The framework names as existing only a request the driver still has. */
  predicate Legal(d: Driver, ev: Event) {
    ev.Client? && ev.exist.Some? ==> d.inst.Some? && ev.exist.value in d.inst.value.reqs.Get(ev.s)
  }

  function Start(l: Limits): Driver {
    Driver(l, true, Off, All(NotPending), All(false), None)
  }

  function Run(d: Driver, events: seq<Event>): (e: Driver)
    requires d.limits.Valid()
    ensures e.limits == d.limits
    decreases |events|
  {
    if events == [] then d else Run(Apply(d, events[0]), events[1..])
  }

  predicate AllLegal(d: Driver, events: seq<Event>)
    requires d.limits.Valid()
    decreases |events|
  {
    events == [] || (Legal(d, events[0]) && AllLegal(Apply(d, events[0]), events[1..]))
  }

  // ----- Reconfiguring one sensor leaves the others alone -----

  /** Deriving the configuration once more would change nothing. */
  ghost predicate Stable(i: Instance, l: Limits)
    requires l.Valid()
  {
    forall s :: SettleSensor(i, s, l) == i
  }

  lemma Nibble(c: bv8, o: bv8)
    requires o <= 0x0f
    ensures (((c & 0xf0) | o) & 0xf0) | o == (c & 0xf0) | o
    ensures ((c & 0xf0) | o) & 0x0f == o && ((c & 0xf0) | o) & 0xf0 == c & 0xf0
  {
  }

  /** The code is all that changes in the first byte, and writing it twice is writing it once. */
  lemma CodeSticks(was: Conf, rate: nat)
    ensures ConfFor(ConfFor(was, rate), rate) == ConfFor(was, rate)
    ensures ConfFor(was, rate).odr & 0x0f == OdrCode(rate)
    ensures ConfFor(was, rate).odr & 0xf0 == was.odr & 0xf0
  {
    Nibble(was.odr, OdrCode(rate));
  }

  lemma SettledOnce(i: Instance, s: SensorId, l: Limits)
    requires l.Valid()
    ensures SettleSensor(SettleSensor(i, s, l), s, l) == SettleSensor(i, s, l)
  {
    SettleIsIdempotent(i.rate.Get(s), l);
    CodeSticks(i.accConf, Settle(i.rate.Get(s), l));
    CodeSticks(i.gyrConf, Settle(i.rate.Get(s), l));
  }

  /** What settling one sensor reads and writes is its own. */
  lemma SettledApart(i: Instance, s: SensorId, t: SensorId, l: Limits)
    requires l.Valid() && s != t && SettleSensor(i, s, l) == i
    ensures SettleSensor(SettleSensor(i, t, l), s, l) == SettleSensor(i, t, l)
  {
  }

  lemma ConfigHwIsStable(i: Instance, l: Limits)
    requires l.Valid()
    ensures Stable(ConfigHw(i, l), l)
  {
    var a := SettleSensor(i, Acc, l);
    var b := SettleSensor(a, Gyr, l);
    SettledOnce(i, Acc, l);
    SettledOnce(a, Gyr, l);
    SettledOnce(b, Temp, l);
    SettledApart(a, Acc, Gyr, l);
    SettledApart(b, Acc, Temp, l);
    SettledApart(b, Gyr, Temp, l);
    forall s
      ensures SettleSensor(ConfigHw(i, l), s, l) == ConfigHw(i, l)
    {
      match s case Acc => case Gyr => case Motion => case Temp =>
    }
  }

  /** Configuring one sensor keeps the rate and the register bytes of every other enabled sensor. */
  lemma OthersUntouched(i: Instance, s: SensorId, o: SensorId, l: Limits)
    requires l.Valid() && Stable(i, l) && o in i.enabled && o != s
    ensures var j := Reval(i, s, l);
            && j.rate.Get(o) == i.rate.Get(o) && j.report.Get(o) == i.report.Get(o)
            && (o == Acc ==> j.accConf == i.accConf) && (o == Gyr ==> j.gyrConf == i.gyrConf)
  {
    assert SettleSensor(i, o, l) == i;
  }

  /** The sensor itself is programmed to what its live requests want. */
  lemma RevalPrograms(i: Instance, s: SensorId, l: Limits)
    requires l.Valid()
    ensures var j := Reval(i, s, l);
            && j.reqs == i.reqs && j.report.Get(s) == MaxRate(i.reqs.Get(s), ReportRate)
            && j.enabled == i.enabled + {s} && Stable(j, l)
            && j.rate.Get(s) == Wanted(s, i.reqs.Get(s), l)
  {
    ConfigHwIsStable(Chosen(i, s), l);
  }

  // ----- What the live requests add up to -----

  /** The request has the value `m` of the measure. */
  predicate Gives(q: Request, k: Measure, m: real) {
    q.msg.Config? && q.msg.body.Some? && ValueOf(q.msg.body.value, k) == m
  }

  lemma {:induction false} MaxRateIsReached(rs: seq<Request>, k: Measure)
    ensures MaxRate(rs, k) >= 0.0 && (forall q, v :: q in rs && Gives(q, k, v) ==> v <= MaxRate(rs, k))
    ensures MaxRate(rs, k) > 0.0 ==> exists q :: q in rs && Gives(q, k, MaxRate(rs, k))
  {
    if rs != [] {
      var init, last := rs[..|rs| - 1], rs[|rs| - 1];
      MaxRateIsReached(init, k);
      assert rs == init + [last];
      if last.msg.Config? && last.msg.body.Some? { assert Gives(last, k, ValueOf(last.msg.body.value, k)); }
    }
  }

  predicate Decoded(q: Request) {
    q.msg.Config? && q.msg.body.Some?
  }

  /** `m` is the greatest rate asked for, 0 if none is. */
  ghost predicate IsMaxSample(qs: multiset<Request>, m: real) {
    && m >= 0.0
    && (forall q :: q in qs && Decoded(q) ==> q.msg.body.value.rate <= m)
    && (m > 0.0 ==> exists q :: q in qs && Decoded(q) && q.msg.body.value.rate == m)
  }

  /** A client that is reported to `m` times a second is served in time: once per batch period, in microseconds. */
  predicate Serves(m: real, b: Body) {
    if b.batch > 0 then m * b.batch as real >= 1000000.0 else m >= b.rate
  }

  predicate ServesExactly(m: real, b: Body) {
    if b.batch > 0 then m * b.batch as real == 1000000.0 else m == b.rate
  }

  /** `m` serves every client in time, and one of them no better than it asked for. */
  ghost predicate IsMaxReport(qs: multiset<Request>, m: real) {
    && m >= 0.0
    && (forall q :: q in qs && Decoded(q) ==> Serves(m, q.msg.body.value))
    && (m > 0.0 ==> exists q :: q in qs && Decoded(q) && ServesExactly(m, q.msg.body.value))
  }

  /** A batch period is a rate: one report per period. */
  lemma ReportIsOncePerPeriod(b: Body)
    ensures b.batch > 0 ==> b.Report() * b.batch as real == 1000000.0
    ensures b.batch == 0 ==> b.Report() == b.rate
  {
  }

  lemma ReportServes(b: Body, m: real)
    ensures b.Report() <= m <==> Serves(m, b)
    ensures b.Report() == m <==> ServesExactly(m, b)
  {
    if b.batch > 0 {
      ReportIsOncePerPeriod(b);
      Scaled(b.Report(), m, b.batch as real);
    }
  }

  lemma Scaled(x: real, y: real, n: real)
    requires n > 0.0
    ensures x <= y <==> x * n <= y * n
    ensures x == y <==> x * n == y * n
  {
    if x < y { assert (y - x) * n > 0.0; }
    if y < x { assert (x - y) * n > 0.0; }
  }

  /** The two chosen rates are what their names say. */
  lemma MaxRateIsMax(rs: seq<Request>)
    ensures IsMaxSample(multiset(rs), MaxRate(rs, SampleRate))
    ensures IsMaxReport(multiset(rs), MaxRate(rs, ReportRate))
  {
    MaxRateIsReached(rs, SampleRate);
    MaxRateIsReached(rs, ReportRate);
    var m, n := MaxRate(rs, SampleRate), MaxRate(rs, ReportRate);
    forall q | q in rs && Decoded(q)
      ensures q.msg.body.value.rate <= m && Serves(n, q.msg.body.value)
    {
      assert Gives(q, SampleRate, q.msg.body.value.rate) && Gives(q, ReportRate, q.msg.body.value.Report());
      ReportServes(q.msg.body.value, n);
    }
    if m > 0.0 {
      var q :| q in rs && Gives(q, SampleRate, m);
      assert q in multiset(rs) && Decoded(q) && q.msg.body.value.rate == m;
    }
    if n > 0.0 {
      var q :| q in rs && Gives(q, ReportRate, n);
      ReportServes(q.msg.body.value, n);
      assert q in multiset(rs) && Decoded(q) && ServesExactly(n, q.msg.body.value);
    }
  }

  /** And there is only one such rate each. */
  lemma MaximaAreUnique(qs: multiset<Request>, m: real, n: real)
    ensures IsMaxSample(qs, m) && IsMaxSample(qs, n) ==> m == n
    ensures IsMaxReport(qs, m) && IsMaxReport(qs, n) ==> m == n
  {
    if IsMaxReport(qs, m) && IsMaxReport(qs, n) {
      NotBelow(qs, m, n);
      NotBelow(qs, n, m);
    }
  }

  lemma NotBelow(qs: multiset<Request>, m: real, n: real)
    requires IsMaxReport(qs, m) && IsMaxReport(qs, n)
    ensures m <= n
  {
    if m > 0.0 {
      var q :| q in qs && Decoded(q) && ServesExactly(m, q.msg.body.value);
      ReportServes(q.msg.body.value, m);
      ReportServes(q.msg.body.value, n);
    }
  }

  /** The arbitration does not depend on the order of the requests, nor on those that configure nothing. */
  lemma SameMax(a: seq<Request>, b: seq<Request>)
    requires forall q: Request :: q.msg.Config? ==> (q in a <==> q in b)
    ensures forall k :: MaxRate(a, k) == MaxRate(b, k)
    ensures HasConfig(a) <==> HasConfig(b)
  {
    forall k: Measure
      ensures MaxRate(a, k) == MaxRate(b, k)
    {
      MaxRateIsReached(a, k);
      MaxRateIsReached(b, k);
    }
    assert forall c: seq<Request> :: HasConfig(c) <==> exists q :: q in c && q.msg.Config?;
  }

  lemma {:induction false} RemoveKeeps(rs: seq<Request>, r: Request, q: Request)
    ensures q in Remove(rs, r) ==> q in rs
    ensures q in rs && q != r ==> q in Remove(rs, r)
    ensures multiset(rs) == multiset(Remove(rs, r)) + if r in rs then multiset{r} else multiset{}
  {
    if rs != [] {
      assert rs == [rs[0]] + rs[1..];
      RemoveKeeps(rs[1..], r, q);
    }
  }

  // ----- Every run -----

  /** The sensor is set up for its live requests. */
  ghost predicate Right(i: Instance, s: SensorId, l: Limits)
    requires l.Valid()
  {
    && (HasConfig(i.reqs.Get(s)) ==> s in i.enabled)
    && (s in i.enabled ==>
          i.rate.Get(s) == Wanted(s, i.reqs.Get(s), l) && i.report.Get(s) == MaxRate(i.reqs.Get(s), ReportRate))
  }

  function InstanceOf(d: Driver): Instance {
    if d.inst.Some? then d.inst.value else FRESH
  }

  ghost predicate GoodSensor(d: Driver, i: Instance, asked: set<SensorId>, s: SensorId)
    requires d.limits.Valid()
  {
    && (d.pending.Get(s) == NotPending || d.pending.Get(s) == PendingSetReq)
    && (s in asked ==> s in i.enabled || HasConfig(i.reqs.Get(s)))
    && (d.pending.Get(s) == NotPending ==> Right(i, s, d.limits))
  }

  ghost predicate EachGood(d: Driver, i: Instance, asked: set<SensorId>)
    requires d.limits.Valid()
  {
    forall s :: GoodSensor(d, i, asked, s)
  }

  /** What every event keeps; `asked` are the sensors whose configuration was ever accepted. */
  ghost predicate Good(d: Driver, asked: set<SensorId>) {
    && d.limits.Valid()
    && (d.inst.Some? ==> d.rail != Off && Stable(d.inst.value, d.limits))
    && (d.inst.None? ==> asked == {})
    && EachGood(d, InstanceOf(d), asked)
  }

  predicate Accepts(d: Driver, ev: Event)
    requires d.limits.Valid()
  {
    && ev.Client? && !ev.remove && ev.incoming.Some? && ev.incoming.value.msg.Config?
    && Apply(d, ev).inst.Some?
  }

  function Asked(d: Driver, ev: Event, asked: set<SensorId>): set<SensorId>
    requires d.limits.Valid()
  {
    if Accepts(d, ev) then asked + {ev.s} else asked
  }

  /** The rail is not voted off under a live instance. */
  predicate Powered(d: Driver, ev: Event) {
    ev.RailOff? ==> d.inst.None?
  }

  lemma RevalKeeps(d: Driver, i: Instance, s: SensorId, o: SensorId, asked: set<SensorId>)
    requires d.limits.Valid() && Stable(i, d.limits)
    requires o != s ==> GoodSensor(d, i, asked, o)
    requires d.pending.Get(o) == NotPending || d.pending.Get(o) == PendingSetReq
    ensures Stable(Reval(i, s, d.limits), d.limits)
    ensures GoodSensor(d, Reval(i, s, d.limits), asked, o)
    ensures Right(Reval(i, s, d.limits), s, d.limits)
  {
    var l := d.limits;
    ConfigHwIsStable(Chosen(i, s), l);
    RevalPrograms(i, s, l);
    if o != s && o in i.enabled { OthersUntouched(i, s, o, l); }
  }

  lemma FreshIsStable(l: Limits)
    requires l.Valid()
    ensures Stable(FRESH, l)
  {
  }

  lemma NewInstanceKeeps(d: Driver, s: SensorId, env: Env)
    requires Good(d, {}) && d.inst.None?
    ensures Good(NewInstance(d, s, env), {})
  {
    FreshIsStable(d.limits);
    var e := NewInstance(d, s, env);
    forall o
      ensures GoodSensor(e, FRESH, {}, o)
    {
      assert GoodSensor(d, FRESH, {}, o);
    }
  }

  lemma RequestsAreNotSettled(i: Instance, s: SensorId, rs: seq<Request>, l: Limits)
    requires l.Valid() && Stable(i, l)
    ensures Stable(WithReqs(i, s, rs), l)
  {
    forall x
      ensures SettleSensor(WithReqs(i, s, rs), x, l) == WithReqs(i, s, rs)
    {
      assert SettleSensor(i, x, l) == i;
    }
  }

  /** Changing the requests of one sensor concerns that sensor only. */
  lemma WithReqsKeeps(d: Driver, i: Instance, s: SensorId, o: SensorId, rs: seq<Request>, asked: set<SensorId>)
    requires d.limits.Valid() && Stable(i, d.limits)
    requires GoodSensor(d, i, asked, o)
    ensures Stable(WithReqs(i, s, rs), d.limits)
    ensures o != s ==> GoodSensor(d, WithReqs(i, s, rs), asked + {s}, o)
  {
    RequestsAreNotSettled(i, s, rs, d.limits);
  }

  lemma HandleNewKeeps(d: Driver, s: SensorId, exist: Option<Request>, r: Request, asked: set<SensorId>)
    requires Good(d, asked) && d.inst.Some? && r.msg.Config?
    ensures Good(HandleNew(d, s, exist, r), asked + {s})
    ensures d.pending.Get(s) == NotPending ==> s in HandleNew(d, s, exist, r).inst.value.enabled
  {
    var rs := RemoveOpt(d.inst.value.reqs.Get(s), exist) + [r];
    var i := WithReqs(d.inst.value, s, rs);
    var e := HandleNew(d, s, exist, r);
    assert rs[|rs| - 1] == r && HasConfig(rs);
    WithReqsKeeps(d, d.inst.value, s, s, rs, asked);
    forall o
      ensures GoodSensor(e, e.inst.value, asked + {s}, o)
    {
      assert GoodSensor(d, d.inst.value, asked, o);
      WithReqsKeeps(d, d.inst.value, s, o, rs, asked);
      if Programs(d, s) { RevalKeeps(d, i, s, o, asked + {s}); }
    }
    if Programs(d, s) { RevalKeeps(d, i, s, s, asked); }
  }

  lemma OtherKeeps(d: Driver, s: SensorId, rs: seq<Request>, asked: set<SensorId>)
    requires Good(d, asked) && d.inst.Some?
    requires forall q: Request :: q.msg.Config? ==> (q in rs <==> q in d.inst.value.reqs.Get(s))
    ensures Good(d.(inst := Some(WithReqs(d.inst.value, s, rs))), asked)
  {
    var i := d.inst.value;
    var j := WithReqs(i, s, rs);
    SameMax(rs, i.reqs.Get(s));
    WithReqsKeeps(d, i, s, s, rs, asked);
    forall o
      ensures GoodSensor(d.(inst := Some(j)), j, asked, o)
    {
      assert GoodSensor(d, i, asked, o);
      WithReqsKeeps(d, i, s, o, rs, asked);
    }
  }

  lemma RemoveEventKeeps(d: Driver, s: SensorId, exist: Request, asked: set<SensorId>)
    requires Good(d, asked) && d.inst.Some?
    ensures var e := SetClientRequest(d, s, Some(exist), None, true, Env(true, true, true));
            && Good(e, asked) && Right(e.inst.value, s, d.limits)
  {
    var rs := Remove(d.inst.value.reqs.Get(s), exist);
    var i := WithReqs(d.inst.value, s, rs);
    var e := SetClientRequest(d, s, Some(exist), None, true, Env(true, true, true));
    WithReqsKeeps(d, d.inst.value, s, s, rs, asked);
    assert GoodSensor(d, d.inst.value, asked, s);
    RevalKeeps(d, i, s, s, asked);
    forall o
      ensures GoodSensor(e, e.inst.value, asked, o)
    {
      assert GoodSensor(d, d.inst.value, asked, o);
      WithReqsKeeps(d, d.inst.value, s, o, rs, asked);
      RevalKeeps(d, i, s, o, asked);
    }
  }

  /** The deferred timer programs what was deferred. */
  lemma TimerKeeps(d: Driver, s: SensorId, expired: bool, asked: set<SensorId>)
    requires Good(d, asked)
    ensures Good(TimerEvent(d, s, expired), asked)
    ensures d.inst.Some? && d.timer.Get(s) && expired
      ==> Right(TimerEvent(d, s, expired).inst.value, s, d.limits)
          && TimerEvent(d, s, expired).pending.Get(s) == NotPending
  {
    var i := InstanceOf(d);
    var e := TimerEvent(d, s, expired);
    var programs := d.timer.Get(s) && expired && d.pending.Get(s) == PendingSetReq && d.inst.Some?;
    assert GoodSensor(d, i, asked, s);
    if programs { RevalKeeps(d, i, s, s, asked); }
    forall o: SensorId
      ensures GoodSensor(e, InstanceOf(e), asked, o)
    {
      assert GoodSensor(d, i, asked, o);
      if programs { RevalKeeps(d, i, s, o, asked); }
    }
  }

  /** Replacing a request by one that is no configuration and restoring it brings the same configurations back. */
  lemma RestoredConfigs(rs: seq<Request>, exist: Option<Request>, r: Request)
    requires exist.Some? ==> exist.value in rs
    requires !r.msg.Config?
    ensures var now := RemoveOpt(rs, exist) + [r] + (if exist.Some? then [exist.value] else []);
            forall q: Request :: q.msg.Config? ==> (q in now <==> q in rs)
  {
    forall q: Request | q.msg.Config?
      ensures q in RemoveOpt(rs, exist) + [r] + (if exist.Some? then [exist.value] else []) <==> q in rs
    {
      if exist.Some? { RemoveKeeps(rs, exist.value, q); }
    }
  }

  lemma RefusedKeeps(d: Driver, s: SensorId, exist: Option<Request>, r: Request, asked: set<SensorId>)
    requires Good(d, asked) && d.inst.Some? && r.msg.Other?
    requires exist.Some? ==> exist.value in d.inst.value.reqs.Get(s)
    ensures Good(SetClientRequest(d, s, exist, Some(r), false, Env(true, true, true)), asked)
  {
    var rs := d.inst.value.reqs.Get(s);
    var now := RemoveOpt(rs, exist) + [r] + (if exist.Some? then [exist.value] else []);
    RestoredConfigs(rs, exist, r);
    OtherKeeps(d, s, now, asked);
    assert exist.None? ==> now == RemoveOpt(rs, exist) + [r];
    assert SetClientRequest(d, s, exist, Some(r), false, Env(true, true, true))
        == d.(inst := Some(WithReqs(d.inst.value, s, now)));
  }

  lemma ClientKeeps(d: Driver, s: SensorId, exist: Option<Request>, r: Request, env: Env, asked: set<SensorId>)
    requires Good(d, asked) && Legal(d, Client(s, exist, Some(r), false, env))
    ensures var ev := Client(s, exist, Some(r), false, env); Good(Apply(d, ev), Asked(d, ev, asked))
  {
    if d.inst.None? && !r.msg.Flush? {
      NewInstanceKeeps(d, s, env);
      var e := NewInstance(d, s, env);
      if e.inst.Some? { ServedKeeps(e, s, None, r, asked); }
    } else if d.inst.Some? {
      ServedKeeps(d, s, exist, r, asked);
    }
  }

  /** The part of a client's message that concerns an existing instance. */
  lemma ServedKeeps(d: Driver, s: SensorId, exist: Option<Request>, r: Request, asked: set<SensorId>)
    requires Good(d, asked) && d.inst.Some?
    requires exist.Some? ==> exist.value in d.inst.value.reqs.Get(s)
    ensures var e := SetClientRequest(d, s, exist, Some(r), false, Env(true, true, true));
            e.inst.Some? && Good(e, if r.msg.Config? then asked + {s} else asked)
  {
    match r.msg
    case Config(_) => HandleNewKeeps(d, s, exist, r, asked);
    case Other => RefusedKeeps(d, s, exist, r, asked);
    case Flush =>
    case CalReset =>
  }

  lemma StepKeeps(d: Driver, ev: Event, asked: set<SensorId>)
    requires Good(d, asked) && Legal(d, ev) && Powered(d, ev)
    ensures Good(Apply(d, ev), Asked(d, ev, asked))
  {
    match ev
    case TimerEvents(s, expired) => TimerKeeps(d, s, expired, asked);
    case RailOff =>
      var i := FRESH;
      forall s ensures GoodSensor(d.(rail := Off), i, asked, s) { assert GoodSensor(d, i, asked, s); }
    case Client(s, exist, incoming, remove, env) =>
      if remove {
        if d.inst.Some? && exist.Some? { RemoveEventKeeps(d, s, exist.value, asked); }
      } else if incoming.Some? {
        ClientKeeps(d, s, exist, incoming.value, env, asked);
      }
  }

  /** What the invariant says of a configured sensor that waits for nothing. */
  lemma GoodIsRight(d: Driver, asked: set<SensorId>, s: SensorId)
    requires Good(d, asked) && s in asked && d.pending.Get(s) == NotPending
    ensures d.inst.Some? && s in d.inst.value.enabled && Right(d.inst.value, s, d.limits)
  {
    assert d.inst.Some?;
    assert GoodSensor(d, d.inst.value, asked, s);
  }

  function AskedBy(d: Driver, events: seq<Event>): set<SensorId>
    requires d.limits.Valid()
    decreases |events|
  {
    AskedFrom(d, events, {})
  }

  function AskedFrom(d: Driver, events: seq<Event>, asked: set<SensorId>): set<SensorId>
    requires d.limits.Valid()
    decreases |events|
  {
    if events == [] then asked else AskedFrom(Apply(d, events[0]), events[1..], Asked(d, events[0], asked))
  }

  predicate AllPowered(d: Driver, events: seq<Event>)
    requires d.limits.Valid()
    decreases |events|
  {
    events == [] || (Powered(d, events[0]) && AllPowered(Apply(d, events[0]), events[1..]))
  }

  lemma {:induction false} RunKeeps(d: Driver, events: seq<Event>, asked: set<SensorId>)
    requires Good(d, asked) && AllLegal(d, events) && AllPowered(d, events)
    ensures Good(Run(d, events), AskedFrom(d, events, asked))
    decreases |events|
  {
    if events != [] {
      StepKeeps(d, events[0], asked);
      RunKeeps(Apply(d, events[0]), events[1..], Asked(d, events[0], asked));
    }
  }

  lemma StartIsGood(l: Limits)
    requires l.Valid()
    ensures Good(Start(l), {})
  {
  }

  /**
   In every run in which the rail is not voted off under the instance, every sensor that was ever
   configured and waits for no rail timer is programmed to the rounded and clamped maximum of its
   live requests.
   */
  lemma EveryRunIsProgrammed(l: Limits, events: seq<Event>, s: SensorId)
    requires l.Valid() && AllLegal(Start(l), events) && AllPowered(Start(l), events)
    requires s in AskedBy(Start(l), events)
    requires Run(Start(l), events).pending.Get(s) == NotPending
    ensures var d := Run(Start(l), events);
            && d.inst.Some? && s in d.inst.value.enabled
            && d.inst.value.rate.Get(s) == Wanted(s, d.inst.value.reqs.Get(s), l)
            && d.inst.value.report.Get(s) == MaxRate(d.inst.value.reqs.Get(s), ReportRate)
  {
    StartIsGood(l);
    RunKeeps(Start(l), events, {});
    var d := Run(Start(l), events);
    assert d.inst.Some?;
    GoodIsRight(d, AskedBy(Start(l), events), s);
  }

  // ----- The registers -----

  /** The register bytes say what the rate says: the table position of the rate, and its power mode. */
  ghost predicate RegistersMatch(c: Conf, rate: real) {
    var odr := (c.odr & 0x0f) as nat;
    && 0 < odr <= |TABLE| && TABLE[odr - 1] as real == rate
    && (c.power == 0x00 || c.power == 0x30 || c.power == 0x40 || c.power == 0x70)
    && (c.power == 0x00 <==> rate == 0.0)
    && (c.power == 0x30 <==> 0.0 < rate < 15.0)
    && (c.power == 0x70 <==> rate >= 400.0)
  }

  lemma ConfMatches(was: Conf, rate: nat)
    requires rate in TABLE
    ensures RegistersMatch(ConfFor(was, rate), rate as real)
  {
    CodeSticks(was, rate);
    CodeIsPosition(rate);
  }

  /** In a stable instance, whatever else is pending, the registers of an enabled sensor match its rate. */
  lemma StableRegisters(i: Instance, l: Limits)
    requires l.Valid() && Stable(i, l)
    ensures Acc in i.enabled ==> RegistersMatch(i.accConf, i.rate.acc)
    ensures Gyr in i.enabled ==> RegistersMatch(i.gyrConf, i.rate.gyr)
  {
    if Acc in i.enabled {
      assert SettleSensor(i, Acc, l) == i;
      ConfMatches(i.accConf, Settle(i.rate.acc, l));
    }
    if Gyr in i.enabled {
      assert SettleSensor(i, Gyr, l) == i;
      ConfMatches(i.gyrConf, Settle(i.rate.gyr, l));
    }
  }

  /** What every event keeps, also with the rail voted off and requests the driver does not know. */
  ghost predicate Sound(d: Driver) {
    && d.limits.Valid() && d.master
    && (d.inst.Some? ==> Stable(d.inst.value, d.limits))
    && forall s :: PendingOk(d, s)
  }

  predicate PendingOk(d: Driver, s: SensorId) {
    d.pending.Get(s) == NotPending || d.pending.Get(s) == PendingSetReq
  }

  lemma SoundNew(d: Driver, s: SensorId, exist: Option<Request>, r: Request)
    requires Sound(d) && d.inst.Some?
    ensures Sound(HandleNew(d, s, exist, r))
  {
    var i := WithReqs(d.inst.value, s, RemoveOpt(d.inst.value.reqs.Get(s), exist) + [r]);
    RequestsAreNotSettled(d.inst.value, s, RemoveOpt(d.inst.value.reqs.Get(s), exist) + [r], d.limits);
    ConfigHwIsStable(Chosen(i, s), d.limits);
    assert forall o :: PendingOk(d, o) ==> PendingOk(HandleNew(d, s, exist, r), o);
  }

  lemma SoundCreated(d: Driver, s: SensorId, env: Env)
    requires Sound(d) && d.inst.None?
    ensures Sound(NewInstance(d, s, env))
  {
    FreshIsStable(d.limits);
    forall o
      ensures PendingOk(NewInstance(d, s, env), o)
    {
      assert PendingOk(d, o);
    }
  }

  lemma SoundServed(d: Driver, s: SensorId, exist: Option<Request>, r: Request, env: Env)
    requires Sound(d) && d.inst.Some?
    ensures Sound(SetClientRequest(d, s, exist, Some(r), false, env))
  {
    if !r.msg.Flush? && !r.msg.CalReset? {
      SoundNew(d, s, exist, r);
      var f := HandleNew(d, s, exist, r);
      if exist.Some? {
        RequestsAreNotSettled(f.inst.value, s, f.inst.value.reqs.Get(s) + [exist.value], d.limits);
        assert forall o :: PendingOk(f, o) ==> PendingOk(SetClientRequest(d, s, exist, Some(r), false, env), o);
      }
    }
  }

  lemma SoundClient(d: Driver, s: SensorId, exist: Option<Request>, r: Request, env: Env)
    requires Sound(d)
    ensures Sound(SetClientRequest(d, s, exist, Some(r), false, env))
  {
    if d.inst.Some? {
      SoundServed(d, s, exist, r, env);
    } else if !r.msg.Flush? {
      SoundCreated(d, s, env);
      var e := NewInstance(d, s, env);
      if e.inst.Some? {
        SoundServed(e, s, exist, r, env);
        assert SetClientRequest(d, s, exist, Some(r), false, env) == SetClientRequest(e, s, exist, Some(r), false, env);
      }
    }
  }

  lemma SoundReval(d: Driver, i: Instance, s: SensorId)
    requires Sound(d)
    ensures Sound(d.(inst := Some(Reval(i, s, d.limits))))
  {
    ConfigHwIsStable(Chosen(i, s), d.limits);
    assert forall o :: PendingOk(d, o) ==> PendingOk(d.(inst := Some(Reval(i, s, d.limits))), o);
  }

  lemma SoundTimer(d: Driver, s: SensorId, expired: bool)
    requires Sound(d)
    ensures Sound(TimerEvent(d, s, expired))
  {
    assert PendingOk(d, s);
    if d.inst.Some? { SoundReval(d, d.inst.value, s); }
    forall o
      ensures PendingOk(TimerEvent(d, s, expired), o)
    {
      assert PendingOk(d, o);
    }
  }

  lemma SoundStep(d: Driver, ev: Event)
    requires Sound(d)
    ensures Sound(Apply(d, ev))
  {
    match ev
    case RailOff => assert forall o :: PendingOk(d, o) ==> PendingOk(d.(rail := Off), o);
    case TimerEvents(s, expired) => SoundTimer(d, s, expired);
    case Client(s, exist, incoming, remove, env) =>
      if remove && d.inst.Some? && exist.Some? {
        SoundReval(d, WithReqs(d.inst.value, s, Remove(d.inst.value.reqs.Get(s), exist.value)), s);
      } else if !remove && incoming.Some? {
        SoundClient(d, s, exist, incoming.value, env);
      }
  }

  lemma {:induction false} SoundRun(d: Driver, events: seq<Event>)
    requires Sound(d)
    ensures Sound(Run(d, events))
    decreases |events|
  {
    if events != [] {
      SoundStep(d, events[0]);
      SoundRun(Apply(d, events[0]), events[1..]);
    }
  }

  lemma EveryRunIsSound(l: Limits, events: seq<Event>)
    requires l.Valid()
    ensures Sound(Run(Start(l), events))
  {
    SoundRun(Start(l), events);
  }

  /** In every run at all the register bytes last written match the rate of each enabled sensor. */
  lemma EveryRunMatchesRegisters(l: Limits, events: seq<Event>)
    requires l.Valid()
    ensures var d := Run(Start(l), events); d.inst.Some? ==>
      && (Acc in d.inst.value.enabled ==> RegistersMatch(d.inst.value.accConf, d.inst.value.rate.acc))
      && (Gyr in d.inst.value.enabled ==> RegistersMatch(d.inst.value.gyrConf, d.inst.value.rate.gyr))
  {
    EveryRunIsSound(l, events);
    var d := Run(Start(l), events);
    if d.inst.Some? { StableRegisters(d.inst.value, l); }
  }

  // ----- Which requests switch a sensor on -----

  /** A sensor is powered exactly for rates of at least 1 Hz after clamping. */
  lemma PoweredIff(rate: real, l: Limits)
    requires l.Valid()
    ensures PowerByte(Settle(rate, l)) != 0x00 <==> Clamp(rate, l) >= 1.0
  {
  }

  /** So a request for the slowest rate of the chip, 25/32 Hz, switches it off unless the limits raise it. */
  lemma SlowestRateIsOff(l: Limits)
    requires l.Valid()
    ensures PowerByte(Settle(25.0 / 32.0, l)) == 0x00 <==> l.minOdr <= 0 || l.maxOdr <= 0
  {
    PoweredIff(25.0 / 32.0, l);
  }

  ghost predicate OnIffWanted(c: Conf, rs: seq<Request>, l: Limits)
    requires l.Valid()
  {
    c.power != 0x00 <==> Clamp(MaxRate(rs, SampleRate), l) >= 1.0
  }

  /** In every powered run a configured sensor that waits for nothing is on if and only if 1 Hz or more is wanted. */
  lemma EveryRunIsOnIff(l: Limits, events: seq<Event>)
    requires l.Valid() && AllLegal(Start(l), events) && AllPowered(Start(l), events)
    ensures var d := Run(Start(l), events);
            Acc in AskedBy(Start(l), events) && d.pending.acc == NotPending ==>
              d.inst.Some? && OnIffWanted(d.inst.value.accConf, d.inst.value.reqs.acc, l)
    ensures var d := Run(Start(l), events);
            Gyr in AskedBy(Start(l), events) && d.pending.gyr == NotPending ==>
              d.inst.Some? && OnIffWanted(d.inst.value.gyrConf, d.inst.value.reqs.gyr, l)
  {
    var d, asked := Run(Start(l), events), AskedBy(Start(l), events);
    EveryRunMatchesRegisters(l, events);
    if Acc in asked && d.pending.acc == NotPending {
      EveryRunIsProgrammed(l, events, Acc);
      PoweredIff(MaxRate(d.inst.value.reqs.acc, SampleRate), l);
    }
    if Gyr in asked && d.pending.gyr == NotPending {
      EveryRunIsProgrammed(l, events, Gyr);
      PoweredIff(MaxRate(d.inst.value.reqs.gyr, SampleRate), l);
    }
  }
}
