/**
 The driver's objects: one per library with its sensors' states, one for the shared instance. Every
 method changes its fields step by step and is proved to do what the arbitration model says.
 */
module SensorDriver {
  import opened Basics
  import opened SensorRate
  import opened Arbitration
  import opened ArbitrationLedger

  class SharedInstance {
    var reqs: PerSensor<seq<Request>>
    var rate: PerSensor<real>
    var report: PerSensor<real>
    var enabled: set<SensorId>
    var accConf: Conf
    var gyrConf: Conf

    ghost function Abs(): Instance
      reads this
    {
      Instance(reqs, rate, report, enabled, accConf, gyrConf)
    }

    constructor ()
      ensures Abs() == FRESH
      ensures enabled == {} && forall s :: reqs.Get(s) == [] && rate.Get(s) == 0.0 && report.Get(s) == 0.0
    {
      reqs, rate, report, enabled := All([]), All(0.0), All(0.0), {};
      accConf, gyrConf := Conf(0, 0), Conf(0, 0);
    }

    // get_client_request, one after the other, as in demo_get_sensor_config
    method GetSensorConfig(s: SensorId) returns (sample: real, report: real, present: bool)
      ensures sample == MaxRate(reqs.Get(s), SampleRate) && report == MaxRate(reqs.Get(s), ReportRate)
      ensures present <==> exists k, v :: 0 <= k < |reqs.Get(s)| && Gives(reqs.Get(s)[k], SampleRate, v)
    {
      var rs := reqs.Get(s);
      sample, report, present := 0.0, 0.0, false;
      for k := 0 to |rs|
        invariant sample == MaxRate(rs[..k], SampleRate) && report == MaxRate(rs[..k], ReportRate)
        invariant present <==> exists j, v :: 0 <= j < k && Gives(rs[j], SampleRate, v)
      {
        assert rs[..k + 1] == rs[..k] + [rs[k]];
        match rs[k].msg {
          case Config(Some(b)) =>
            sample := Max(sample, b.rate);
            report := Max(report, if b.batch > 0 then 1000000.0 / b.batch as real else b.rate);
            present := true;
            assert Gives(rs[k], SampleRate, b.rate);
          case _ =>
        }
      }
      assert rs[..|rs|] == rs;
    }

    /** The clamping and rounding each part of demo_config_hw begins with. */
    method ClampAndRound(s: SensorId, l: Limits) returns (odr: bv8)
      requires l.Valid()
      modifies this`rate
      ensures rate == old(rate).Set(s, Settle(old(rate).Get(s), l) as real)
      ensures odr == OdrCode(Settle(old(rate).Get(s), l))
    {
      if rate.Get(s) > 0.0 {
        rate := rate.Set(s, Max(rate.Get(s), l.minOdr as real));
        rate := rate.Set(s, Min(rate.Get(s), l.maxOdr as real));
      } else {
        rate := rate.Set(s, 0.0);
      }
      var r;
      r, odr := ComputeOdr(rate.Get(s));
      rate := rate.Set(s, r);
    }

    /** The two register bytes written back. */
    static method NewConf(was: Conf, odr: bv8, rate: real) returns (conf: Conf)
      ensures forall r: nat {:trigger ConfFor(was, r)} ::
                rate == r as real && odr == OdrCode(r) ==> conf == ConfFor(was, r)
    {
      conf := was;
      conf := conf.(odr := conf.odr & !0x0f);
      conf := conf.(odr := conf.odr | odr);
      if rate == 0.0 { conf := conf.(power := 0x00); }
      else if rate < 15.0 { conf := conf.(power := 0x30); }
      else if rate >= 400.0 { conf := conf.(power := 0x70); }
      else { conf := conf.(power := 0x40); }
    }

    method ConfigAcc(l: Limits)
      requires l.Valid()
      modifies this
      ensures Abs() == SettleSensor(old(Abs()), Acc, l)
    {
      if Acc in enabled {
        ghost var r := Settle(rate.acc, l);
        var odr := ClampAndRound(Acc, l);
        accConf := NewConf(accConf, odr, rate.acc);
        assert accConf == ConfFor(old(accConf), r);
      }
    }

    method ConfigGyr(l: Limits)
      requires l.Valid()
      modifies this
      ensures Abs() == SettleSensor(old(Abs()), Gyr, l)
    {
      if Gyr in enabled {
        ghost var r := Settle(rate.gyr, l);
        var odr := ClampAndRound(Gyr, l);
        gyrConf := NewConf(gyrConf, odr, rate.gyr);
        assert gyrConf == ConfFor(old(gyrConf), r);
      }
    }

    method ConfigTemp(l: Limits)
      requires l.Valid()
      modifies this
      ensures Abs() == SettleSensor(old(Abs()), Temp, l)
    {
      if Temp in enabled {
        var _ := ClampAndRound(Temp, l);
      }
    }

    // demo_config_hw
    method ConfigHw(l: Limits)
      requires l.Valid()
      modifies this
      ensures Abs() == Arbitration.ConfigHw(old(Abs()), l)
    {
      ConfigAcc(l);
      ConfigGyr(l);
      ConfigTemp(l);
    }

    // demo_reval_instance_config, with the SENSOR_CONFIG case of demo_instance_set_client_config
    method RevalConfig(s: SensorId, l: Limits)
      requires l.Valid()
      modifies this
      ensures Abs() == Reval(old(Abs()), s, l)
    {
      var sample, rep, _ := GetSensorConfig(s);
      rate := rate.Set(s, sample);
      report := report.Set(s, rep);
      enabled := enabled + {s};
      ConfigHw(l);
    }

    // remove_client_request
    method RemoveRequest(s: SensorId, r: Request)
      modifies this`reqs
      ensures reqs == old(reqs).Set(s, Remove(old(reqs).Get(s), r))
    {
      reqs := reqs.Set(s, Remove(reqs.Get(s), r));
    }

    // add_client_request
    method AddRequest(s: SensorId, r: Request)
      modifies this`reqs
      ensures reqs == old(reqs).Set(s, old(reqs).Get(s) + [r])
    {
      reqs := reqs.Set(s, reqs.Get(s) + [r]);
    }
  }

  class Library {
    const limits: Limits
    var master: bool
    var rail: Rail
    var pending: PerSensor<Pending>
    var timer: PerSensor<bool>
    var inst: SharedInstance?

    ghost predicate Valid()
      reads this
    {
      limits.Valid()
    }

    ghost function Abs(): Driver
      reads this, inst
    {
      Driver(limits, master, rail, pending, timer, if inst == null then None else Some(inst.Abs()))
    }

    constructor (l: Limits)
      requires l.Valid()
      ensures Valid() && Abs() == Start(l)
      ensures inst == null && rail == Off && forall s :: pending.Get(s) == NotPending && !timer.Get(s)
    {
      limits, master, rail := l, true, Off;
      pending, timer, inst := All(NotPending), All(false), null;
    }

    // demo_new_instance
    method NewInstance(s: SensorId, env: Env)
      requires inst == null
      modifies this
      ensures Abs() == Arbitration.NewInstance(old(Abs()), s, env)
      ensures inst != null ==> fresh(inst)
    {
      if master {
        rail := if s == Gyr then OnNpm else OnLpm;
        if !env.railSettled {
          // demo_sensor_start_power_rail_timer
          if env.timerOk {
            timer := timer.Set(s, true);
            pending := pending.Set(s, PendingSetReq);
          }
        } else {
          timer := timer.Set(s, false);
        }
        if env.createOk {
          inst := new SharedInstance();
        }
      }
    }

    // demo_handle_new_request; false is SNS_RC_INVALID_VALUE
    method HandleNewRequest(s: SensorId, exist: Option<Request>, r: Request) returns (ok: bool)
      requires Valid() && inst != null
      modifies inst
      ensures ok <==> r.msg.Config?
      ensures Abs() == HandleNew(old(Abs()), s, exist, r)
    {
      if exist.Some? {
        inst.RemoveRequest(s, exist.value);
      }
      inst.AddRequest(s, r);
      ok := r.msg.Config?;
      if ok && rail != Off && pending.Get(s) == NotPending {
        inst.RevalConfig(s, limits);
      }
    }

    // demo_set_client_request; what is returned is the instance that serves the request
    method SetClientRequest(s: SensorId, exist: Option<Request>, incoming: Option<Request>, remove: bool, env: Env)
        returns (served: SharedInstance?)
      requires Valid()
      modifies this, inst
      ensures Abs() == Arbitration.SetClientRequest(old(Abs()), s, exist, incoming, remove, env)
      ensures served == null || served == inst
      ensures if old(inst) != null then inst == old(inst) else inst != null ==> fresh(inst)
      ensures served != null <==>
        && inst != null
        && (remove || incoming.None? || incoming.value.msg.Config? || incoming.value.msg.CalReset?
            || (incoming.value.msg.Flush? && exist.Some?))
    {
      served := inst;
      if remove {
        if inst != null && exist.Some? {
          inst.RemoveRequest(s, exist.value);
          inst.RevalConfig(s, limits);
        }
      } else if incoming.Some? {
        var r := incoming.value;
        if served == null && !r.msg.Flush? {
          NewInstance(s, env);
          served := inst;
        }
        if served != null {
          if r.msg.Flush? {
            if exist.None? { served := null; }
          } else if !r.msg.CalReset? {
            var ok := HandleNewRequest(s, exist, r);
            if !ok {
              if exist.Some? { inst.AddRequest(s, exist.value); }
              served := null;
            }
          }
        }
      }
    }

    // one expiry in the loop of demo_sensor_process_timer_event
    method Expire(s: SensorId, timerOk: bool)
      requires Valid() && timer.Get(s)
      modifies this, inst
      ensures Abs() == Expired(old(Abs()), s) && inst == old(inst)
    {
      match pending.Get(s) {
        case NotPending =>
        case PendingInit =>
          pending := pending.Set(s, NotPending);
        case PendingSetReq =>
          if inst != null {
            inst.RevalConfig(s, limits);
          } else if timerOk {
            timer := timer.Set(s, true);
            pending := pending.Set(s, PendingDeinit);
          }
          pending := pending.Set(s, NotPending);
        case PendingDeinit =>
          pending := pending.Set(s, NotPending);
          rail := Off;
      }
    }

    // demo_sensor_process_timer_event: `events` says of each input whether it is a timer's expiry
    method ProcessTimerEvent(s: SensorId, events: seq<bool>, timerOk: bool)
      requires Valid()
      modifies this, inst
      ensures inst == old(inst)
      ensures Abs() == if events == [] then old(Abs()) else TimerEvent(old(Abs()), s, true in events)
    {
      if !timer.Get(s) || events == [] { return; }
      for k := 0 to |events|
        invariant inst == old(inst) && timer.Get(s)
        invariant Abs() == if true in events[..k] then Expired(old(Abs()), s) else old(Abs())
      {
        assert events[..k + 1] == events[..k] + [events[k]];
        if events[k] {
          OnlyOnce(old(Abs()), s);
          Expire(s, timerOk);
        }
      }
      assert events[..|events|] == events;
      if pending.Get(s) == NotPending {
        timer := timer.Set(s, false);
      }
    }
  }

  // ----- Whole runs of the objects -----

  // one event of the framework, as the library's callbacks handle it; a sibling's detection votes the rail off
  method Handle(lib: Library, ev: Event)
    requires lib.Valid()
    modifies lib, lib.inst
    ensures lib.Valid() && lib.Abs() == Apply(old(lib.Abs()), ev)
    ensures if old(lib.inst) != null then lib.inst == old(lib.inst) else lib.inst != null ==> fresh(lib.inst)
  {
    match ev {
      case Client(s, exist, incoming, remove, env) =>
        var _ := lib.SetClientRequest(s, exist, incoming, remove, env);
      case TimerEvents(s, expired) =>
        lib.ProcessTimerEvent(s, [expired], true);
      case RailOff =>
        lib.rail := Off;
    }
  }

  /** The objects, driven from power-up by any events, are in the state the arbitration model says. */
  method Replay(l: Limits, events: seq<Event>) returns (lib: Library)
    requires l.Valid()
    ensures fresh(lib) && (lib.inst != null ==> fresh(lib.inst))
    ensures lib.Valid() && lib.Abs() == Run(Start(l), events)
  {
    lib := new Library(l);
    for k := 0 to |events|
      invariant fresh(lib) && (lib.inst != null ==> fresh(lib.inst))
      invariant lib.Valid() && Run(lib.Abs(), events[k..]) == Run(Start(l), events)
    {
      assert events[k..][0] == events[k] && events[k..][1..] == events[k + 1..];
      Handle(lib, events[k]);
    }
  }

  /** So what holds of every run holds of the fields of the instance. */
  method ReplayIsProgrammed(l: Limits, events: seq<Event>) returns (lib: Library)
    requires l.Valid() && AllLegal(Start(l), events) && AllPowered(Start(l), events)
    ensures forall s :: s in AskedBy(Start(l), events) && lib.pending.Get(s) == NotPending ==>
              && lib.inst != null && s in lib.inst.enabled
              && lib.inst.rate.Get(s) == Wanted(s, lib.inst.reqs.Get(s), l)
              && lib.inst.report.Get(s) == MaxRate(lib.inst.reqs.Get(s), ReportRate)
  {
    lib := Replay(l, events);
    forall s | s in AskedBy(Start(l), events) && lib.pending.Get(s) == NotPending
      ensures && lib.inst != null && s in lib.inst.enabled
              && lib.inst.rate.Get(s) == Wanted(s, lib.inst.reqs.Get(s), l)
              && lib.inst.report.Get(s) == MaxRate(lib.inst.reqs.Get(s), ReportRate)
    {
      EveryRunIsProgrammed(l, events, s);
    }
  }

  /** And they serve the ledger of the events. */
  method ReplayServesTheLedger(l: Limits, events: seq<Event>) returns (lib: Library)
    requires l.Valid() && AllLegal(Start(l), events)
    ensures lib.inst != null ==> forall s :: multiset(lib.inst.reqs.Get(s)) == Book(events).live.Get(s)
    ensures var live := Book(events).live;
            forall s, m, n {:trigger IsMaxSample(live.Get(s), m), IsMaxReport(live.Get(s), n)} ::
              && Configured(events, s) && !Book(events).dark && lib.pending.Get(s) == NotPending
              && IsMaxSample(live.Get(s), m) && IsMaxReport(live.Get(s), n)
              ==> lib.inst != null && lib.inst.rate.Get(s) == Target(s, m, l) && lib.inst.report.Get(s) == n
  {
    lib := Replay(l, events);
    EveryRunFollows(l, events);
    forall s, m, n | && Configured(events, s) && !Book(events).dark && lib.pending.Get(s) == NotPending
                     && IsMaxSample(Book(events).live.Get(s), m) && IsMaxReport(Book(events).live.Get(s), n)
      ensures lib.inst != null && lib.inst.rate.Get(s) == Target(s, m, l) && lib.inst.report.Get(s) == n
    {
      EveryRunServesTheLedger(l, events, s, m, n);
    }
  }

  /** Further expiries in one batch find nothing pending. */
  lemma OnlyOnce(d: Driver, s: SensorId)
    requires d.limits.Valid()
    ensures Expired(Expired(d, s), s) == Expired(d, s) && Expired(d, s).timer == d.timer
  {
  }
}
