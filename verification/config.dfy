/** The switching configuration: validation, versions, and the one-token notification by which
    a monitor learns of an update. */
module Config {
  import opened Ring

  datatype SwitchConfig = SwitchConfig(
    version: int, percentThreshold: int, timeThreshold: int, timeThresholdMillis: int)

  datatype Error = ErrPercentThreshold | ErrTimeThreshold

  const NANOS_PER_MILLI := 1_000_000

  function Validate(sc: SwitchConfig): (err: Option<Error>)
    ensures err == None <==> 0 <= sc.percentThreshold <= 100 && sc.timeThreshold >= 0
    ensures err == Some(ErrTimeThreshold) <==> 0 <= sc.percentThreshold <= 100 && sc.timeThreshold < 0
  {
    if sc.percentThreshold < 0 || sc.percentThreshold > 100 then Some(ErrPercentThreshold)
    else if sc.timeThreshold < 0 then Some(ErrTimeThreshold)
    else None
  }

  /** A valid configuration as it is stored, under its version. */
  function Stored(sc: SwitchConfig, version: int): SwitchConfig {
    sc.(version := version, timeThresholdMillis := sc.timeThreshold / NANOS_PER_MILLI)
  }

  class SwitchCondition {
    var config: SwitchConfig
    var version: int
    /** Whether the notification channel, of capacity 1, holds its token. */
    var notify: bool

    ghost predicate Valid()
      reads this
    {
      Validate(config) == None && version >= 1 && config == Stored(config, version)
    }

    constructor (config: SwitchConfig)
      requires Validate(config) == None
      ensures Valid() && version == 1 && this.config == Stored(config, 1) && notify
      ensures this.config.percentThreshold == config.percentThreshold
      ensures this.config.timeThreshold == config.timeThreshold
      ensures this.config.timeThresholdMillis == config.timeThreshold / 1_000_000 && this.config.version == 1
    {
      version := 1;
      this.config := Stored(config, 1);
      notify := true;
    }

    method UpdateConfig(sc: SwitchConfig) returns (err: Option<Error>)
      requires Valid()
      modifies this
      ensures Valid() && err == Validate(sc)
      ensures err != None ==> unchanged(this)
      ensures err == None ==> version == old(version) + 1 && config == Stored(sc, version) && notify
      ensures err == None ==>
        && config.percentThreshold == sc.percentThreshold && config.timeThreshold == sc.timeThreshold
        && config.timeThresholdMillis == sc.timeThreshold / 1_000_000 && config.version == old(version) + 1
    {
      err := Validate(sc);
      if err != None {
        return;
      }
      version := version + 1;
      config := Stored(sc, version);
      notify := true;
    }

    function GetConfig(): (current: SwitchConfig)
      requires Valid()
      reads this
      ensures current.version == version && Validate(current) == None
      ensures current.timeThresholdMillis == current.timeThreshold / 1_000_000
    {
      config
    }

    /** The non-blocking receive at the head of a monitor's check. */
    method TryReceive() returns (received: bool)
      requires Valid()
      modifies `notify
      ensures Valid() && received == old(notify) && !notify
    {
      received := notify;
      notify := false;
    }
  }

  method NewSwitchCondition(config: SwitchConfig) returns (sw: SwitchCondition?, err: Option<Error>)
    ensures err == Validate(config) && (sw == null <==> err != None)
    ensures sw != null ==> fresh(sw) && sw.Valid() && sw.version == 1 && sw.config == Stored(config, 1) && sw.notify
    ensures sw != null ==>
      && sw.config.percentThreshold == config.percentThreshold && sw.config.timeThreshold == config.timeThreshold
      && sw.config.timeThresholdMillis == config.timeThreshold / 1_000_000 && sw.config.version == 1
  {
    err := Validate(config);
    sw := null;
    if err == None {
      sw := new SwitchCondition(config);
    }
  }
}

/** Updates and monitors interleaved. A step of an updater takes the lock, writes, sends the
    token or releases the lock; a step of a monitor receives the token or fetches the
    configuration, for which it must get the lock. */
module ConfigThreads {
  import opened Ring

  datatype Updater<C> = Resting | WantsLock(config: C) | Writing(config: C) | Sending | Unlocking

  /** `held` is the version the monitor works with. */
  datatype Monitor = Monitor(fetching: bool, held: int)

  datatype State<C> = State(
    updaters: seq<Updater<C>>,
    monitors: seq<Monitor>,
    lockedBy: Option<nat>,
    token: bool,
    version: int,
    config: C,
    history: seq<C>)

  datatype Event<C> = CallUpdate(i: nat, config: C) | StepUpdater(i: nat) | Receive(j: nat) | Fetch(j: nat)

  /** Each monitor has fetched the first configuration when it was made. */
  ghost function Initial<C>(config: C, m: nat, n: nat): State<C> {
    State(seq(m, _ => Resting), seq(n, _ => Monitor(false, 1)), None, true, 1, config, [config])
  }

  ghost predicate Enabled<C>(s: State<C>, e: Event<C>) {
    match e
    case CallUpdate(i, _) => i < |s.updaters| && s.updaters[i].Resting?
    case StepUpdater(i) =>
      i < |s.updaters| && !s.updaters[i].Resting? && (s.updaters[i].WantsLock? ==> s.lockedBy == None)
    case Receive(j) => j < |s.monitors| && !s.monitors[j].fetching && s.token
    case Fetch(j) => j < |s.monitors| && s.monitors[j].fetching && s.lockedBy == None
  }

  ghost function Next<C>(s: State<C>, e: Event<C>): State<C>
    requires Enabled(s, e)
  {
    match e
    case CallUpdate(i, config) => s.(updaters := s.updaters[i := WantsLock(config)])
    case StepUpdater(i) =>
      (match s.updaters[i]
       case WantsLock(config) => s.(lockedBy := Some(i), updaters := s.updaters[i := Writing(config)])
       case Writing(config) =>
         s.(version := s.version + 1, config := config, history := s.history + [config],
            updaters := s.updaters[i := Sending])
       case Sending => s.(token := true, updaters := s.updaters[i := Unlocking])
       case Unlocking => s.(lockedBy := None, updaters := s.updaters[i := Resting])
       case Resting => s)
    case Receive(j) => s.(token := false, monitors := s.monitors[j := s.monitors[j].(fetching := true)])
    case Fetch(j) => s.(monitors := s.monitors[j := Monitor(false, s.version)])
  }

  ghost predicate Possible<C>(s: State<C>, es: seq<Event<C>>)
    decreases |es|
  {
    es == [] || (Enabled(s, es[0]) && Possible(Next(s, es[0]), es[1..]))
  }

  ghost function Exec<C>(s: State<C>, es: seq<Event<C>>): State<C>
    requires Possible(s, es)
    decreases |es|
  {
    if es == [] then s else Exec(Next(s, es[0]), es[1..])
  }

  // ---------------------------------------------------------------- versions

  /** The version counts the configurations stored so far, and the current one is the last. */
  ghost predicate Versioned<C>(s: State<C>) {
    && s.version == |s.history| >= 1 && s.config == s.history[|s.history| - 1]
    && forall j :: 0 <= j < |s.monitors| ==> 1 <= s.monitors[j].held <= s.version
  }

  ghost predicate LockHeld<C>(s: State<C>) {
    forall i :: 0 <= i < |s.updaters| ==>
      (s.updaters[i].Writing? || s.updaters[i].Sending? || s.updaters[i].Unlocking? <==> s.lockedBy == Some(i))
  }

  /** How many updates have stored their configuration in the course of the run. */
  ghost function Updates<C>(s: State<C>, es: seq<Event<C>>): nat
    requires Possible(s, es)
    decreases |es|
  {
    if es == [] then 0
    else
      (if es[0].StepUpdater? && s.updaters[es[0].i].Writing? then 1 else 0) + Updates(Next(s, es[0]), es[1..])
  }

  lemma {:induction false} RunVersions<C>(s: State<C>, es: seq<Event<C>>)
    requires Versioned(s) && LockHeld(s) && Possible(s, es)
    ensures var s' := Exec(s, es);
            && Versioned(s') && LockHeld(s') && s'.version == s.version + Updates(s, es)
            && |s'.monitors| == |s.monitors|
    decreases |es|
  {
    if es != [] {
      RunVersions(Next(s, es[0]), es[1..]);
    }
  }

  /** After k updates the version is k + 1, every version a monitor holds has existed, and no
      two updaters are ever inside the lock. */
  lemma VersionCountsUpdates<C>(config: C, m: nat, n: nat, es: seq<Event<C>>)
    requires Possible(Initial(config, m, n), es)
    ensures var s := Exec(Initial(config, m, n), es);
            s.version == Updates(Initial(config, m, n), es) + 1 && Versioned(s) && LockHeld(s)
  {
    RunVersions(Initial(config, m, n), es);
  }

  /** An update that nothing interrupts, called while the lock is free: its configuration is the
      current one under the next version, and a token is waiting. */
  lemma LoneUpdate<C>(s: State<C>, i: nat, config: C)
    requires i < |s.updaters| && s.updaters[i].Resting? && s.lockedBy == None
    ensures var step := StepUpdater(i);
            var es := [CallUpdate(i, config), step, step, step, step];
            && Possible(s, es)
            && Exec(s, es) ==
               s.(version := s.version + 1, config := config, history := s.history + [config], token := true)
  {
    hide Possible, Exec;
    var step := StepUpdater(i);
    var s1 := Next(s, CallUpdate(i, config));
    var s2 := Next(s1, step);
    var s3 := Next(s2, step);
    var s4 := Next(s3, step);
    var s5 := Next(s4, step);
    assert s5.updaters == s.updaters;
    NoStep(s5);
    OneStep(s4, step, [], s5);
    OneStep(s3, step, [step] + [], s5);
    OneStep(s2, step, [step] + ([step] + []), s5);
    OneStep(s1, step, [step] + ([step] + ([step] + [])), s5);
    OneStep(s, CallUpdate(i, config), [step] + ([step] + ([step] + ([step] + []))), s5);
    assert [CallUpdate(i, config)] + ([step] + ([step] + ([step] + ([step] + [])))) ==
           [CallUpdate(i, config), step, step, step, step];
  }

  lemma NoStep<C>(s: State<C>)
    ensures Possible(s, []) && Exec(s, []) == s
  {
  }

  lemma OneStep<C>(s: State<C>, e: Event<C>, es: seq<Event<C>>, end: State<C>)
    requires Enabled(s, e) && Possible(Next(s, e), es) && Exec(Next(s, e), es) == end
    ensures Possible(s, [e] + es) && Exec(s, [e] + es) == end
  {
    assert ([e] + es)[1..] == es;
  }

  /** The configurations passed to the calls of a run. */
  ghost function Passed<C>(es: seq<Event<C>>): set<C> {
    set k | 0 <= k < |es| && es[k].CallUpdate? :: es[k].config
  }

  /** What an updater carries into the lock. */
  ghost function Carried<C>(s: State<C>): set<C> {
    set i | 0 <= i < |s.updaters| && (s.updaters[i].WantsLock? || s.updaters[i].Writing?) :: s.updaters[i].config
  }

  /** Every configuration stored in a run is one that was passed to a call, or on its way already. */
  lemma {:induction false} StoresWhatIsPassed<C>(s: State<C>, es: seq<Event<C>>, config: C)
    requires Possible(s, es) && config in Exec(s, es).history
    ensures config in s.history || config in Carried(s) || config in Passed(es)
    decreases |es|
  {
    if es != [] {
      var s' := Next(s, es[0]);
      StoresWhatIsPassed(s', es[1..], config);
      StepStores(s, es[0], config);
      if config in Passed(es[1..]) {
        var k :| 0 <= k < |es[1..]| && es[1..][k].CallUpdate? && es[1..][k].config == config;
        assert es[k + 1].CallUpdate? && es[k + 1].config == config;
      }
      assert es[0].CallUpdate? ==> es[0].config in Passed(es);
    }
  }

  lemma StepStores<C>(s: State<C>, e: Event<C>, config: C)
    requires Enabled(s, e)
    ensures config in Next(s, e).history ==> config in s.history || config in Carried(s)
    ensures config in Carried(Next(s, e)) ==> config in Carried(s) || e == CallUpdate(e.i, config)
  {
  }

  // ---------------------------------------------------------------- freshness

  ghost predicate UpdateUnderWay<C>(s: State<C>) {
    exists i :: 0 <= i < |s.updaters| && s.updaters[i].Sending?
  }

  /** A monitor that works with an old version is about to learn of it: it is fetching, or a token
      is waiting, or an updater has yet to send one. */
  ghost predicate Fresh<C>(s: State<C>) {
    forall j :: 0 <= j < |s.monitors| && s.monitors[j].held != s.version ==>
      s.monitors[j].fetching || s.token || UpdateUnderWay(s)
  }

  lemma StepFresh<C>(s: State<C>, e: Event<C>)
    requires Fresh(s) && Enabled(s, e) && |s.monitors| <= 1
    ensures Fresh(Next(s, e))
  {
    var s' := Next(s, e);
    match e
    case StepUpdater(i) =>
      if s.updaters[i].Writing? {
        assert s'.updaters[i].Sending?;
      } else {
        SendersKept(s, s', i);
      }
    case CallUpdate(i, _) => SendersKept(s, s', i);
    case _ =>
      assert s'.updaters == s.updaters;
  }

  lemma SendersKept<C>(s: State<C>, s': State<C>, i: nat)
    requires i < |s.updaters| && |s'.updaters| == |s.updaters| && s'.updaters == s.updaters[i := s'.updaters[i]]
    ensures UpdateUnderWay(s) ==> s.updaters[i].Sending? || UpdateUnderWay(s')
  {
    if UpdateUnderWay(s) && !s.updaters[i].Sending? {
      var k :| 0 <= k < |s.updaters| && s.updaters[k].Sending?;
      assert s'.updaters[k].Sending?;
    }
  }

  lemma {:induction false} RunFresh<C>(s: State<C>, es: seq<Event<C>>)
    requires Fresh(s) && Possible(s, es) && |s.monitors| <= 1
    ensures Fresh(Exec(s, es))
    decreases |es|
  {
    if es != [] {
      StepFresh(s, es[0]);
      RunFresh(Next(s, es[0]), es[1..]);
    }
  }

  lemma {:induction false} Append<C>(s: State<C>, es: seq<Event<C>>, e: Event<C>)
    requires Possible(s, es) && Enabled(Exec(s, es), e)
    ensures Possible(s, es + [e]) && Exec(s, es + [e]) == Next(Exec(s, es), e)
    decreases |es|
  {
    if es == [] {
      assert [] + [e] == [e];
      assert Exec(Next(s, e), []) == Next(s, e);
    } else {
      assert (es + [e])[1..] == es[1..] + [e];
      Append(Next(s, es[0]), es[1..], e);
    }
  }

  /** Two monitors share one token: the first takes it, and the second is not told. */
  lemma SecondMonitorMisses<C>(config: C, m: nat, n: nat) returns (es: seq<Event<C>>)
    requires m >= 1 && n >= 2
    ensures Possible(Initial(config, m, n), es) && !Fresh(Exec(Initial(config, m, n), es))
  {
    var s := Initial(config, m, n);
    Append(s, [], CallUpdate(0, config));
    es := [] + [CallUpdate(0, config)];
    for k := 0 to 4
      invariant Possible(s, es)
      invariant var t := Exec(s, es);
                && |t.updaters| == m && t.monitors == s.monitors
                && t.version == (if k < 2 then 1 else 2) && t.lockedBy == (if 0 < k < 4 then Some(0) else None)
                && t.updaters[0] == (match k case 0 => WantsLock(config) case 1 => Writing(config)
                                     case 2 => Sending case 3 => Unlocking case _ => Resting)
                && t.token && forall i :: 1 <= i < m ==> t.updaters[i].Resting?
    {
      Append(s, es, StepUpdater(0));
      es := es + [StepUpdater(0)];
    }
    Append(s, es, Receive(0));
    var t := Next(Exec(s, es), Receive(0));
    assert t.monitors[1] == Monitor(false, 1) && t.version == 2 && !t.token;
    es := es + [Receive(0)];
  }

  /** Freshness holds in every run exactly when there is at most one monitor. */
  lemma FreshIffOneMonitor<C(!new)>(config: C, m: nat, n: nat)
    requires m >= 1
    ensures (forall es :: Possible(Initial(config, m, n), es) ==> Fresh(Exec(Initial(config, m, n), es))) <==> n <= 1
  {
    if n <= 1 {
      forall es | Possible(Initial(config, m, n), es) ensures Fresh(Exec(Initial(config, m, n), es)) {
        RunFresh(Initial(config, m, n), es);
      }
    } else {
      var es := SecondMonitorMisses(config, m, n);
    }
  }

  /** Once no update is under way, one check of the only monitor brings it up to date: either a
      token is waiting and is answered by a fetch, or there is nothing to learn. */
  lemma CheckRefreshes<C>(s: State<C>)
    requires Fresh(s) && LockHeld(s) && s.lockedBy == None && |s.monitors| == 1 && !s.monitors[0].fetching
    ensures s.token ==>
              && Possible(s, [Receive(0), Fetch(0)])
              && Exec(s, [Receive(0), Fetch(0)]).monitors[0].held == s.version
    ensures !s.token ==> s.monitors[0].held == s.version
  {
  }
}
