/** switchChannel and Close run by any number of threads: the compare-and-swaps on the state of
    the double buffer, the switch lock, and the statements of the switch body one by one. */
module Rotation {
  import opened Ring

  /** Where a thread stands; named after the next thing it does. */
  datatype Thread<B> =
    | Outside
    | SwapToSwitching
    | Lock
    | MarkReadOnly
    | GetSpare
    | LoadActive(spare: B)
    | LoadPassive(spare: B, oldActive: B)
    | StoreActive(spare: B, oldActive: B, next: B)
    | StorePassive(spare: B, oldActive: B)
    | Spawn(oldActive: B)
    | Restore
    | Unlock
    | SwapToClosed
    | PoolActive
    | PoolPassive

  /** The fields the two functions share, and, as history, the buffers handed out by the pool,
      those passed to a goroutine, and those pooled by Close. */
  datatype State<B> = State(
    threads: seq<Thread<B>>,
    state: int,
    lockedBy: Option<nat>,
    active: B,
    passive: B,
    readOnly: set<B>,
    spares: seq<B>,
    retired: seq<B>,
    closes: nat,
    pooled: seq<B>)

  datatype Event<B> = CallSwitch(i: nat) | CallClose(i: nat) | Step(i: nat, spare: B)

  ghost function Initial<B>(n: nat, active: B, passive: B): State<B> {
    State(seq(n, _ => Outside), WRITING_STATE, None, active, passive, {}, [], [], 0, [])
  }

  ghost predicate Enabled<B>(s: State<B>, e: Event<B>) {
    match e
    case CallSwitch(i) => i < |s.threads| && s.threads[i].Outside?
    case CallClose(i) => i < |s.threads| && s.threads[i].Outside?
    case Step(i, _) => i < |s.threads| && !s.threads[i].Outside? && (s.threads[i].Lock? ==> s.lockedBy == None)
  }

  ghost function At<B>(s: State<B>, i: nat, t: Thread<B>): State<B>
    requires i < |s.threads|
  {
    s.(threads := s.threads[i := t])
  }

  ghost function Next<B>(s: State<B>, e: Event<B>): State<B>
    requires Enabled(s, e)
  {
    match e
    case CallSwitch(i) => At(s, i, SwapToSwitching)
    case CallClose(i) => At(s, i, SwapToClosed)
    case Step(i, newBuf) =>
      match s.threads[i]
      case SwapToSwitching =>
        if s.state == WRITING_STATE then At(s.(state := SWITCHING_STATE), i, Lock) else At(s, i, Outside)
      case Lock => At(s.(lockedBy := Some(i)), i, MarkReadOnly)
      case MarkReadOnly => At(s.(readOnly := s.readOnly + {s.active}), i, GetSpare)
      case GetSpare => At(s.(spares := s.spares + [newBuf]), i, LoadActive(newBuf))
      case LoadActive(spare) => At(s, i, LoadPassive(spare, s.active))
      case LoadPassive(spare, oldActive) => At(s, i, StoreActive(spare, oldActive, s.passive))
      case StoreActive(spare, oldActive, next) => At(s.(active := next), i, StorePassive(spare, oldActive))
      case StorePassive(spare, oldActive) => At(s.(passive := spare), i, Spawn(oldActive))
      case Spawn(oldActive) => At(s.(retired := s.retired + [oldActive]), i, Restore)
      case Restore => At(s.(state := WRITING_STATE), i, Unlock)
      case Unlock => At(s.(lockedBy := None), i, Outside)
      case SwapToClosed =>
        if s.state == WRITING_STATE then At(s.(state := CLOSED_STATE, closes := s.closes + 1), i, PoolActive)
        else At(s, i, Outside)
      case PoolActive => At(s.(pooled := s.pooled + [s.active]), i, PoolPassive)
      case PoolPassive => At(s.(pooled := s.pooled + [s.passive]), i, Outside)
      case Outside => s
  }

  ghost predicate Possible<B>(s: State<B>, es: seq<Event<B>>)
    decreases |es|
  {
    es == [] || (Enabled(s, es[0]) && Possible(Next(s, es[0]), es[1..]))
  }

  ghost function Exec<B>(s: State<B>, es: seq<Event<B>>): State<B>
    requires Possible(s, es)
    decreases |es|
  {
    if es == [] then s else Exec(Next(s, es[0]), es[1..])
  }

  // ---------------------------------------------------------------- mutual exclusion

  /** The thread lies between its successful compare-and-swap and its restoring store. */
  predicate Switching<B>(t: Thread<B>) {
    t.Lock? || t.MarkReadOnly? || t.GetSpare? || t.LoadActive? || t.LoadPassive? || t.StoreActive?
    || t.StorePassive? || t.Spawn? || t.Restore?
  }

  predicate HoldsLock<B>(t: Thread<B>) {
    (Switching(t) && !t.Lock?) || t.Unlock?
  }

  predicate Closing<B>(t: Thread<B>) {
    t.PoolActive? || t.PoolPassive?
  }

  ghost predicate OnlySwitching<B>(s: State<B>, i: nat) {
    i < |s.threads| && forall j :: 0 <= j < |s.threads| ==> (Switching(s.threads[j]) <==> j == i)
  }

  ghost predicate NoneSwitching<B>(s: State<B>) {
    forall i :: 0 <= i < |s.threads| ==> !Switching(s.threads[i])
  }

  ghost predicate OneSwitches<B>(s: State<B>) {
    if s.state == SWITCHING_STATE then exists i :: OnlySwitching(s, i) else NoneSwitching(s)
  }

  ghost predicate LockHeld<B>(s: State<B>) {
    forall i :: 0 <= i < |s.threads| ==> (HoldsLock(s.threads[i]) <==> s.lockedBy == Some(i))
  }

  /** Close succeeds at most once, and from then on the state is CLOSED_STATE. */
  ghost predicate ClosedOnce<B>(s: State<B>) {
    && s.closes == (if s.state == CLOSED_STATE then 1 else 0)
    && (s.state == CLOSED_STATE || forall i :: 0 <= i < |s.threads| ==> !Closing(s.threads[i]))
    && (forall i, j :: 0 <= i < j < |s.threads| ==> !(Closing(s.threads[i]) && Closing(s.threads[j])))
  }

  ghost predicate Exclusive<B>(s: State<B>) {
    && (s.state == WRITING_STATE || s.state == SWITCHING_STATE || s.state == CLOSED_STATE)
    && OneSwitches(s) && LockHeld(s) && ClosedOnce(s)
  }

  lemma SwitchingThread<B>(s: State<B>, i: nat)
    requires OneSwitches(s) && i < |s.threads| && Switching(s.threads[i])
    ensures s.state == SWITCHING_STATE && OnlySwitching(s, i)
  {
  }

  lemma StepSwitches<B>(s: State<B>, i: nat, spare: B)
    requires OneSwitches(s) && Enabled(s, Step(i, spare))
    ensures OneSwitches(Next(s, Step(i, spare)))
  {
    var s' := Next(s, Step(i, spare));
    if Switching(s.threads[i]) {
      SwitchingThread(s, i);
      if Switching(s'.threads[i]) {
        assert OnlySwitching(s', i) && s'.state == s.state;
      } else {
        assert NoneSwitching(s') && s'.state == WRITING_STATE;
      }
    } else if Switching(s'.threads[i]) {
      assert NoneSwitching(s) && OnlySwitching(s', i);
    } else {
      Unmoved(s, s');
    }
  }

  ghost predicate SameSwitchers<B>(s: State<B>, s': State<B>) {
    && |s'.threads| == |s.threads|
    && forall j :: 0 <= j < |s.threads| ==> Switching(s'.threads[j]) == Switching(s.threads[j])
  }

  /** A thread that stays outside the switch body, or inside it, does not matter to the others. */
  lemma Unmoved<B>(s: State<B>, s': State<B>)
    requires OneSwitches(s) && SameSwitchers(s, s')
    requires (s'.state == SWITCHING_STATE) == (s.state == SWITCHING_STATE)
    ensures OneSwitches(s')
  {
    forall k: nat ensures OnlySwitching(s', k) == OnlySwitching(s, k) {
      assert OnlySwitching(s, k) ==> forall j :: 0 <= j < |s.threads| ==> (Switching(s'.threads[j]) <==> j == k);
      assert OnlySwitching(s', k) ==> forall j :: 0 <= j < |s.threads| ==> (Switching(s.threads[j]) <==> j == k);
    }
    assert NoneSwitching(s') == NoneSwitching(s);
  }

  lemma StepLocks<B>(s: State<B>, i: nat, spare: B)
    requires LockHeld(s) && Enabled(s, Step(i, spare))
    ensures LockHeld(Next(s, Step(i, spare)))
  {
  }

  lemma StepCloses<B>(s: State<B>, i: nat, spare: B)
    requires OneSwitches(s) && ClosedOnce(s) && Enabled(s, Step(i, spare))
    ensures ClosedOnce(Next(s, Step(i, spare)))
    ensures s.state == CLOSED_STATE ==> Next(s, Step(i, spare)).state == CLOSED_STATE
  {
    hide OneSwitches;
    if s.threads[i].Restore? {
      SwitchingThread(s, i);
    }
  }

  lemma StepExclusive<B>(s: State<B>, e: Event<B>)
    requires Exclusive(s) && Enabled(s, e)
    ensures Exclusive(Next(s, e))
    ensures s.state == CLOSED_STATE ==> Next(s, e).state == CLOSED_STATE
  {
    hide OneSwitches;
    match e
    case Step(i, spare) =>
      StepSwitches(s, i, spare);
      StepLocks(s, i, spare);
      StepCloses(s, i, spare);
    case CallSwitch(i) => Unmoved(s, Next(s, e));
    case CallClose(i) => Unmoved(s, Next(s, e));
  }

  // ---------------------------------------------------------------- the switch bodies as atomic rotations

  /** The buffers in the order of the pipeline: retired ones first, then active, then passive,
      with the loads and stores of a body in progress made good. */
  ghost function Pipeline<B>(s: State<B>, t: Thread<B>): seq<B> {
    s.retired +
    match t
    case LoadActive(spare) => [s.active, s.passive, spare]
    case LoadPassive(spare, _) => [s.active, s.passive, spare]
    case StoreActive(spare, _, _) => [s.active, s.passive, spare]
    case StorePassive(spare, oldActive) => [oldActive, s.active, spare]
    case Spawn(oldActive) => [oldActive, s.active, s.passive]
    case _ => [s.active, s.passive]
  }

  /** What the thread has loaded is what the fields held when its body began. */
  ghost predicate LocalsAgree<B>(s: State<B>, t: Thread<B>) {
    match t
    case GetSpare => s.active in s.readOnly
    case LoadActive(_) => s.active in s.readOnly
    case LoadPassive(_, oldActive) => oldActive == s.active && s.active in s.readOnly
    case StoreActive(_, oldActive, next) => oldActive == s.active && next == s.passive && s.active in s.readOnly
    case StorePassive(_, oldActive) => oldActive in s.readOnly && s.active == s.passive
    case Spawn(oldActive) => oldActive in s.readOnly
    case _ => true
  }

  /** Whether or not a body is in progress, the pipeline is the two first buffers followed by
      everything the pool has handed out, in that order. */
  ghost predicate Serial<B>(s: State<B>, first: seq<B>) {
    && (forall i :: 0 <= i < |s.threads| && Switching(s.threads[i]) ==>
          Pipeline(s, s.threads[i]) == first + s.spares && LocalsAgree(s, s.threads[i]))
    && (NoneSwitching(s) ==> s.retired + [s.active, s.passive] == first + s.spares)
    && (forall b :: b in s.retired ==> b in s.readOnly)
  }

  lemma StepInBody<B>(s: State<B>, i: nat, spare: B, first: seq<B>)
    requires Exclusive(s) && Serial(s, first) && Enabled(s, Step(i, spare)) && Switching(s.threads[i])
    ensures Serial(Next(s, Step(i, spare)), first)
  {
    SwitchingThread(s, i);
    var s' := Next(s, Step(i, spare));
    assert Pipeline(s, s.threads[i]) == first + s.spares;
    PipelineGrows(s, i, spare);
    assert first + s.spares + [spare] == first + (s.spares + [spare]);
  }

  /** The pipeline changes only when the pool hands out a buffer. */
  lemma PipelineGrows<B>(s: State<B>, i: nat, spare: B)
    requires Enabled(s, Step(i, spare)) && Switching(s.threads[i]) && LocalsAgree(s, s.threads[i])
    ensures var s', t := Next(s, Step(i, spare)), s.threads[i];
            && Pipeline(s', s'.threads[i]) == Pipeline(s, t) + (if t.GetSpare? then [spare] else [])
            && LocalsAgree(s', s'.threads[i])
  {
  }

  lemma StepOutsideBody<B>(s: State<B>, i: nat, spare: B, first: seq<B>)
    requires Exclusive(s) && Serial(s, first) && Enabled(s, Step(i, spare)) && !Switching(s.threads[i])
    ensures Serial(Next(s, Step(i, spare)), first)
  {
    var s' := Next(s, Step(i, spare));
    if Switching(s'.threads[i]) {
      assert NoneSwitching(s);
    } else {
      SameRest(s, s', first);
    }
  }

  lemma SameRest<B>(s: State<B>, s': State<B>, first: seq<B>)
    requires Serial(s, first) && SameSwitchers(s, s')
    requires forall j :: 0 <= j < |s.threads| && Switching(s.threads[j]) ==> s'.threads[j] == s.threads[j]
    requires s'.active == s.active && s'.passive == s.passive && s'.retired == s.retired
    requires s'.spares == s.spares && s'.readOnly == s.readOnly
    ensures Serial(s', first)
  {
  }

  ghost predicate NoneClosing<B>(s: State<B>) {
    forall i :: 0 <= i < |s.threads| ==> !Closing(s.threads[i])
  }

  /** Close pools the active and the passive buffer of the moment it succeeded. */
  ghost predicate PooledByClose<B>(s: State<B>) {
    && (s.state != CLOSED_STATE ==> s.pooled == [])
    && (s.state == CLOSED_STATE && NoneClosing(s) ==> s.pooled == [s.active, s.passive])
    && (forall i :: 0 <= i < |s.threads| && s.threads[i].PoolActive? ==> s.pooled == [])
    && (forall i :: 0 <= i < |s.threads| && s.threads[i].PoolPassive? ==> s.pooled == [s.active])
  }

  ghost predicate Inv<B>(s: State<B>, first: seq<B>) {
    Exclusive(s) && Serial(s, first) && PooledByClose(s)
  }

  /** What a closed double buffer shares with its later states. */
  ghost predicate Frozen<B>(s: State<B>, s': State<B>) {
    && s'.state == CLOSED_STATE && s'.active == s.active && s'.passive == s.passive
    && s'.retired == s.retired && s'.spares == s.spares && s'.closes == s.closes
  }

  lemma StepPools<B>(s: State<B>, i: nat, spare: B)
    requires Exclusive(s) && PooledByClose(s) && Enabled(s, Step(i, spare))
    ensures PooledByClose(Next(s, Step(i, spare)))
  {
    hide OneSwitches, LockHeld;
    var s' := Next(s, Step(i, spare));
    if Switching(s.threads[i]) {
      SwitchingThread(s, i);
      assert s.pooled == [];
    } else if Closing(s.threads[i]) {
      CloserPools(s, i, spare);
    } else {
      SameClosers(s, s', i);
    }
  }

  lemma CloserPools<B>(s: State<B>, i: nat, spare: B)
    requires ClosedOnce(s) && PooledByClose(s) && Enabled(s, Step(i, spare)) && Closing(s.threads[i])
    ensures PooledByClose(Next(s, Step(i, spare)))
  {
    var s' := Next(s, Step(i, spare));
    assert s'.state == CLOSED_STATE && |s'.threads| == |s.threads|;
    forall j | 0 <= j < |s.threads| && j != i ensures !Closing(s'.threads[j]) {
      assert s'.threads[j] == s.threads[j];
    }
    if s.threads[i].PoolActive? {
      assert s.pooled == [] && s'.pooled == [s.active];
      assert Closing(s'.threads[i]);
    } else {
      assert s.pooled == [s.active] && s'.pooled == [s.active, s.passive];
    }
  }

  lemma SameClosers<B>(s: State<B>, s': State<B>, i: nat)
    requires ClosedOnce(s) && PooledByClose(s) && i < |s.threads| && |s'.threads| == |s.threads|
    requires s'.threads == s.threads[i := s'.threads[i]] && !Closing(s.threads[i])
    requires s'.pooled == s.pooled && s'.active == s.active && s'.passive == s.passive
    requires if s.state != CLOSED_STATE && s'.state == CLOSED_STATE then s'.threads[i].PoolActive?
             else s'.state == s.state || (s.state != CLOSED_STATE && s'.state != CLOSED_STATE)
    requires s'.threads[i].PoolActive? ==> s.state != CLOSED_STATE && s'.state == CLOSED_STATE
    requires !s'.threads[i].PoolPassive?
    ensures PooledByClose(s')
  {
    if NoneClosing(s') {
      forall j | 0 <= j < |s.threads| ensures !Closing(s.threads[j]) {
        assert !Closing(s'.threads[j]);
      }
    }
  }

  lemma StepInv<B>(s: State<B>, e: Event<B>, first: seq<B>)
    requires Inv(s, first) && Enabled(s, e)
    ensures Inv(Next(s, e), first)
    ensures s.state == CLOSED_STATE ==> Frozen(s, Next(s, e))
  {
    hide Serial, PooledByClose, OneSwitches, LockHeld, ClosedOnce;
    StepExclusive(s, e);
    match e
    case Step(i, spare) =>
      StepPools(s, i, spare);
      if Switching(s.threads[i]) {
        SwitchingThread(s, i);
        StepInBody(s, i, spare, first);
      } else {
        StepOutsideBody(s, i, spare, first);
      }
      if s.state == CLOSED_STATE {
        StepFrozen(s, i, spare);
      }
    case _ => CallInv(s, e, first);
  }

  lemma CallInv<B>(s: State<B>, e: Event<B>, first: seq<B>)
    requires Inv(s, first) && Enabled(s, e) && !e.Step?
    ensures Serial(Next(s, e), first) && PooledByClose(Next(s, e))
    ensures s.state == CLOSED_STATE ==> Frozen(s, Next(s, e))
  {
    hide OneSwitches, LockHeld;
    var s' := Next(s, e);
    SameRest(s, s', first);
    SameClosers(s, s', e.i);
  }

  lemma StepFrozen<B>(s: State<B>, i: nat, spare: B)
    requires Exclusive(s) && Enabled(s, Step(i, spare)) && s.state == CLOSED_STATE
    ensures Frozen(s, Next(s, Step(i, spare)))
  {
  }

  // ---------------------------------------------------------------- every run

  lemma InitialInv<B>(n: nat, active: B, passive: B)
    ensures Inv(Initial(n, active, passive), [active, passive])
  {
  }

  lemma {:induction false} RunInv<B>(s: State<B>, es: seq<Event<B>>, first: seq<B>)
    requires Inv(s, first) && Possible(s, es)
    ensures Inv(Exec(s, es), first)
    ensures s.state == CLOSED_STATE ==> Frozen(s, Exec(s, es))
    decreases |es|
  {
    if es != [] {
      StepInv(s, es[0], first);
      RunInv(Next(s, es[0]), es[1..], first);
    }
  }

  /** Mutual exclusion: the state reads SWITCHING_STATE exactly while one thread, and one only, is
      between its compare-and-swap and its restoring store; Close succeeds at most once and
      never while a switch is running. */
  lemma SwitchesExclude<B>(n: nat, active: B, passive: B, es: seq<Event<B>>)
    requires Possible(Initial(n, active, passive), es)
    ensures var s := Exec(Initial(n, active, passive), es);
            && (s.state == SWITCHING_STATE <==> exists i :: OnlySwitching(s, i))
            && (s.state != SWITCHING_STATE <==> NoneSwitching(s))
            && s.closes <= 1 && (s.closes == 1 <==> s.state == CLOSED_STATE)
  {
    InitialInv(n, active, passive);
    RunInv(Initial(n, active, passive), es, [active, passive]);
    OneOrNone(Exec(Initial(n, active, passive), es));
  }

  lemma SomeSwitches<B>(s: State<B>)
    requires exists i :: OnlySwitching(s, i)
    ensures !NoneSwitching(s)
  {
    var i: nat :| OnlySwitching(s, i);
    assert i < |s.threads|;
    assert Switching(s.threads[i]);
  }

  lemma OneOrNone<B>(s: State<B>)
    requires OneSwitches(s)
    ensures s.state == SWITCHING_STATE <==> exists i :: OnlySwitching(s, i)
    ensures s.state != SWITCHING_STATE <==> NoneSwitching(s)
  {
    forall i: nat | OnlySwitching(s, i) ensures s.state == SWITCHING_STATE {
      SwitchingThread(s, i);
    }
    if s.state == SWITCHING_STATE {
      SomeSwitches(s);
    }
  }

  /** The switch bodies take effect one after the other: whenever none is in progress, the
      retired buffers, the active and the passive one are, in this order, the two first buffers
      followed by those the pool has handed out; and a retired buffer was made read-only first. */
  lemma SwitchesSerialize<B>(n: nat, active: B, passive: B, es: seq<Event<B>>)
    requires Possible(Initial(n, active, passive), es)
    ensures var s := Exec(Initial(n, active, passive), es);
            && (s.state != SWITCHING_STATE ==> s.retired + [s.active, s.passive] == [active, passive] + s.spares)
            && forall b :: b in s.retired ==> b in s.readOnly
  {
    InitialInv(n, active, passive);
    RunInv(Initial(n, active, passive), es, [active, passive]);
  }

  /** Closed is never left, nothing is rotated or spawned after it, and Close pools exactly the
      buffers that were active and passive when it succeeded. */
  lemma ClosedIsFinal<B>(n: nat, active: B, passive: B, before: seq<Event<B>>, after: seq<Event<B>>)
    requires Possible(Initial(n, active, passive), before)
    requires var s := Exec(Initial(n, active, passive), before); s.state == CLOSED_STATE && Possible(s, after)
    ensures var s := Exec(Initial(n, active, passive), before);
            var s' := Exec(s, after);
            && Frozen(s, s') && NoneSwitching(s')
            && (NoneClosing(s') ==> s'.pooled == [s.active, s.passive])
  {
    InitialInv(n, active, passive);
    RunInv(Initial(n, active, passive), before, [active, passive]);
    RunInv(Exec(Initial(n, active, passive), before), after, [active, passive]);
  }

  // ---------------------------------------------------------------- calls that nothing interrupts

  /** All events are calls and steps of the one thread. */
  ghost predicate OnlyOf<B>(i: nat, es: seq<Event<B>>) {
    forall k :: 0 <= k < |es| ==> es[k].i == i
  }

  /** The thread alone leads from the one state to the other. */
  ghost predicate Alone<B(!new)>(s: State<B>, i: nat, t: State<B>) {
    exists es :: Possible(s, es) && OnlyOf(i, es) && Exec(s, es) == t
  }

  lemma {:induction false} Append<B>(s: State<B>, es: seq<Event<B>>, e: Event<B>)
    requires Possible(s, es) && Enabled(Exec(s, es), e)
    ensures Possible(s, es + [e]) && Exec(s, es + [e]) == Next(Exec(s, es), e)
    decreases |es|
  {
    if es == [] {
      assert es + [e] == [e] && [e][1..] == [];
      assert Exec(Next(s, e), []) == Next(s, e);
    } else {
      assert (es + [e])[1..] == es[1..] + [e];
      Append(Next(s, es[0]), es[1..], e);
    }
  }

  lemma AloneOn<B(!new)>(s: State<B>, i: nat, t: State<B>, e: Event<B>) returns (t': State<B>)
    requires Alone(s, i, t) && Enabled(t, e) && e.i == i
    ensures Alone(s, i, t') && t' == Next(t, e)
  {
    var es :| Possible(s, es) && OnlyOf(i, es) && Exec(s, es) == t;
    Append(s, es, e);
    assert OnlyOf(i, es + [e]);
    t' := Next(t, e);
  }

  lemma Called<B(!new)>(s: State<B>, e: Event<B>) returns (t: State<B>)
    requires Enabled(s, e)
    ensures Alone(s, e.i, t) && t == Next(s, e)
  {
    assert Possible(s, []) && OnlyOf<B>(e.i, []) && Exec(s, []) == s;
    t := AloneOn(s, e.i, s, e);
  }

  /** The thread takes the state and the lock, retires the active ring and gets a new one. */
  lemma SwitchBegins<B(!new)>(s: State<B>, i: nat, spare: B) returns (t: State<B>)
    requires i < |s.threads| && s.threads[i].Outside? && s.state == WRITING_STATE && s.lockedBy == None
    ensures Alone(s, i, t)
    ensures t == At(s.(state := SWITCHING_STATE, lockedBy := Some(i), readOnly := s.readOnly + {s.active},
                       spares := s.spares + [spare]), i, LoadActive(spare))
  {
    hide Alone;
    t := Called(s, CallSwitch(i));
    t := AloneOn(s, i, t, Step(i, spare));
    t := AloneOn(s, i, t, Step(i, spare));
    t := AloneOn(s, i, t, Step(i, spare));
    t := AloneOn(s, i, t, Step(i, spare));
  }

  /** It exchanges the rings. */
  lemma SwitchSwaps<B(!new)>(s: State<B>, i: nat, f: State<B>, spare: B) returns (t: State<B>)
    requires Alone(s, i, f) && i < |f.threads| && f.threads[i] == LoadActive(spare)
    ensures Alone(s, i, t)
    ensures t == At(f.(active := f.passive, passive := spare, retired := f.retired + [f.active]), i, Restore)
  {
    hide Alone;
    t := AloneOn(s, i, f, Step(i, spare));
    t := AloneOn(s, i, t, Step(i, spare));
    t := AloneOn(s, i, t, Step(i, spare));
    t := AloneOn(s, i, t, Step(i, spare));
    t := AloneOn(s, i, t, Step(i, spare));
  }

  /** switchChannel, called while the double buffer is writing and the lock is free and left alone,
      rotates: the old active ring is read-only and handed to a goroutine, the passive one becomes
      active, the spare one passive, and state and lock are given back. */
  lemma LoneSwitchRotates<B(!new)>(s: State<B>, i: nat, spare: B)
    requires i < |s.threads| && s.threads[i].Outside? && s.state == WRITING_STATE && s.lockedBy == None
    ensures Alone(s, i, s.(retired := s.retired + [s.active], active := s.passive, passive := spare,
                           readOnly := s.readOnly + {s.active}, spares := s.spares + [spare]))
  {
    hide Alone;
    var t := SwitchBegins(s, i, spare);
    t := SwitchSwaps(s, i, t, spare);
    t := AloneOn(s, i, t, Step(i, spare));
    t := AloneOn(s, i, t, Step(i, spare));
    assert t.threads == s.threads;
  }

  /** Close, called while the double buffer is writing and left alone, closes it and pools the
      active and the passive ring. */
  lemma LoneCloseCloses<B(!new)>(s: State<B>, i: nat, any: B)
    requires i < |s.threads| && s.threads[i].Outside? && s.state == WRITING_STATE
    ensures Alone(s, i, s.(state := CLOSED_STATE, closes := s.closes + 1, pooled := s.pooled + [s.active, s.passive]))
  {
    hide Alone;
    var t := Called(s, CallClose(i));
    t := AloneOn(s, i, t, Step(i, any));
    t := AloneOn(s, i, t, Step(i, any));
    t := AloneOn(s, i, t, Step(i, any));
    assert t.threads == s.threads && t.pooled == s.pooled + [s.active, s.passive];
  }

  /** In any other state both return after one step, with nothing done. */
  lemma LoneCallsRefused<B(!new)>(s: State<B>, e: Event<B>, any: B)
    requires Enabled(s, e) && !e.Step? && s.state != WRITING_STATE
    ensures Possible(s, [e, Step(e.i, any)]) && Exec(s, [e, Step(e.i, any)]) == s
  {
    var t := Next(s, e);
    var t' := Next(t, Step(e.i, any));
    assert t'.threads == s.threads;
    assert [e, Step(e.i, any)][1..] == [Step(e.i, any)] && [Step(e.i, any)][1..] == [];
    assert Exec(t', []) == t' && Exec(t, [Step(e.i, any)]) == t';
  }
}
