/** What single calls achieve: writes never fail, reads take every number in turn, and a
    quiet double buffer is drained in a known number of calls. */
module StreamProgress {
  import opened Ring
  import opened Stream
  import opened StreamSafety
  import StreamOrder

  // ---------------------------------------------------------------- buffers in every run

  ghost predicate ExactlyOneRole<B>(s: System<B>, b: B) {
    if b in s.pool then !Placed(s, b)
    else exists p :: At(s, p) == Some(b) && forall q :: At(s, q) == Some(b) ==> q == p
  }

  /** In every run each buffer in use is pooled or has exactly one role, passive and pooled
      buffers are pristine, `count` is the length of the active buffer, and no counter ever
      passes the capacity, so the 32-bit counters do not wrap. */
  lemma BuffersInEveryRun<B>(capacity: int, active: B, passive: B, es: seq<Event<B>>)
    requires 0 <= capacity <= MAX_INT32 && active != passive
    requires Possible(Start(capacity, active, passive), es)
    ensures var s := Exec(Start(capacity, active, passive), es).sys;
            && (forall b :: b in s.bufs ==> ExactlyOneRole(s, b))
            && RingOf(s, s.passive) == PRISTINE
            && (forall b :: b in s.pool ==> RingOf(s, b) == PRISTINE)
            && s.count == |RingOf(s, s.active).items|
            && (forall b :: b in s.bufs ==> InBounds(s.bufs[b], capacity))
  {
    var st := Start(capacity, active, passive);
    InitialInv(capacity, active, passive);
    RunInv(st, es);
    CapacityFixed(st, es);
    var s := Exec(st, es).sys;
    assert At(s, PassivePlace) == Some(s.passive) && RingFits(s, PassivePlace);
    forall b | b in s.bufs ensures ExactlyOneRole(s, b) && InBounds(s.bufs[b], capacity) {
      OneRole(s, b);
      RoleBounds(s, b);
    }
  }

  ghost predicate InBounds(r: RingValue, capacity: int) {
    && -1 <= r.tail <= r.head && r.head + 1 <= capacity && |r.items| == r.head - r.tail
    && (r.state == WRITE_ONLY || r.state == READ_ONLY)
  }

  lemma OneRole<B>(s: System<B>, b: B)
    requires Owned(s) && b in s.bufs
    ensures ExactlyOneRole(s, b)
  {
  }

  lemma RoleBounds<B>(s: System<B>, b: B)
    requires Owned(s) && Rings(s) && b in s.bufs
    ensures InBounds(s.bufs[b], s.capacity)
  {
    if b !in s.pool {
      var p :| At(s, p) == Some(b);
      assert RingFits(s, p);
    }
  }

  lemma {:induction false} CapacityFixed<B>(st: State<B>, es: seq<Event<B>>)
    requires Possible(st, es)
    ensures Exec(st, es).sys.capacity == st.sys.capacity
    decreases |es|
  {
    if es != [] {
      CapacityFixed(Next(st, es[0]), es[1..]);
    }
  }

  // ---------------------------------------------------------------- writes

  /** A write that runs alone succeeds exactly when the capacity is positive; it rotates at
      most once, and only when the active buffer has no room. */
  lemma WriteSucceedsIffCapacity<B>(st: State<B>, item: BufferItem, spare: B)
    requires Inv(st) && item.ptr != 0 && item.size > 0 && (spare in st.sys.pool || spare !in st.sys.bufs)
    ensures var s, (s', res) := st.sys, Write(st.sys, item, spare);
            && (res == Accepted <==> s.capacity >= 1)
            && (s.capacity >= 1 ==>
                  && (s'.spawned == s.spawned || s'.spawned == s.spawned + 1)
                  && (s'.spawned != s.spawned <==> s.count == s.capacity)
                  && Next(st, WriteEvent(item, spare)).hist.accepted == st.hist.accepted + [item])
  {
    var s := st.sys;
    assert At(s, ActivePlace) == Some(s.active) && At(s, PassivePlace) == Some(s.passive);
    assert RingFits(s, ActivePlace) && RingFits(s, PassivePlace);
  }

  // ---------------------------------------------------------------- reads

  /** Adopting the buffer whose turn it is, as one step. */
  ghost function Adopted<B>(s: System<B>): System<B>
    requires s.currentSequence in s.heap
  {
    s.(heap := s.heap - {s.currentSequence}, current := Some(s.heap[s.currentSequence]),
       currentSequence := s.currentSequence + 1, reader := Ready)
  }

  /** If the number the reader waits for has reached the heap, the next pick finds it. */
  lemma PickFindsCurrent<B>(s: System<B>)
    requires Window(s) && s.reader.Looking? && s.currentSequence in s.heap
    ensures Pick(s).reader.Holding? && Decide(Pick(s)) == Adopted(s)
  {
    var n := Pick(s).reader.number;
    assert Carried(s, n);
  }

  /** A pick of another number is undone, and costs one attempt. */
  lemma MissedPick<B>(s: System<B>)
    requires Window(s) && s.reader.Looking? && s.currentSequence !in s.heap && exists n :: n in s.heap
    ensures Pick(s).reader.Holding?
    ensures var next := s.reader.attempt + 1;
            Decide(Pick(s)) == s.(reader := if next < 3 then Looking(next) else Idle)
  {
  }

  lemma WindowWithoutHolding<B>(s: System<B>, reader: Reader<B>)
    requires Window(s) && !s.reader.Holding? && !reader.Holding?
    ensures Window(s.(reader := reader))
  {
    assert SameHands(s, s.(reader := reader));
  }

  /** The retry loop left to itself: it takes the buffer whose turn it is if that buffer has
      reached the heap, and otherwise gives up without having changed or lost anything. */
  lemma {:induction false} PickLoopCases<B>(s: System<B>)
    requires Window(s) && s.reader.Looking? && s.reader.attempt < MAX_RETRIES
    ensures PickLoop(s) ==
            if s.currentSequence in s.heap then Take(Adopted(s)) else (s.(reader := Idle), ErrNoBuffer)
    decreases MAX_RETRIES - s.reader.attempt
  {
    if s.currentSequence in s.heap {
      PickFindsCurrent(s);
    } else if exists n :: n in s.heap {
      MissedPick(s);
      var s2 := Decide(Pick(s));
      if s2.reader.Looking? {
        WindowWithoutHolding(s, s2.reader);
        PickLoopCases(s2);
      }
    }
  }

  /** tryRead as one call, with its effect on the history. */
  ghost function Read<B>(st: State<B>): State<B>
    requires st.sys.reader.Idle?
  {
    var (s', res) := TryRead(st.sys);
    State(s', if res.Chunk? then st.hist.(delivered := st.hist.delivered + [res.item]) else st.hist)
  }

  lemma TryReadCases<B>(s: System<B>)
    requires Window(s) && s.reader.Idle?
    ensures var s1 := Begin(s);
            TryRead(s) ==
            if s1.reader.Ready? then Take(s1)
            else if s.currentSequence in s.heap then Take(Adopted(s1))
            else (s1.(reader := Idle), ErrNoBuffer)
  {
    hide Begin, Take, Window, Adopted, PickLoop;
    BeginHands(s);
    var s1 := Begin(s);
    if s1.reader.Looking? {
      PickLoopCases(s1);
    }
  }

  lemma BeginHands<B>(s: System<B>)
    requires Window(s) && s.reader.Idle?
    ensures var s1 := Begin(s);
            && Window(s1) && s1.heap == s.heap && s1.currentSequence == s.currentSequence
            && ((s1.reader.Ready? && s1.current.Some?) || s1.reader == Looking(0))
  {
    assert SameHands(s, Begin(s));
  }

  lemma TakeHistory<B>(st: State<B>)
    requires Inv(st) && st.sys.reader.Ready? && st.sys.current.Some?
    ensures var (s', res) := Take(st.sys);
            Next(st, TakeEvent) ==
            State(s', if res.Chunk? then st.hist.(delivered := st.hist.delivered + [res.item]) else st.hist)
  {
  }

  lemma ReadInv<B>(st: State<B>)
    requires Inv(st) && st.sys.reader.Idle?
    ensures Inv(Read(st)) && Read(st).sys.reader.Idle?
  {
    hide Owned, Rings, Numbering, Frozen, Streamed;
    TryReadCases(st.sys);
    BeginInv(st);
    var st1 := State(Begin(st.sys), st.hist);
    if st1.sys.reader.Ready? {
      TakeChunkInv(st1);
    } else if st1.sys.currentSequence in st1.sys.heap {
      AdoptedInv(st1);
      TakeChunkInv(State(Adopted(st1.sys), st.hist));
    } else {
      PickLoopQuits(st1);
    }
  }

  lemma TakeChunkInv<B>(st: State<B>)
    requires Inv(st) && st.sys.reader.Ready? && st.sys.current.Some?
    ensures var (s', res) := Take(st.sys);
            Inv(State(s', if res.Chunk? then st.hist.(delivered := st.hist.delivered + [res.item]) else st.hist))
  {
    TakeInv(st);
    TakeHistory(st);
  }

  lemma AdoptedInv<B>(st: State<B>)
    requires Inv(st) && st.sys.reader.Looking? && st.sys.currentSequence in st.sys.heap
    ensures Inv(State(Adopted(st.sys), st.hist))
  {
    PickFindsCurrent(st.sys);
    PickInv(st);
    AdoptInv(State(Pick(st.sys), st.hist));
  }

  lemma PickLoopQuits<B>(st: State<B>)
    requires Inv(st) && st.sys.reader.Looking?
    ensures Inv(State(st.sys.(reader := Idle), st.hist))
  {
    OnlyReaderMoves(st.sys, st.sys.(reader := Idle));
    HistoryKept(st.sys, st.sys.(reader := Idle), st.hist);
  }

  // ---------------------------------------------------------------- how often the reader looks again

  ghost predicate Runs<B>(st: State<B>, es: seq<Event<B>>, end: State<B>) {
    Possible(st, es) && Exec(st, es) == end
  }

  lemma RunsOn<B>(st: State<B>, e: Event<B>, es: seq<Event<B>>, end: State<B>)
    requires Enabled(st.sys, e) && Runs(Next(st, e), es, end)
    ensures Runs(st, [e] + es, end)
  {
    assert ([e] + es)[1..] == es;
  }

  lemma RunsNowhere<B>(st: State<B>)
    ensures Runs(st, [], st)
  {
  }

  ghost function WithReader<B>(st: State<B>, reader: Reader<B>): State<B> {
    State(st.sys.(reader := reader), st.hist)
  }

  /** The reader has no buffer, and the one it waits for has not been published though others have. */
  ghost predicate Awaiting<B>(s: System<B>) {
    Window(s) && !s.reader.Holding? && s.current.None? && s.currentSequence !in s.heap && exists n :: n in s.heap
  }

  lemma StillAwaiting<B>(st: State<B>, attempt: nat)
    requires Awaiting(st.sys)
    ensures Awaiting(WithReader(st, Looking(attempt)).sys)
  {
    WindowWithoutHolding(st.sys, Looking(attempt));
  }

  /** A pick and a comparison that miss. */
  lemma MissRuns<B>(st: State<B>, attempt: nat, es: seq<Event<B>>, end: State<B>)
    requires Awaiting(st.sys) && st.sys.reader == Looking(attempt) && attempt <= 2
    requires Runs(WithReader(st, if attempt < 2 then Looking(attempt + 1) else Idle), es, end)
    ensures Runs(st, [PickEvent, DecideEvent] + es, end)
  {
    MissedPick(st.sys);
    hide Pick, Decide, Runs;
    RunsOn(Next(st, PickEvent), DecideEvent, es, end);
    RunsOn(st, PickEvent, [DecideEvent] + es, end);
    assert [PickEvent, DecideEvent] + es == [PickEvent] + ([DecideEvent] + es);
  }

  /** What follows two misses. */
  lemma TwoMissesRun<B>(st: State<B>, es: seq<Event<B>>, end: State<B>)
    requires Awaiting(st.sys) && st.sys.reader.Idle? && Runs(WithReader(st, Looking(2)), es, end)
    ensures Runs(st, [BeginEvent, PickEvent, DecideEvent, PickEvent, DecideEvent] + es, end)
  {
    hide Runs, Pick, Decide, Window;
    var miss := [PickEvent, DecideEvent];
    StillAwaiting(st, 0);
    StillAwaiting(st, 1);
    MissRuns(WithReader(st, Looking(1)), 1, es, end);
    MissRuns(WithReader(st, Looking(0)), 0, miss + es, end);
    assert Next(st, BeginEvent) == WithReader(st, Looking(0));
    RunsOn(st, BeginEvent, miss + (miss + es), end);
    assert [BeginEvent, PickEvent, DecideEvent, PickEvent, DecideEvent] + es == [BeginEvent] + (miss + (miss + es));
  }

  /** Three misses end the call, with nothing changed. */
  lemma ThreeMissesEnd<B>(st: State<B>)
    requires Awaiting(st.sys) && st.sys.reader.Idle?
    ensures Runs(st, [BeginEvent, PickEvent, DecideEvent, PickEvent, DecideEvent, PickEvent, DecideEvent], st)
  {
    hide Runs, Window;
    StillAwaiting(st, 2);
    RunsNowhere(st);
    MissRuns(WithReader(st, Looking(2)), 2, [], st);
    var last: seq<Event<B>> := [PickEvent, DecideEvent];
    assert last + [] == last;
    TwoMissesRun(st, last, st);
    assert [BeginEvent, PickEvent, DecideEvent, PickEvent, DecideEvent] + last ==
           [BeginEvent, PickEvent, DecideEvent, PickEvent, DecideEvent, PickEvent, DecideEvent];
  }

  /** A batch that is published after two misses is found by the third look, and its first item is
      delivered by the same call. */
  lemma ThirdLookFinds<B>(st: State<B>) returns (end: State<B>)
    requires Awaiting(st.sys) && st.sys.reader.Idle? && st.sys.currentSequence in st.sys.numbered
    requires RingOf(st.sys, st.sys.numbered[st.sys.currentSequence]).items != []
    ensures Runs(st, [BeginEvent, PickEvent, DecideEvent, PickEvent, DecideEvent,
                      PublishEvent(st.sys.currentSequence), PickEvent, DecideEvent, TakeEvent], end)
    ensures var items := RingOf(st.sys, st.sys.numbered[st.sys.currentSequence]).items;
            end.hist == st.hist.(delivered := st.hist.delivered + [items[0]])
  {
    StillAwaiting(st, 2);
    end := PublishedIsTaken(WithReader(st, Looking(2)));
    hide Runs, Window;
    var n := st.sys.currentSequence;
    var last: seq<Event<B>> := [PublishEvent(n), PickEvent, DecideEvent, TakeEvent];
    TwoMissesRun(st, last, end);
    assert [BeginEvent, PickEvent, DecideEvent, PickEvent, DecideEvent] + last ==
           [BeginEvent, PickEvent, DecideEvent, PickEvent, DecideEvent, PublishEvent(n), PickEvent, DecideEvent,
            TakeEvent];
  }

  lemma PublishedIsTaken<B>(st: State<B>) returns (end: State<B>)
    requires Window(st.sys) && st.sys.reader.Looking? && st.sys.currentSequence in st.sys.numbered
    requires RingOf(st.sys, st.sys.numbered[st.sys.currentSequence]).items != []
    ensures Runs(st, [PublishEvent(st.sys.currentSequence), PickEvent, DecideEvent, TakeEvent], end)
    ensures var items := RingOf(st.sys, st.sys.numbered[st.sys.currentSequence]).items;
            end.hist == st.hist.(delivered := st.hist.delivered + [items[0]])
  {
    var n := st.sys.currentSequence;
    PublishHands(st.sys, n);
    PublishedRing(st.sys, n);
    var st1 := Next(st, PublishEvent(n));
    PickFindsCurrent(st1.sys);
    hide Window, Pick, Decide, Publish, Runs;
    var st2 := Next(st1, PickEvent);
    var st3 := Next(st2, DecideEvent);
    end := Next(st3, TakeEvent);
    RunsNowhere(end);
    RunsOn(st3, TakeEvent, [], end);
    RunsOn(st2, DecideEvent, [TakeEvent] + [], end);
    RunsOn(st1, PickEvent, [DecideEvent] + ([TakeEvent] + []), end);
    RunsOn(st, PublishEvent(n), [PickEvent] + ([DecideEvent] + ([TakeEvent] + [])), end);
    var es: seq<Event<B>> := [PublishEvent(n), PickEvent, DecideEvent, TakeEvent];
    assert es == [PublishEvent(n)] + ([PickEvent] + ([DecideEvent] + ([TakeEvent] + [])));
  }

  lemma PublishedRing<B>(s: System<B>, n: int)
    requires n in s.numbered
    ensures var s' := Publish(s, n);
            n in s'.heap && s'.heap[n] == s.numbered[n] && s'.bufs == s.bufs && s'.currentSequence == s.currentSequence
  {
  }

  // ---------------------------------------------------------------- the pieces of tryRead keep the system sound

  lemma AdoptedSystem<B>(s: System<B>)
    requires SystemInv(s) && s.reader.Idle? && s.current.None? && s.currentSequence in s.heap
    ensures SystemInv(Adopted(s).(reader := Idle))
  {
    var s', from := Adopted(s).(reader := Idle), HeapPlace(s.currentSequence);
    assert RingFits(s, from);
    assert Moves(s, s', from, CurrentPlace);
    MovedOwned(s, s', from, CurrentPlace);
    MovedRings(s, s', from, CurrentPlace);
    assert Carried(s, s.currentSequence);
    forall n ensures Carried(s', n) <==> Carried(s, n) && n != s.currentSequence {}
  }

  lemma RecycledSystem<B>(s: System<B>)
    requires SystemInv(s) && s.reader.Idle? && Begin(s).current != s.current
    ensures SystemInv(Begin(s).(reader := Idle))
  {
    RecycleOwned(s);
    RecycleRings(s);
    RecycleHands(s);
    OnlyReaderMoves(Begin(s), Begin(s).(reader := Idle));
  }

  lemma TakenSystem<B>(s: System<B>)
    requires SystemInv(s) && s.reader.Idle? && s.current.Some?
    ensures SystemInv(Take(s.(reader := Ready)).0)
  {
    var s1 := s.(reader := Ready);
    OnlyReaderMoves(s, s1);
    TakeRings(s1);
    TakeHands(s1);
  }

  // ---------------------------------------------------------------- an uninterrupted read is a run

  /** The steps by which a call of tryRead reads. */
  ghost predicate OnlyReads<B>(es: seq<Event<B>>) {
    forall i :: 0 <= i < |es| ==> es[i].BeginEvent? || es[i].PickEvent? || es[i].DecideEvent? || es[i].TakeEvent?
  }

  /** Some steps of the reader alone lead from the one state to the other. */
  ghost predicate ReadsTo<B(!new)>(st: State<B>, end: State<B>) {
    exists es :: Possible(st, es) && OnlyReads(es) && Exec(st, es) == end
  }

  lemma OneMore<B(!new)>(st: State<B>, e: Event<B>, end: State<B>)
    requires Enabled(st.sys, e) && OnlyReads([e]) && ReadsTo(Next(st, e), end)
    ensures ReadsTo(st, end)
  {
    var es :| Possible(Next(st, e), es) && OnlyReads(es) && Exec(Next(st, e), es) == end;
    assert ([e] + es)[1..] == es;
    assert Possible(st, [e] + es) && OnlyReads([e] + es) && Exec(st, [e] + es) == end;
  }

  lemma NoMore<B(!new)>(st: State<B>)
    ensures ReadsTo(st, st)
  {
    assert Possible(st, []) && OnlyReads<B>([]) && Exec(st, []) == st;
  }

  /** A result of tryRead, recorded in the history. */
  ghost function Recorded<B>(h: History, s: System<B>, res: ReadResult): State<B> {
    State(s, if res.Chunk? then h.(delivered := h.delivered + [res.item]) else h)
  }

  lemma TakeIsARun<B(!new)>(st: State<B>)
    requires st.sys.reader.Ready? && st.sys.current.Some?
    ensures ReadsTo(st, Recorded(st.hist, Take(st.sys).0, Take(st.sys).1))
  {
    assert Next(st, TakeEvent) == Recorded(st.hist, Take(st.sys).0, Take(st.sys).1);
    NoMore(Next(st, TakeEvent));
    OneMore(st, TakeEvent, Next(st, TakeEvent));
  }

  lemma {:induction false} PickLoopIsARun<B(!new)>(st: State<B>)
    requires st.sys.reader.Looking?
    ensures ReadsTo(st, Recorded(st.hist, PickLoop(st.sys).0, PickLoop(st.sys).1))
    decreases MAX_RETRIES - st.sys.reader.attempt
  {
    hide ReadsTo, Take;
    var end := Recorded(st.hist, PickLoop(st.sys).0, PickLoop(st.sys).1);
    var st1 := Next(st, PickEvent);
    if st1.sys.reader.Idle? {
      NoMore(st1);
    } else {
      var st2 := Next(st1, DecideEvent);
      match st2.sys.reader {
        case Ready => TakeIsARun(st2);
        case Looking(_) => PickLoopIsARun(st2);
        case _ => NoMore(st2);
      }
      OneMore(st1, DecideEvent, end);
    }
    OneMore(st, PickEvent, end);
  }

  /** A call of tryRead that nothing interrupts is a run of its four steps. */
  lemma ReadIsARun<B(!new)>(st: State<B>)
    requires st.sys.reader.Idle?
    ensures ReadsTo(st, Read(st))
  {
    hide ReadsTo, Take, PickLoop;
    var st1 := Next(st, BeginEvent);
    if st1.sys.reader.Ready? {
      TakeIsARun(st1);
    } else {
      PickLoopIsARun(st1);
    }
    OneMore(st, BeginEvent, Read(st));
  }

  lemma {:induction false} ReadsOn<B(!new)>(st: State<B>, es: seq<Event<B>>, middle: State<B>, end: State<B>)
    requires Possible(st, es) && OnlyReads(es) && Exec(st, es) == middle && ReadsTo(middle, end)
    ensures ReadsTo(st, end)
    decreases |es|
  {
    if es != [] {
      assert OnlyReads(es[1..]) && OnlyReads([es[0]]);
      ReadsOn(Next(st, es[0]), es[1..], middle, end);
      OneMore(st, es[0], end);
    }
  }

  // ---------------------------------------------------------------- draining

  /** No goroutine is on its way: every number drawn is in the heap, and none is missing. */
  ghost predicate Settled<B>(s: System<B>) {
    s.reader.Idle? && s.waiting == map[] && s.numbered == map[]
  }

  /** Calls needed for the batches numbered n, n + 1, ...: one per item, and one for an empty batch. */
  ghost function Calls(batches: seq<seq<BufferItem>>, order: seq<nat>, n: int): nat
    decreases |order| - n
  {
    if n < 1 || n > |order| || order[n - 1] >= |batches| then 0
    else
      var size := |batches[order[n - 1]]|;
      (if size == 0 then 1 else size) + Calls(batches, order, n + 1)
  }

  /** Items left in the current buffer, items of the published batches, and one per empty batch. */
  ghost function Work<B>(st: State<B>): nat
  {
    |Rest(st.sys)| + Calls(st.hist.batches, st.hist.order, st.sys.currentSequence)
  }

  /** One call on a settled double buffer does one unit of the work, or reports that there is none. */
  lemma ReadWorks<B>(st: State<B>)
    requires Inv(st) && Settled(st.sys)
    ensures Inv(Read(st)) && Settled(Read(st).sys)
    ensures TryRead(st.sys).1 == ErrNoBuffer <==> Work(st) == 0
    ensures Work(Read(st)) == if Work(st) == 0 then 0 else Work(st) - 1
    ensures Read(st).hist.batches == st.hist.batches && Read(st).hist.order == st.hist.order
  {
    ReadInv(st);
    if Rest(st.sys) != [] {
      ReadsCurrent(st);
    } else {
      SettledInv(st);
      ReadsNext(st);
    }
    hide Inv, TryRead, Rest;
  }

  lemma SettledInv<B>(st: State<B>)
    requires Inv(st) && Settled(st.sys)
    ensures st.sys.currentSequence in st.sys.heap <==> st.sys.currentSequence <= |st.hist.order|
    ensures 1 <= st.sys.currentSequence <= |st.hist.order| + 1
  {
    SettledHeap(st.sys);
  }

  lemma ReadsCurrent<B>(st: State<B>)
    requires Inv(st) && Settled(st.sys) && Rest(st.sys) != []
    ensures var s, s' := st.sys, Read(st).sys;
            && TryRead(s).1.Chunk? && Settled(s')
            && Rest(s') == Rest(s)[1..] && s'.currentSequence == s.currentSequence
  {
    TryReadCases(st.sys);
  }

  lemma ReadsNext<B>(st: State<B>)
    requires Inv(st) && Settled(st.sys) && Rest(st.sys) == []
    ensures var s, n, s' := st.sys, st.sys.currentSequence, Read(st).sys;
            && Settled(s')
            && (TryRead(s).1 == ErrNoBuffer <==> n !in s.heap)
            && (n !in s.heap ==> Rest(s') == [] && s'.currentSequence == n)
            && (n in s.heap ==>
                  && s'.currentSequence == n + 1
                  && 1 <= n <= |st.hist.order| && st.hist.order[n - 1] < |st.hist.batches|
                  && var items := st.hist.batches[st.hist.order[n - 1]];
                     Rest(s') == if items == [] then [] else items[1..])
  {
    TryReadCases(st.sys);
    if st.sys.currentSequence in st.sys.heap {
      AdoptedSize(st);
    }
  }

  lemma SettledHeap<B>(s: System<B>)
    requires Window(s) && Settled(s)
    ensures s.currentSequence in s.heap <==> s.currentSequence <= s.sequence
  {
    assert Carried(s, s.currentSequence) <==> s.currentSequence <= s.sequence;
  }

  lemma AdoptedSize<B>(st: State<B>)
    requires Inv(st) && st.sys.reader.Idle? && Rest(st.sys) == [] && st.sys.currentSequence in st.sys.heap
    ensures var n := st.sys.currentSequence;
            && 1 <= n <= |st.hist.order| && st.hist.order[n - 1] < |st.hist.batches|
            && RingOf(Begin(st.sys), st.sys.heap[n]).items == st.hist.batches[st.hist.order[n - 1]]
  {
    hide Owned, Rings, Streamed;
    BeginInv(st);
    BeginHands(st.sys);
    CarriedHere(Begin(st.sys), st.hist, st.sys.currentSequence);
  }

  lemma CarriedHere<B>(s: System<B>, h: History, n: int)
    requires Window(s) && Numbering(s, h) && Frozen(s, h) && n in s.heap
    ensures 1 <= n <= |h.order| && h.order[n - 1] < |h.batches|
    ensures RingOf(s, s.heap[n]).items == h.batches[h.order[n - 1]]
  {
    assert Carried(s, n);
    assert Carrier(s, n) == s.heap[n];
  }

  /** `s`, `next(s)`, `next(next(s))`, ... */
  ghost function Iterate<S>(next: S -> S, s: S, k: nat): S {
    if k == 0 then s else Iterate(next, next(s), k - 1)
  }

  /** A step that keeps an invariant and does one unit of a measured work does all of it. */
  lemma {:induction false} Countdown<S(!new)>(inv: S -> bool, next: S -> S, work: S -> nat, s: S, k: nat)
    requires inv(s) && k <= work(s)
    requires forall t :: inv(t) ==> inv(next(t)) && work(next(t)) == if work(t) == 0 then 0 else work(t) - 1
    ensures inv(Iterate(next, s, k)) && work(Iterate(next, s, k)) == work(s) - k
  {
    if k > 0 {
      Countdown(inv, next, work, next(s), k - 1);
    }
  }

  /** The state after `k` calls. */
  ghost function After<B>(st: State<B>, k: nat): State<B> {
    Iterate((t: State<B>) => if t.sys.reader.Idle? then Read(t) else t, st, k)
  }

  lemma NoWorkLeft<B>(st: State<B>)
    requires Inv(st) && Work(st) == 0
    ensures st.hist.delivered == Flatten(Ordered(st.hist.batches, st.hist.order))
  {
    var order := st.hist.order;
    assert st.sys.currentSequence == |order| + 1;
    assert order[..st.sys.currentSequence - 1] == order;
  }

  lemma AfterWorks<B(!new)>(st: State<B>, k: nat)
    requires Inv(st) && Settled(st.sys) && k <= Work(st)
    ensures var st' := After(st, k);
            && Inv(st') && Settled(st'.sys) && Work(st') == Work(st) - k
            && st'.hist.batches == st.hist.batches && st'.hist.order == st.hist.order
  {
    var inv := (t: State<B>) =>
      Inv(t) && Settled(t.sys) && t.hist.batches == st.hist.batches && t.hist.order == st.hist.order;
    var next := (t: State<B>) => if t.sys.reader.Idle? then Read(t) else t;
    var work := (t: State<B>) => Work(t);
    forall t | inv(t)
      ensures inv(next(t)) && work(next(t)) == if work(t) == 0 then 0 else work(t) - 1
    {
      ReadWorks(t);
    }
    Countdown(inv, next, work, st, k);
  }

  /** The states of DrainInExactlyWorkCalls are reached by steps of the reader alone. */
  lemma {:induction false} AfterIsARun<B(!new)>(st: State<B>, k: nat)
    requires Inv(st) && st.sys.reader.Idle?
    ensures ReadsTo(st, After(st, k)) && After(st, k).sys.reader.Idle?
    decreases k
  {
    if k == 0 {
      NoMore(st);
    } else {
      hide ReadsTo, Inv;
      ReadInv(st);
      AfterIsARun(Read(st), k - 1);
      AfterStep(st, k);
      ReadIsARun(st);
      ReadsBoth(st, Read(st), After(st, k));
    }
  }

  lemma AfterStep<B>(st: State<B>, k: nat)
    requires st.sys.reader.Idle? && k > 0
    ensures After(st, k) == After(Read(st), k - 1)
  {
  }

  lemma ReadsBoth<B(!new)>(st: State<B>, middle: State<B>, end: State<B>)
    requires ReadsTo(st, middle) && ReadsTo(middle, end)
    ensures ReadsTo(st, end)
  {
    var es :| Possible(st, es) && OnlyReads(es) && Exec(st, es) == middle;
    ReadsOn(st, es, middle, end);
  }

  /** With no writes and all goroutines finished, each of the first Work(st) calls of tryRead
      yields an item or the error of an empty batch, and the next one is the first to report
      ErrNoBuffer; by then every rotated item has been delivered, in sequence-number order. */
  lemma DrainInExactlyWorkCalls<B(!new)>(st: State<B>)
    requires Inv(st) && Settled(st.sys)
    ensures forall k: nat :: k <= Work(st) ==> After(st, k).sys.reader.Idle?
    ensures forall k: nat :: k <= Work(st) ==> (TryRead(After(st, k).sys).1 == ErrNoBuffer <==> k == Work(st))
    ensures After(st, Work(st)).hist.delivered == Flatten(Ordered(st.hist.batches, st.hist.order))
  {
    forall k: nat | k <= Work(st)
      ensures After(st, k).sys.reader.Idle?
      ensures TryRead(After(st, k).sys).1 == ErrNoBuffer <==> k == Work(st)
    {
      AfterWorks(st, k);
      ReadWorks(After(st, k));
    }
    AfterWorks(st, Work(st));
    NoWorkLeft(After(st, Work(st)));
  }

  /** If moreover the numbers went by spawn order, everything accepted has by then been
      delivered, in the order of the writes, except for what is still in the active buffer. */
  lemma DrainDeliversAll<B(!new)>(st: State<B>)
    requires Inv(st) && Settled(st.sys) && StreamOrder.Identity(st.hist.order)
    ensures var State(s', h') := After(st, Work(st));
            h'.accepted == h'.delivered + RingOf(s', s'.active).items
  {
    AfterWorks(st, Work(st));
    var st' := After(st, Work(st));
    StreamOrder.PipelineIsQueue(st');
    AllHandedOn(st');
  }

  lemma AllHandedOn<B>(st: State<B>)
    requires Inv(st) && Settled(st.sys) && Work(st) == 0 && st.sys.sequence <= st.sys.spawned
    requires forall g: nat :: st.sys.sequence <= g < st.sys.spawned ==> g in st.sys.waiting
    ensures Rest(st.sys) == [] && StreamOrder.PublishedBatches(st.sys) == [] && StreamOrder.WaitingBatches(st.sys) == []
  {
  }
}
