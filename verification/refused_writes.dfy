/** Exactly when a write of one writer can be refused, for each capacity and each set of stages at
    which the writer may be while the monitor is inside its rotation. */
module RefusedWrites {
  import opened Ring
  import opened Stream
  import opened StreamSafety
  import opened FineStream
  import opened InterruptedPushes

  // ---------------------------------------------------------------- roles of buffers, whatever is in them

  ghost predicate Roles<B>(s: System<B>) {
    && Owned(s) && Window(s) && (forall g :: g in s.waiting ==> g < s.spawned)
    && (s.reader.Looking? || s.reader.Holding? ==> s.current.None?)
  }

  /** The same roles, with other contents. */
  lemma SamePlaces<B>(s: System<B>, s': System<B>)
    requires Roles(s) && s'.bufs.Keys == s.bufs.Keys
    requires s' == s.(bufs := s'.bufs, count := s'.count, reader := s'.reader)
    requires s.reader.Holding? || s'.reader.Holding? ==> s'.reader == s.reader
    requires s'.reader.Looking? ==> s'.current.None?
    ensures Roles(s')
  {
    forall p ensures At(s', p) == At(s, p) {}
    SameRoles(s, s');
    assert SameHands(s, s');
  }

  lemma RotateRoles<B>(s: System<B>, spare: B)
    requires Roles(s) && CanGet(s, spare)
    ensures Roles(Rotate(s, spare))
  {
    RotateOwned(s, spare);
    RotateHands(s, spare);
  }

  lemma NumberPlaces<B>(s: System<B>, g: nat)
    requires Roles(s) && g in s.waiting
    ensures Roles(Number(s, g))
  {
    var from, to := WaitingPlace(g), NumberedPlace(s.sequence + 1);
    NumberWindow(s, g);
    assert Moves(s, Number(s, g), from, to);
    MovedOwned(s, Number(s, g), from, to);
  }

  lemma PublishPlaces<B>(s: System<B>, n: int)
    requires Roles(s) && n in s.numbered
    ensures Roles(Publish(s, n))
  {
    PublishHands(s, n);
    assert Moves(s, Publish(s, n), NumberedPlace(n), HeapPlace(n));
    MovedOwned(s, Publish(s, n), NumberedPlace(n), HeapPlace(n));
  }

  lemma BeginPlaces<B>(s: System<B>)
    requires Roles(s) && s.reader.Idle?
    ensures Roles(Begin(s))
  {
    if Begin(s).current == s.current {
      SamePlaces(s, Begin(s));
    } else {
      RecycleOwned(s);
      RecycleHands(s);
    }
  }

  lemma PickPlaces<B>(s: System<B>)
    requires Roles(s) && s.reader.Looking?
    ensures Roles(Pick(s))
  {
    PickHands(s);
    if Pick(s).reader.Idle? {
      SamePlaces(s, Pick(s));
    } else {
      var n := Pick(s).reader.number;
      assert Moves(s, Pick(s), HeapPlace(n), HeldPlace);
      MovedOwned(s, Pick(s), HeapPlace(n), HeldPlace);
    }
  }

  lemma DecidePlaces<B>(s: System<B>)
    requires Roles(s) && s.reader.Holding?
    ensures Roles(Decide(s))
  {
    var to := if s.reader.number == s.currentSequence then CurrentPlace else HeapPlace(s.reader.number);
    if s.reader.number == s.currentSequence {
      AdoptWindow(s);
    } else {
      PushBackHands(s);
    }
    assert Moves(s, Decide(s), HeldPlace, to);
    MovedOwned(s, Decide(s), HeldPlace, to);
  }

  lemma TakePlaces<B>(s: System<B>)
    requires Roles(s) && s.reader.Ready? && s.current.Some?
    ensures Roles(Take(s).0)
  {
    assert At(s, CurrentPlace) == s.current;
    SamePlaces(s, Take(s).0);
  }

  lemma CollectPlaces<B>(s: System<B>, b: B)
    requires Roles(s) && b in s.pool
    ensures Roles(Apply(s, CollectEvent(b)))
  {
    var s' := Apply(s, CollectEvent(b));
    CollectHands(s, b);
    forall p ensures At(s', p) == At(s, p) {}
    forall c | c in s'.bufs && c !in s'.pool ensures Placed(s', c) {
      var p :| At(s, p) == Some(c);
      assert At(s', p) == Some(c);
    }
  }

  lemma StepRoles<B>(s: System<B>, e: Event<B>)
    requires Roles(s) && Enabled(s, e) && !e.WriteEvent?
    ensures Roles(Apply(s, e))
  {
    hide Roles;
    match e
    case SwitchEvent(spare) => RotateRoles(s, spare);
    case NumberEvent(g) => NumberPlaces(s, g);
    case PublishEvent(n) => PublishPlaces(s, n);
    case BeginEvent => BeginPlaces(s);
    case PickEvent => PickPlaces(s);
    case DecideEvent => DecidePlaces(s);
    case TakeEvent => TakePlaces(s);
    case CollectEvent(b) => CollectPlaces(s, b);
  }

  // ---------------------------------------------------------------- room for the second attempt

  ghost predicate UnderWay<B>(w: Writer<B>) {
    w.Claim? || w.Store? || w.Add?
  }

  ghost predicate Within(c: Cells, n: int) {
    0 <= c.count <= n && (c.mode == WRITE_ONLY || c.mode == READ_ONLY)
  }

  /** A ring for a second attempt: not retired and with at most one item. */
  ghost predicate Roomy(c: Cells) {
    c.mode == WRITE_ONLY && c.count <= 1
  }

  /** A pooled ring, and the passive one, holds at most one item: one whose push was under way when
      the ring was retired, and which has been added after the reset. */
  ghost predicate SparesFit<B>(cells: map<B, Cells>, spares: set<B>, w: Writer<B>) {
    forall b :: b in cells && b in spares ==>
      Roomy(cells[b]) && (UnderWay(w) && w.b == b ==> cells[b].count == 0)
  }

  /** Where the writer is, and what it will find once the monitor has finished. */
  ghost predicate Trying<B>(cells: map<B, Cells>, n: int, active: B, w: Writer<B>, turn: Turn) {
    && active in cells
    && (w.Check? ==> w.b == active && turn.Resting?)
    && (UnderWay(w) && w.b in cells ==> cells[w.b].count < n)
    && match turn
       case Resting =>
         && (w.LookAgain? ==> cells[active].mode == READ_ONLY || Roomy(cells[active]))
         && ((w.LoadActive? || w.Check?) && w.again ==> Roomy(cells[active]))
       case Swapped => Roomy(cells[active]) && (UnderWay(w) && w.b == active ==> cells[active].count == 0)
       case _ => true
  }

  ghost predicate Fitting<B>(cells: map<B, Cells>, n: int, active: B, spares: set<B>, w: Writer<B>, turn: Turn) {
    && (forall b :: b in cells ==> Within(cells[b], n))
    && SparesFit(cells, spares, w) && Trying(cells, n, active, w, turn)
  }

  ghost predicate Loose<B>(f: Fine<B>) {
    && Roles(f.sys) && f.sys.bufs == Views(f.cells) && 2 <= f.sys.capacity <= MAX_INT32
    && Fitting(f.cells, f.sys.capacity, f.sys.active, f.sys.pool + {f.sys.passive}, f.writer, f.turn)
  }

  lemma Distinct<B>(s: System<B>)
    requires Roles(s)
    ensures s.active in s.bufs && s.active !in s.pool && s.passive in s.bufs && s.passive !in s.pool
    ensures s.active != s.passive
    ensures s.current.Some? ==> s.current.value in s.bufs && s.current.value !in s.pool
    ensures s.current.Some? ==> s.current.value != s.active && s.current.value != s.passive
  {
    assert At(s, ActivePlace) == Some(s.active) && At(s, PassivePlace) == Some(s.passive);
    assert At(s, CurrentPlace) == s.current;
  }

  // ---------------------------------------------------------------- the writer's steps

  /** The writer's own step leaves roles alone. */
  lemma WorkKeepsRoles<B>(f: Fine<B>, b: B, c: Cells, w: Writer<B>)
    requires Roles(f.sys) && f.sys.bufs == Views(f.cells)
    ensures Roles(Worked(f, b, c, w).sys)
  {
    SamePlaces(f.sys, Worked(f, b, c, w).sys);
  }

  /** A claim or a store, on a ring that may have been dropped. */
  lemma ClaimFits<B>(cells: map<B, Cells>, n: int, active: B, spares: set<B>, w: Writer<B>, turn: Turn,
                     c: Cells, w': Writer<B>)
    requires Fitting(cells, n, active, spares, w, turn) && UnderWay(w) && UnderWay(w') && w'.b == w.b
    requires w.b in cells ==> c.count == cells[w.b].count && c.mode == cells[w.b].mode
    ensures Fitting(if w.b in cells then cells[w.b := c] else cells, n, active, spares, w', turn)
  {
  }

  lemma AddFits<B>(cells: map<B, Cells>, n: int, active: B, spares: set<B>, w: Writer<B>, turn: Turn, c: Cells)
    requires Fitting(cells, n, active, spares, w, turn) && UnderWay(w) && n <= MAX_INT32
    requires w.b in cells ==> c.count == Int32(cells[w.b].count + 1) && c.mode == cells[w.b].mode
    ensures Fitting(if w.b in cells then cells[w.b := c] else cells, n, active, spares, CountUp, turn)
  {
  }

  lemma LatchFits<B>(cells: map<B, Cells>, n: int, active: B, spares: set<B>, w: Writer<B>, turn: Turn, c: Cells)
    requires Fitting(cells, n, active, spares, w, turn) && active !in spares && w.Check? && c.mode == READ_ONLY
    requires c.count == cells[active].count
    ensures Fitting(cells[active := c], n, active, spares, LookAgain(w.item), turn)
  {
  }

  /** A second attempt is never refused. */
  lemma CheckStaysLoose<B>(f: Fine<B>, spare: B)
    requires Loose(f) && f.writer.Check?
    ensures Loose(WriterStep(f, spare)) && WriterStep(f, spare).refused == f.refused
  {
    Distinct(f.sys);
    hide Roles, Views;
    var b, c := f.sys.active, f.cells[f.sys.active];
    assert Within(c, f.sys.capacity);
    if c.mode == WRITE_ONLY && c.count >= f.sys.capacity {
      var c' := c.(mode := READ_ONLY);
      LatchFits(f.cells, f.sys.capacity, b, f.sys.pool + {f.sys.passive}, f.writer, f.turn, c');
      WorkKeepsRoles(f, b, c', LookAgain(f.writer.item));
    }
  }

  lemma PushStaysLoose<B>(f: Fine<B>, spare: B)
    requires Loose(f) && UnderWay(f.writer)
    ensures Loose(WriterStep(f, spare)) && WriterStep(f, spare).refused == f.refused
  {
    hide Roles, Views, Fitting, CalcPos, Int32;
    var b, c, spares := f.writer.b, CellsAt(f, f.writer.b), f.sys.pool + {f.sys.passive};
    var t := WriterStep(f, spare);
    var c' := if b in f.cells then t.cells[b] else c;
    WorkKeepsRoles(f, b, c', t.writer);
    if f.writer.Add? {
      AddFits(f.cells, f.sys.capacity, f.sys.active, spares, f.writer, f.turn, c');
    } else {
      ClaimFits(f.cells, f.sys.capacity, f.sys.active, spares, f.writer, f.turn, c', t.writer);
    }
  }

  lemma RestStaysLoose<B>(f: Fine<B>, spare: B)
    requires Loose(f) && FineEnabled(f, StepWriter(spare)) && !(f.writer.Switch? && f.turn.Resting?)
    requires f.writer.LoadActive? || f.writer.CountUp? || f.writer.LookAgain? || f.writer.Switch?
    requires WriterStep(f, spare).writer.Check? ==> f.turn.Resting?
    ensures Loose(WriterStep(f, spare)) && WriterStep(f, spare).refused == f.refused
  {
    Distinct(f.sys);
    SamePlaces(f.sys, WriterStep(f, spare).sys);
    hide Roles, Views, Others;
  }

  // ---------------------------------------------------------------- the monitor's steps

  lemma FrozenFits<B>(cells: map<B, Cells>, n: int, active: B, spares: set<B>, w: Writer<B>, c: Cells, was: int)
    requires Fitting(cells, n, active, spares, w, Begun) && active !in spares
    requires c.count == cells[active].count && c.mode == READ_ONLY
    ensures Fitting(cells[active := c], n, active, spares, w, Frozen(was))
  {
  }

  lemma MonitorStaysLoose<B>(f: Fine<B>, spare: B)
    requires Loose(f) && !f.turn.Frozen? && !f.writer.Check?
    ensures Loose(MonitorStep(f, spare)) && MonitorStep(f, spare).refused == f.refused
  {
    Distinct(f.sys);
    hide Roles, Views;
    if f.turn.Begun? {
      hide Fitting;
      var c := f.cells[f.sys.active];
      var c' := c.(mode := READ_ONLY);
      FrozenFits(f.cells, f.sys.capacity, f.sys.active, f.sys.pool + {f.sys.passive}, f.writer, c', c.mode);
      WorkKeepsRoles(f, f.sys.active, c', f.writer);
    }
  }

  // ---------------------------------------------------------------- everybody else's steps

  lemma OthersKeepRoles<B>(f: Fine<B>, e: Event<B>)
    requires Roles(f.sys) && f.sys.bufs == Views(f.cells) && Enabled(f.sys, e) && !e.WriteEvent?
    ensures Roles(Others(f, e).sys)
  {
    StepRoles(f.sys, e);
    Distinct(f.sys);
    SameKeys(f, e);
    hide Roles;
    var s' := Apply(f.sys, e);
    SamePlaces(s', s'.(bufs := Views(CellsAfter(f, e))));
  }

  lemma SameKeys<B>(f: Fine<B>, e: Event<B>)
    requires f.sys.bufs == Views(f.cells) && Enabled(f.sys, e) && !e.WriteEvent?
    requires f.sys.current.Some? ==> f.sys.current.value in f.cells
    ensures Views(CellsAfter(f, e)).Keys == Apply(f.sys, e).bufs.Keys
  {
    hide View;
    match e
    case SwitchEvent(_) =>
    case BeginEvent =>
    case TakeEvent =>
    case CollectEvent(_) =>
    case DecideEvent => DecideIndifferent(f.sys, f.sys.bufs, f.sys.count);
    case _ =>
  }

  lemma RotationFits<B>(cells: map<B, Cells>, n: int, active: B, passive: B, pool: set<B>, w: Writer<B>, turn: Turn,
                        w': Writer<B>, turn': Turn, spare: B, c: Cells)
    requires Fitting(cells, n, active, pool + {passive}, w, turn) && active !in pool && active != passive
    requires passive in cells
    requires spare in pool || spare !in cells
    requires c == if spare in cells then cells[spare] else NewCells(n)
    requires n >= 2 && (spare in cells || !UnderWay(w) || w.b != spare)
    requires (w' == w && turn.Frozen? && turn' == Swapped)
          || (w.Switch? && w' == LoadActive(w.item, true) && turn == turn' == Resting)
    ensures var cells' := cells[active := cells[active].(mode := READ_ONLY)][spare := c];
            Fitting(cells', n, passive, pool - {spare} + {spare}, w', turn')
  {
  }

  lemma RotationStaysLoose<B>(f: Fine<B>, e: FineEvent<B>, spare: B)
    requires Loose(f) && FineEnabled(f, e) && Rotates(f, e, spare)
    ensures Loose(FineNext(f, e)) && FineNext(f, e).refused == f.refused
  {
    OthersKeepRoles(f, SwitchEvent(spare));
    Distinct(f.sys);
    hide Roles, View, Fitting;
    var f' := FineNext(f, e);
    RotationFits(f.cells, f.sys.capacity, f.sys.active, f.sys.passive, f.sys.pool, f.writer, f.turn,
                 f'.writer, f'.turn, spare, CellsAt(f, spare));
  }

  /** The reader works on its current ring, which then may be pooled, or the pool drops one. */
  lemma CurrentFits<B>(cells: map<B, Cells>, n: int, active: B, spares: set<B>, w: Writer<B>, turn: Turn,
                       b: B, c: Cells, spares': set<B>)
    requires Fitting(cells, n, active, spares, w, turn) && b in cells && b != active && b !in spares
    requires 0 <= c.count <= cells[b].count && (c.mode == cells[b].mode || c.mode == WRITE_ONLY)
    requires spares' == spares || (spares' == spares + {b} && c.mode == WRITE_ONLY && c.count == 0)
    ensures Fitting(cells[b := c], n, active, spares', w, turn)
  {
  }

  lemma DroppedFits<B>(cells: map<B, Cells>, n: int, active: B, spares: set<B>, w: Writer<B>, turn: Turn,
                       b: B, spares': set<B>)
    requires Fitting(cells, n, active, spares, w, turn) && b != active && spares' <= spares
    ensures Fitting(cells - {b}, n, active, spares', w, turn)
  {
  }

  lemma ReaderStaysLoose<B>(f: Fine<B>, e: Event<B>)
    requires Loose(f) && Enabled(f.sys, e) && (e.BeginEvent? || e.TakeEvent?)
    ensures Loose(Others(f, e))
  {
    OthersKeepRoles(f, e);
    Distinct(f.sys);
    hide Roles, View, Fitting, FindsNil, CalcPos;
    var t, spares := Others(f, e), f.sys.pool + {f.sys.passive};
    if t.cells != f.cells {
      var b := f.sys.current.value;
      CurrentFits(f.cells, f.sys.capacity, f.sys.active, spares, f.writer, f.turn,
                  b, t.cells[b], t.sys.pool + {t.sys.passive});
    }
  }

  lemma OthersStayLoose<B>(f: Fine<B>, e: Event<B>)
    requires Loose(f) && FineEnabled(f, Elsewhere(e))
    ensures Loose(Others(f, e))
  {
    if e.BeginEvent? || e.TakeEvent? {
      ReaderStaysLoose(f, e);
    } else {
      OthersKeepRoles(f, e);
      Distinct(f.sys);
      hide Roles, View, Views, Fitting, FindsNil;
      if e.CollectEvent? {
        DroppedFits(f.cells, f.sys.capacity, f.sys.active, f.sys.pool + {f.sys.passive}, f.writer, f.turn, e.b,
                    f.sys.pool - {e.b} + {f.sys.passive});
      } else if e.DecideEvent? {
        DecideIndifferent(f.sys, f.sys.bufs, f.sys.count);
      }
    }
  }

  // ---------------------------------------------------------------- every run without rotations at the check

  lemma StepStaysLoose<B>(f: Fine<B>, e: FineEvent<B>)
    requires Loose(f) && FineEnabled(f, e) && (FineNext(f, e).writer.Check? ==> FineNext(f, e).turn.Resting?)
    ensures Loose(FineNext(f, e)) && FineNext(f, e).refused == f.refused
  {
    match e
    case CallWrite(_) =>
    case StepWriter(spare) =>
      hide Loose, Others;
      if Rotates(f, e, spare) {
        RotationStaysLoose(f, e, spare);
      } else if f.writer.Check? {
        CheckStaysLoose(f, spare);
      } else if UnderWay(f.writer) {
        PushStaysLoose(f, spare);
      } else {
        RestStaysLoose(f, spare);
      }
    case StepMonitor(spare) =>
      if Rotates(f, e, spare) {
        RotationStaysLoose(f, e, spare);
      } else {
        MonitorStaysLoose(f, spare);
      }
    case Elsewhere(other) =>
      hide Loose;
      OthersStayLoose(f, other);
  }

  lemma {:induction false} RunStaysLoose<B>(f: Fine<B>, es: seq<FineEvent<B>>, at: set<Stage>)
    requires Loose(f) && FinePossible(f, es) && RotatesAt(f, es, at) && Checking !in at
    ensures Loose(FineExec(f, es)) && FineExec(f, es).refused == f.refused
    decreases |es|
  {
    if es != [] {
      hide Loose, FineNext;
      assert AtStage(FineNext(f, es[0]), at) by {
        assert RotatesAt(FineNext(f, es[0]), es[1..], at);
      }
      StepStaysLoose(f, es[0]);
      RunStaysLoose(FineNext(f, es[0]), es[1..], at);
    }
  }

  lemma StartLoose(n: int)
    requires 2 <= n <= MAX_INT32
    ensures Loose(FineStart<nat>(n, 0, 1))
  {
    StartCells(n);
    InitialSystem<nat>(n, 0, 1);
  }

  // ---------------------------------------------------------------- runs with a refused write

  ghost predicate Refusal(capacity: int, es: seq<FineEvent<nat>>, at: set<Stage>) {
    && Scheduled(FineStart(capacity, 0, 1), es, at) && FineExec(FineStart(capacity, 0, 1), es).refused != []
  }

  /** A write into a ring without room rotates and fails all the same. */
  lemma RefusedWithoutRoom(x: BufferItem, at: set<Stage>) returns (es: seq<FineEvent<nat>>)
    requires Queueable(x)
    ensures Refusal(0, es, at)
  {
    hide Leads, View;
    var start := FineStart<nat>(0, 0, 1);
    LeadsNowhere(start, at);
    StartCells(0);
    var t := Overflows(start, start, at, x, 2);
    t := LeadsOn(start, t, at, StepWriter(2));
    t := LeadsOn(start, t, at, StepWriter(2));
    es := Run(start, t, at);
  }

  /** The monitor retires the ring twice, each time between the load of the active buffer and the check. */
  lemma RefusedAtCheck(n: int, x: BufferItem, at: set<Stage>) returns (es: seq<FineEvent<nat>>)
    requires Queueable(x) && Checking in at && 1 <= n <= MAX_INT32
    ensures Refusal(n, es, at)
  {
    hide Leads, View;
    var start := FineStart<nat>(n, 0, 1);
    LeadsNowhere(start, at);
    StartCells(n);
    var t := LeadsOn(start, start, at, CallWrite(x));
    t := RetiredAtCheck(start, t, at, 2);
    t := LeadsOn(start, t, at, StepWriter(2));
    t := RetiredAtCheck(start, t, at, 3);
    es := Run(start, t, at);
  }

  /** The writer loads the active ring and finds it retired when it checks. */
  lemma RetiredAtCheck(start: Fine<nat>, f: Fine<nat>, at: set<Stage>, spare: nat) returns (t: Fine<nat>)
    requires Leads(start, f, at) && f.turn.Resting? && f.writer.LoadActive? && Checking in at && f.sys.active in f.cells
    requires f.sys.bufs == Views(f.cells) && spare !in f.cells && spare != f.sys.active && spare != f.sys.passive
    ensures Leads(start, t, at) && t.sys.active == f.sys.passive && t.sys.passive == spare
    ensures t.sys.bufs == Views(t.cells)
    ensures t.cells == f.cells[f.sys.active := f.cells[f.sys.active].(mode := READ_ONLY)]
                              [spare := NewCells(f.sys.capacity)]
    ensures t.writer == (if f.writer.again then Out else LookAgain(f.writer.item)) && t.sys.capacity == f.sys.capacity
    ensures t.refused == (if f.writer.again then f.refused + [f.writer.item] else f.refused) && t.turn.Resting?
  {
    hide Leads, Views;
    ViewsKeys(f.cells);
    t := LeadsOn(start, f, at, StepWriter(spare));
    t := MonitorRotates(start, t, at, spare);
    t := LeadsOn(start, t, at, StepWriter(spare));
  }

  /** With room for one item, the pooled ring in which a push has been completed too late comes back
      as the active one, full, and the second attempt of a later write finds it. */
  lemma RefusedByStranded(stage: Stage, x: BufferItem, at: set<Stage>) returns (es: seq<FineEvent<nat>>)
    requires Queueable(x) && stage != Outside && stage in at
    ensures Refusal(1, es, at)
  {
    hide Leads, Views, FineStart;
    var start := FineStart<nat>(1, 0, 1);
    var t := Strands(1, stage, x, at);
    t := LeadsOn(start, t, at, CallWrite(x));
    t := LeadsOn(start, t, at, StepWriter(0));
    t := Completes(start, t, at);
    t := Overflows(start, t, at, x, 0);
    t := LeadsOn(start, t, at, StepWriter(0));
    t := Completes(start, t, at);
    t := Overflows(start, t, at, x, 3);
    t := LeadsOn(start, t, at, StepWriter(0));
    t := LeadsOn(start, t, at, StepWriter(0));
    es := Run(start, t, at);
  }

  /** No run in which the writer is at the given stages while the monitor rotates refuses a write. */
  ghost predicate NeverRefuses(capacity: nat, at: set<Stage>) {
    forall es: seq<FineEvent<nat>> ::
      FinePossible(FineStart(capacity, 0, 1), es) && RotatesAt(FineStart(capacity, 0, 1), es, at)
      ==> FineExec(FineStart(capacity, 0, 1), es).refused == []
  }

  lemma NothingRefused(capacity: nat, at: set<Stage>, es: seq<FineEvent<nat>>)
    requires 1 <= capacity <= MAX_INT32 && Checking !in at && (capacity == 1 ==> at <= {Outside})
    requires FinePossible(FineStart(capacity, 0, 1), es) && RotatesAt(FineStart(capacity, 0, 1), es, at)
    ensures FineExec(FineStart(capacity, 0, 1), es).refused == []
  {
    if capacity == 1 {
      OutsideIsApart(FineStart(capacity, 0, 1), es, at);
      ApartWritesSucceed<nat>(capacity, 0, 1, es);
    } else {
      StartLoose(capacity);
      RunStaysLoose(FineStart(capacity, 0, 1), es, at);
    }
  }

  lemma RefusedSomewhere(capacity: nat, at: set<Stage>) returns (es: seq<FineEvent<nat>>)
    requires capacity <= MAX_INT32 && (capacity == 0 || Checking in at || (capacity == 1 && !(at <= {Outside})))
    ensures Refusal(capacity, es, at)
  {
    var x := BufferItem(1, 1);
    if capacity == 0 {
      es := RefusedWithoutRoom(x, at);
    } else if Checking in at {
      es := RefusedAtCheck(capacity, x, at);
    } else {
      var stage :| stage in at && stage != Outside;
      es := RefusedByStranded(stage, x, at);
    }
  }

  /** With one writer, no write is ever refused exactly when there is room at all, the writer is
      never between its load of the active buffer and its check while the monitor rotates, and, if
      there is room for one item only, never inside a push at all then. */
  lemma NothingRefusedIff(capacity: nat, at: set<Stage>)
    requires capacity <= MAX_INT32
    ensures NeverRefuses(capacity, at)
            <==> capacity >= 1 && Checking !in at && (capacity == 1 ==> at <= {Outside})
  {
    var start := FineStart<nat>(capacity, 0, 1);
    if capacity >= 1 && Checking !in at && (capacity == 1 ==> at <= {Outside}) {
      forall es: seq<FineEvent<nat>> | FinePossible(start, es) && RotatesAt(start, es, at)
        ensures FineExec(start, es).refused == []
      {
        NothingRefused(capacity, at, es);
      }
    } else {
      var es := RefusedSomewhere(capacity, at);
    }
  }

  /** So double buffers of every positive capacity take all writes exactly when the writer is never
      inside a push while the monitor rotates. */
  lemma AllCapacitiesIff(at: set<Stage>)
    ensures (forall capacity: nat :: 1 <= capacity <= MAX_INT32 ==> NeverRefuses(capacity, at)) <==> at <= {Outside}
  {
    NothingRefusedIff(1, at);
    forall capacity: nat | at <= {Outside} && 1 <= capacity <= MAX_INT32 ensures NeverRefuses(capacity, at) {
      NothingRefusedIff(capacity, at);
    }
  }
}
