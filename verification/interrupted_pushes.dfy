/** Runs of the double buffer in which the writer is inside a push while the monitor is inside its
    rotation, and exactly when such runs lose an item or deliver out of order. */
module InterruptedPushes {
  import opened Ring
  import opened Stream
  import opened StreamSafety
  import StreamOrder
  import opened FineStream

  /** The item has been accepted and neither delivered nor is it in any ring. */
  ghost predicate Lost<B>(f: Fine<B>, x: BufferItem) {
    x in f.hist.accepted && x !in f.hist.delivered && forall b :: b in f.cells ==> x !in f.cells[b].slots
  }

  /** While the monitor is inside its rotation, the writer is at one of the given stages. */
  ghost predicate AtStage<B>(f: Fine<B>, stages: set<Stage>) {
    f.turn.Resting? || StageOf(f.writer) in stages
  }

  ghost predicate RotatesAt<B>(f: Fine<B>, es: seq<FineEvent<B>>, stages: set<Stage>)
    requires FinePossible(f, es)
    decreases |es|
  {
    AtStage(f, stages) && (es == [] || RotatesAt(FineNext(f, es[0]), es[1..], stages))
  }

  lemma {:induction false} OutsideIsApart<B>(f: Fine<B>, es: seq<FineEvent<B>>, stages: set<Stage>)
    requires FinePossible(f, es) && RotatesAt(f, es, stages) && stages <= {Outside}
    ensures AllApart(f, es)
    decreases |es|
  {
    if es != [] {
      OutsideIsApart(FineNext(f, es[0]), es[1..], stages);
    }
  }

  lemma {:induction false} InSomeRing<B>(bufs: map<B, RingValue>, x: BufferItem)
    requires x in StreamOrder.Total(bufs)
    ensures exists b :: b in bufs && x in bufs[b].items
    decreases |bufs|
  {
    if |bufs| > 0 {
      var b := StreamOrder.AnyOf(bufs);
      if x !in bufs[b].items {
        InSomeRing(bufs - {b}, x);
        var c :| c in bufs - {b} && x in (bufs - {b})[c].items;
        assert c in bufs && x in bufs[c].items;
      }
    }
  }

  /** What conservation says of single items. */
  lemma ConservedNotLost<B>(f: Fine<B>, x: BufferItem)
    requires Good(f) && StreamOrder.Conserved(Abstract(f))
    ensures !Lost(f, x)
  {
    hide Inv;
    if x in f.hist.accepted && x !in f.hist.delivered {
      assert x in multiset(f.hist.accepted);
      InSomeRing(Abstract(f).sys.bufs, x);
      var b :| b in Abstract(f).sys.bufs && x in Abstract(f).sys.bufs[b].items;
      SameItems(f, b);
      InSlots(f.cells[b], x);
    }
  }

  lemma SameItems<B>(f: Fine<B>, b: B)
    requires Good(f) && b in Abstract(f).sys.bufs
    ensures b in f.cells && Abstract(f).sys.bufs[b].items == Items(f.cells[b])
  {
  }

  lemma InSlots(c: Cells, x: BufferItem)
    requires x in Items(c)
    ensures x in c.slots
  {
    var i :| 0 <= i < |Items(c)| && Items(c)[i] == x;
    assert c.slots[Slot(c.tail + 1 + i, |c.slots|)] == x;
  }

  // ---------------------------------------------------------------- runs put together step by step

  /** The step is allowed: it leads to one of the given stages, and numbers are drawn in spawn order. */
  ghost predicate May<B>(f: Fine<B>, e: FineEvent<B>, at: set<Stage>)
    requires FineEnabled(f, e)
  {
    && AtStage(FineNext(f, e), at)
    && (e.Elsewhere? && e.e.NumberEvent? ==> forall k :: k in f.sys.waiting ==> e.e.g <= k)
  }

  ghost predicate Scheduled<B>(f: Fine<B>, es: seq<FineEvent<B>>, at: set<Stage>) {
    FinePossible(f, es) && RotatesAt(f, es, at) && NumbersInSpawnOrder(f, es)
  }

  /** Some such run leads from `f` to `t`. */
  ghost predicate Leads<B(!new)>(f: Fine<B>, t: Fine<B>, at: set<Stage>) {
    exists es :: Scheduled(f, es, at) && FineExec(f, es) == t
  }

  lemma LeadsNowhere<B(!new)>(f: Fine<B>, at: set<Stage>)
    requires f.turn.Resting?
    ensures Leads(f, f, at)
  {
    assert Scheduled(f, [], at) && FineExec(f, []) == f;
  }

  lemma {:induction false} FineAppend<B>(f: Fine<B>, es: seq<FineEvent<B>>, at: set<Stage>, e: FineEvent<B>)
    requires Scheduled(f, es, at) && FineEnabled(FineExec(f, es), e) && May(FineExec(f, es), e, at)
    ensures Scheduled(f, es + [e], at) && FineExec(f, es + [e]) == FineNext(FineExec(f, es), e)
    decreases |es|
  {
    hide FineNext, FineEnabled;
    if es == [] {
      assert es + [e] == [e] && [e][1..] == [];
      assert Scheduled(FineNext(f, e), [], at) && FineExec(FineNext(f, e), []) == FineNext(f, e);
    } else {
      assert (es + [e])[1..] == es[1..] + [e];
      FineAppend(FineNext(f, es[0]), es[1..], at, e);
    }
  }

  lemma LeadsOn<B(!new)>(f: Fine<B>, t: Fine<B>, at: set<Stage>, e: FineEvent<B>) returns (t': Fine<B>)
    requires Leads(f, t, at) && FineEnabled(t, e) && May(t, e, at)
    ensures Leads(f, t', at) && t' == FineNext(t, e)
  {
    var es :| Scheduled(f, es, at) && FineExec(f, es) == t;
    FineAppend(f, es, at, e);
    t' := FineNext(t, e);
  }

  lemma Run<B(!new)>(f: Fine<B>, t: Fine<B>, at: set<Stage>) returns (es: seq<FineEvent<B>>)
    requires Leads(f, t, at)
    ensures FinePossible(f, es) && RotatesAt(f, es, at) && NumbersInSpawnOrder(f, es) && FineExec(f, es) == t
  {
    es :| Scheduled(f, es, at) && FineExec(f, es) == t;
  }

  // ---------------------------------------------------------------- what the writer does when left alone

  /** A writer passes the check of a ring with room and claims the next slot. */
  lemma Claims(start: Fine<nat>, f: Fine<nat>, at: set<Stage>, item: BufferItem) returns (t: Fine<nat>)
    requires Leads(start, f, at) && f.turn.Resting? && f.writer.Out? && Queueable(item) && f.sys.active in f.cells
    requires var c := f.cells[f.sys.active]; c.mode == WRITE_ONLY && c.count < f.sys.capacity
    ensures Leads(start, t, at)
    ensures var c := f.cells[f.sys.active];
            var cells := f.cells[f.sys.active := c.(head := Int32(c.head + 1))];
            t == f.(cells := cells, sys := f.sys.(bufs := Views(cells)),
                    writer := Store(item, f.sys.active, CalcPos(c.head, f.sys.capacity)))
  {
    hide Leads, Views, CalcPos;
    t := LeadsOn(start, f, at, CallWrite(item));
    t := LeadsOn(start, t, at, StepWriter(0));
    t := LeadsOn(start, t, at, StepWriter(0));
    t := LeadsOn(start, t, at, StepWriter(0));
  }

  /** The writer stores its item and counts it. */
  lemma Finishes(start: Fine<nat>, f: Fine<nat>, at: set<Stage>) returns (t: Fine<nat>)
    requires Leads(start, f, at) && f.turn.Resting? && f.writer.Store? && f.writer.b in f.cells
    ensures Leads(start, t, at)
    ensures var c := f.cells[f.writer.b];
            var stored := c.(slots := Put(c.slots, f.writer.pos, f.writer.item), count := Int32(c.count + 1));
            var cells := f.cells[f.writer.b := stored];
            t == f.(cells := cells, sys := f.sys.(bufs := Views(cells), count := f.sys.count + 1), writer := Out,
                    hist := f.hist.(accepted := f.hist.accepted + [f.writer.item]))
  {
    hide Leads, Views;
    t := LeadsOn(start, f, at, StepWriter(0));
    t := LeadsOn(start, t, at, StepWriter(0));
    Overwritten(f.cells, f.writer.b, t.cells[f.writer.b].(count := f.cells[f.writer.b].count), t.cells[f.writer.b]);
    t := LeadsOn(start, t, at, StepWriter(0));
  }

  lemma Overwritten<B>(cells: map<B, Cells>, b: B, c: Cells, c': Cells)
    ensures cells[b := c][b := c'] == cells[b := c']
  {
  }

  /** Steps left until the item has been added to the count. */
  function Left<B>(w: Writer<B>): nat {
    match w
    case Check(_, _, _) => 4
    case Claim(_, _) => 3
    case Store(_, _, _) => 2
    case Add(_, _) => 1
    case _ => 0
  }

  /** A push into a ring with room is completed, in whatever role the ring is. */
  lemma {:induction false} Completes(start: Fine<nat>, f: Fine<nat>, at: set<Stage>) returns (t: Fine<nat>)
    requires Leads(start, f, at) && f.turn.Resting? && StageOf(f.writer) != Outside && f.writer.b in f.cells
    requires var c := f.cells[f.writer.b]; c.mode == WRITE_ONLY && 0 <= c.count < f.sys.capacity <= MAX_INT32
    ensures Leads(start, t, at) && t.writer.Out? && t.hist == f.hist.(accepted := f.hist.accepted + [f.writer.item])
    ensures t.cells.Keys == f.cells.Keys && forall b :: b in f.cells && b != f.writer.b ==> t.cells[b] == f.cells[b]
    ensures var c, c' := f.cells[f.writer.b], t.cells[f.writer.b]; c'.count == c.count + 1 && c'.mode == WRITE_ONLY
    ensures t.sys == f.sys.(bufs := Views(t.cells), count := f.sys.count + 1) && t.refused == f.refused
    ensures t.turn == f.turn
    decreases Left(f.writer)
  {
    hide Leads, Views, CalcPos;
    t := LeadsOn(start, f, at, StepWriter(0));
    if Left(f.writer) > 1 {
      t := Completes(start, t, at);
    } else {
      t := LeadsOn(start, t, at, StepWriter(0));
    }
  }

  /** A write that finds the active ring full rotates, and is about to try again. */
  lemma Overflows(start: Fine<nat>, f: Fine<nat>, at: set<Stage>, item: BufferItem, spare: nat) returns (t: Fine<nat>)
    requires Leads(start, f, at) && f.turn.Resting? && f.writer.Out? && Queueable(item) && f.sys.active in f.cells
    requires var c := f.cells[f.sys.active]; c.mode == WRITE_ONLY && c.count >= f.sys.capacity
    requires spare in f.sys.pool * f.cells.Keys || spare !in f.cells
    requires f.sys.bufs == Views(f.cells) && spare != f.sys.passive && spare != f.sys.active
    ensures Leads(start, t, at) && t.writer == LoadActive(item, true) && t.refused == f.refused && t.turn.Resting?
    ensures t.cells == f.cells[f.sys.active := f.cells[f.sys.active].(mode := READ_ONLY)][spare := CellsAt(f, spare)]
    ensures t.sys == f.sys.(bufs := Views(t.cells), active := f.sys.passive, passive := spare,
                            pool := f.sys.pool - {spare}, count := 0,
                            waiting := f.sys.waiting[f.sys.spawned := f.sys.active], spawned := f.sys.spawned + 1)
    ensures t.hist.accepted == f.hist.accepted && t.hist.delivered == f.hist.delivered
  {
    hide Leads, View;
    t := Latches(start, f, at, item);
    var latched := f.cells[f.sys.active].(mode := READ_ONLY);
    Overwritten(f.cells, f.sys.active, latched, latched);
    t := LeadsOn(start, t, at, StepWriter(spare));
  }

  /** A write that finds the active ring full makes it read-only and goes on to rotate. */
  lemma Latches(start: Fine<nat>, f: Fine<nat>, at: set<Stage>, item: BufferItem) returns (t: Fine<nat>)
    requires Leads(start, f, at) && f.turn.Resting? && f.writer.Out? && Queueable(item) && f.sys.active in f.cells
    requires var c := f.cells[f.sys.active]; c.mode == WRITE_ONLY && c.count >= f.sys.capacity
    ensures Leads(start, t, at)
    ensures var cells := f.cells[f.sys.active := f.cells[f.sys.active].(mode := READ_ONLY)];
            t == f.(cells := cells, sys := f.sys.(bufs := Views(cells)), writer := Switch(item))
  {
    hide Leads, Views;
    t := LeadsOn(start, f, at, CallWrite(item));
    t := LeadsOn(start, t, at, StepWriter(0));
    t := LeadsOn(start, t, at, StepWriter(0));
    t := LeadsOn(start, t, at, StepWriter(0));
  }

  // ---------------------------------------------------------------- what the others do

  /** The goroutine of the only rotation under way draws its number and publishes the ring. */
  lemma Publishes(start: Fine<nat>, f: Fine<nat>, at: set<Stage>, g: nat, b: nat) returns (t: Fine<nat>)
    requires Leads(start, f, at) && f.turn.Resting? && f.sys.waiting == map[g := b]
    requires f.sys.numbered == f.sys.heap == map[]
    requires f.sys.bufs == Views(f.cells)
    ensures Leads(start, t, at) && t.writer == f.writer && t.cells == f.cells && t.refused == f.refused
    ensures t.turn.Resting?
    ensures t.sys == f.sys.(waiting := map[], sequence := f.sys.sequence + 1, heap := map[f.sys.sequence + 1 := b])
    ensures t.hist.accepted == f.hist.accepted && t.hist.delivered == f.hist.delivered
  {
    hide Leads, Views;
    t := LeadsOn(start, f, at, Elsewhere(NumberEvent(g)));
    assert t.sys.waiting == map[] && t.sys.numbered == map[f.sys.sequence + 1 := b];
    t := LeadsOn(start, t, at, Elsewhere(PublishEvent(f.sys.sequence + 1)));
  }

  /** The monitor rotates while the writer stays at its stage. */
  lemma MonitorRotates(start: Fine<nat>, f: Fine<nat>, at: set<Stage>, spare: nat) returns (t: Fine<nat>)
    requires Leads(start, f, at) && f.turn.Resting? && StageOf(f.writer) in at && NotHeld(f, spare)
    requires CanGet(f.sys, spare)
    requires f.sys.active in f.cells && f.sys.bufs == Views(f.cells) && spare != f.sys.passive && spare != f.sys.active
    ensures Leads(start, t, at) && t.writer == f.writer && t.refused == f.refused && t.turn.Resting?
    ensures t.cells == f.cells[f.sys.active := f.cells[f.sys.active].(mode := READ_ONLY)][spare := CellsAt(f, spare)]
    ensures t.sys == f.sys.(bufs := Views(t.cells), active := f.sys.passive, passive := spare,
                            pool := f.sys.pool - {spare}, count := 0,
                            waiting := f.sys.waiting[f.sys.spawned := f.sys.active], spawned := f.sys.spawned + 1)
    ensures t.hist.accepted == f.hist.accepted && t.hist.delivered == f.hist.delivered
  {
    hide Leads, View;
    var frozen := f.cells[f.sys.active].(mode := READ_ONLY);
    t := LeadsOn(start, f, at, StepMonitor(spare));
    t := LeadsOn(start, t, at, StepMonitor(spare));
    assert t.cells == f.cells[f.sys.active := frozen] && t.turn.Frozen?;
    Overwritten(f.cells, f.sys.active, frozen, frozen);
    t := LeadsOn(start, t, at, StepMonitor(spare));
    t := LeadsOn(start, t, at, StepMonitor(spare));
  }

  /** The monitor rotates and the old active ring is published. */
  lemma RetiresAndPublishes(start: Fine<nat>, f: Fine<nat>, at: set<Stage>, spare: nat) returns (t: Fine<nat>)
    requires Leads(start, f, at) && f.turn.Resting? && StageOf(f.writer) in at && NotHeld(f, spare)
    requires spare !in f.cells && f.sys.active in f.cells && f.sys.bufs == Views(f.cells) && f.sys.passive != spare
    requires f.sys.waiting == f.sys.numbered == f.sys.heap == map[]
    ensures Leads(start, t, at) && t.writer == f.writer && t.refused == f.refused && t.turn.Resting?
    ensures t.cells == f.cells[f.sys.active := f.cells[f.sys.active].(mode := READ_ONLY)]
                              [spare := NewCells(f.sys.capacity)]
    ensures t.sys == f.sys.(bufs := Views(t.cells), active := f.sys.passive, passive := spare,
                            pool := f.sys.pool - {spare}, count := 0,
                            spawned := f.sys.spawned + 1, sequence := f.sys.sequence + 1,
                            heap := map[f.sys.sequence + 1 := f.sys.active])
    ensures t.hist.accepted == f.hist.accepted && t.hist.delivered == f.hist.delivered
  {
    hide Leads, Views;
    assert spare !in f.sys.bufs by { ViewsKeys(f.cells); }
    t := MonitorRotates(start, f, at, spare);
    t := Publishes(start, t, at, f.sys.spawned, f.sys.active);
  }

  lemma ViewsKeys<B>(cells: map<B, Cells>)
    ensures Views(cells).Keys == cells.Keys
  {
  }

  /** The reader takes the published ring out of the heap and is about to look at its number. */
  lemma Picks(start: Fine<nat>, f: Fine<nat>, at: set<Stage>, b: nat) returns (t: Fine<nat>)
    requires Leads(start, f, at) && f.turn.Resting? && f.sys.reader.Idle? && f.sys.current.None?
    requires f.sys.heap == map[f.sys.currentSequence := b]
    requires f.sys.bufs == Views(f.cells)
    ensures Leads(start, t, at)
    ensures t == f.(sys := f.sys.(heap := map[], reader := Holding(0, f.sys.currentSequence, b)))
  {
    hide Leads, Views;
    t := LeadsOn(start, f, at, Elsewhere(BeginEvent));
    assert f.sys.currentSequence in t.sys.heap;
    t := LeadsOn(start, t, at, Elsewhere(PickEvent));
  }

  /** The reader adopts the published ring. */
  lemma Adopts(start: Fine<nat>, f: Fine<nat>, at: set<Stage>, b: nat) returns (t: Fine<nat>)
    requires Leads(start, f, at) && f.turn.Resting? && f.sys.reader.Idle? && f.sys.current.None?
    requires f.sys.heap == map[f.sys.currentSequence := b]
    requires f.sys.bufs == Views(f.cells)
    ensures Leads(start, t, at)
    ensures t == f.(sys := f.sys.(heap := map[], currentSequence := f.sys.currentSequence + 1,
                                  current := Some(b), reader := Ready))
  {
    hide Leads, Views;
    t := Picks(start, f, at, b);
    t := LeadsOn(start, t, at, Elsewhere(DecideEvent));
  }

  /** The reader finds the published ring empty and reports ErrRead. */
  lemma ReadsNothing(start: Fine<nat>, f: Fine<nat>, at: set<Stage>, b: nat) returns (t: Fine<nat>)
    requires Leads(start, f, at) && f.turn.Resting? && f.sys.reader.Idle? && f.sys.current.None?
    requires f.sys.heap == map[f.sys.currentSequence := b]
    requires b in f.cells && f.cells[b].count == 0 && f.sys.bufs == Views(f.cells)
    ensures Leads(start, t, at)
    ensures t == f.(sys := f.sys.(heap := map[], currentSequence := f.sys.currentSequence + 1, current := Some(b)))
  {
    hide Leads;
    t := Adopts(start, f, at, b);
    assert Items(f.cells[b]) == [] && Views(f.cells)[b := View(f.cells[b])] == Views(f.cells);
    t := LeadsOn(start, t, at, Elsewhere(TakeEvent));
  }

  /** The reader delivers the first item of the published ring. */
  lemma Delivers(start: Fine<nat>, f: Fine<nat>, at: set<Stage>, b: nat) returns (t: Fine<nat>)
    requires Leads(start, f, at) && f.turn.Resting? && f.sys.reader.Idle? && f.sys.current.None?
    requires f.sys.heap == map[f.sys.currentSequence := b]
    requires b in f.cells && f.sys.bufs == Views(f.cells) && Items(f.cells[b]) != [] && Queueable(Items(f.cells[b])[0])
    ensures Leads(start, t, at) && t.hist == f.hist.(delivered := f.hist.delivered + [Items(f.cells[b])[0]])
  {
    hide Leads, Items, CalcPos;
    t := Adopts(start, f, at, b);
    assert RingOf(t.sys, b).items == Items(f.cells[b]);
    t := LeadsOn(start, t, at, Elsewhere(TakeEvent));
  }

  /** The next read resets the exhausted ring and pools it. */
  lemma Resets(start: Fine<nat>, f: Fine<nat>, at: set<Stage>, b: nat) returns (t: Fine<nat>)
    requires Leads(start, f, at) && f.turn.Resting? && f.sys.reader.Idle? && f.sys.current == Some(b)
    requires f.sys.heap == map[]
    requires b in f.cells && f.cells[b].count == 0 && f.sys.bufs == Views(f.cells)
    ensures Leads(start, t, at)
    ensures var cells := f.cells[b := Emptied(f.cells[b])];
            t == f.(cells := cells, sys := f.sys.(bufs := Views(cells), pool := f.sys.pool + {b}, current := None))
  {
    hide Leads;
    t := LeadsOn(start, f, at, Elsewhere(BeginEvent));
    t := LeadsOn(start, t, at, Elsewhere(PickEvent));
  }

  // ---------------------------------------------------------------- a push that ends in a pooled ring

  ghost predicate FirstPush(f: Fine<nat>, n: int, x: BufferItem) {
    && f.turn.Resting? && f.sys == Initial(n, 0, 1).(bufs := Views(f.cells))
    && f.hist == Start(n, 0, 1).hist && f.refused == []
    && StageOf(f.writer) != Outside && f.writer.item == x && f.writer.b == 0
    && f.cells.Keys == {0, 1} && f.cells[1] == NewCells(n)
    && f.cells[0].count == 0 && f.cells[0].mode == WRITE_ONLY
  }

  /** A first push that has got to the given stage. */
  lemma GetsTo(n: int, stage: Stage, x: BufferItem, at: set<Stage>) returns (t: Fine<nat>)
    requires Queueable(x) && stage != Outside && n >= 1
    ensures Leads(FineStart(n, 0, 1), t, at) && StageOf(t.writer) == stage && FirstPush(t, n, x)
  {
    hide Leads, View, CalcPos;
    var start := FineStart<nat>(n, 0, 1);
    LeadsNowhere(start, at);
    StartCells(n);
    if stage == Storing || stage == Adding {
      t := Claims(start, start, at, x);
      if stage == Adding {
        t := LeadsOn(start, t, at, StepWriter(0));
      }
    } else {
      t := LeadsOn(start, start, at, CallWrite(x));
      t := LeadsOn(start, t, at, StepWriter(0));
      if stage == Claiming {
        t := LeadsOn(start, t, at, StepWriter(0));
      }
    }
  }

  lemma StartCells(n: int)
    requires n >= 0
    ensures FineStart<nat>(n, 0, 1).sys.bufs == Views(FineStart<nat>(n, 0, 1).cells)
  {
    NewView(n);
  }

  /** Rings 1 and 2 are active and passive, ring 0 is pooled, all empty except perhaps the last. */
  ghost predicate Pooled(f: Fine<nat>, n: int) {
    && f.sys == Initial(n, 1, 2).(bufs := Views(f.cells), pool := {0}, count := f.sys.count,
                                  sequence := 1, currentSequence := 2, spawned := 1)
    && f.cells.Keys == {0, 1, 2} && f.cells[1] == f.cells[2] == NewCells(n) && f.cells[0].mode == WRITE_ONLY
    && f.turn.Resting? && f.hist.delivered == [] && f.refused == []
  }

  /** The monitor rotates while the first push is under way; the ring is published, found empty,
      reset and pooled. */
  lemma PoolsFirst(start: Fine<nat>, f: Fine<nat>, at: set<Stage>, n: int, x: BufferItem) returns (t: Fine<nat>)
    requires Leads(start, f, at) && f.turn.Resting? && FirstPush(f, n, x) && StageOf(f.writer) in at
    ensures Leads(start, t, at) && Pooled(t, n) && t.writer == f.writer && t.hist.accepted == []
    ensures t.cells[0] == Emptied(f.cells[0])
  {
    hide Leads, View;
    t := RetiresAndPublishes(start, f, at, 2);
    t := ReadsNothing(start, t, at, 0);
    t := Resets(start, t, at, 0);
  }

  /** At whatever stage of a push the monitor rotates, the push can be completed in a pooled ring:
      Write has reported success, and the item is in a ring on which nobody waits. */
  lemma Strands(n: int, stage: Stage, x: BufferItem, at: set<Stage>) returns (t: Fine<nat>)
    requires Queueable(x) && stage != Outside && stage in at && 1 <= n <= MAX_INT32
    ensures Leads(FineStart(n, 0, 1), t, at) && Pooled(t, n) && t.writer.Out? && t.cells[0].count == 1
    ensures t.hist.accepted == [x]
  {
    hide Leads, Views, FineStart;
    var start := FineStart<nat>(n, 0, 1);
    t := GetsTo(n, stage, x, at);
    t := PoolsFirst(start, t, at, n, x);
    t := Completes(start, t, at);
  }

  // ---------------------------------------------------------------- exactly when nothing can be lost

  /** The pool drops the ring. */
  lemma LosesAt(n: int, stage: Stage, x: BufferItem, at: set<Stage>) returns (es: seq<FineEvent<nat>>)
    requires Queueable(x) && stage != Outside && stage in at && 1 <= n <= MAX_INT32
    ensures FinePossible(FineStart(n, 0, 1), es) && RotatesAt(FineStart(n, 0, 1), es, at)
    ensures Lost(FineExec(FineStart(n, 0, 1), es), x)
  {
    hide Leads, Views, FineStart;
    var start := FineStart<nat>(n, 0, 1);
    var t := Strands(n, stage, x, at);
    t := LeadsOn(start, t, at, Elsewhere(CollectEvent(0)));
    es := Run(start, t, at);
  }

  /** In a double buffer without room nothing is ever accepted. */
  ghost predicate Barren<B>(f: Fine<B>) {
    && f.sys.capacity == 0 && f.hist.accepted == f.hist.delivered == [] && f.sys.bufs == Views(f.cells)
    && (forall b :: b in f.cells ==> f.cells[b].count == 0)
    && !f.writer.Claim? && !f.writer.Store? && !f.writer.Add?
  }

  lemma BarrenOthers<B>(f: Fine<B>, e: Event<B>)
    requires Barren(f) && Enabled(f.sys, e) && !e.WriteEvent?
    ensures Barren(Others(f, e))
  {
    if e.TakeEvent? {
      assert RingOf(f.sys, f.sys.current.value).items == [];
    }
    assert Apply(f.sys, e).capacity == f.sys.capacity;
  }

  lemma BarrenWriter<B>(f: Fine<B>, spare: B)
    requires Barren(f) && FineEnabled(f, StepWriter(spare)) && !(f.writer.Switch? && f.turn.Resting?)
    ensures Barren(WriterStep(f, spare))
  {
    hide Views, CalcPos, Others;
  }

  lemma BarrenMonitor<B>(f: Fine<B>, spare: B)
    requires Barren(f) && !f.turn.Frozen?
    ensures Barren(MonitorStep(f, spare))
  {
    hide Views, Others;
  }

  lemma BarrenStep<B>(f: Fine<B>, e: FineEvent<B>)
    requires Barren(f) && FineEnabled(f, e)
    ensures Barren(FineNext(f, e))
  {
    match e
    case CallWrite(_) =>
    case StepWriter(spare) =>
      if f.writer.Switch? && f.turn.Resting? {
        BarrenOthers(f, SwitchEvent(spare));
      } else {
        BarrenWriter(f, spare);
      }
    case StepMonitor(spare) =>
      if f.turn.Frozen? {
        BarrenOthers(f, SwitchEvent(spare));
      } else {
        BarrenMonitor(f, spare);
      }
    case Elsewhere(other) => BarrenOthers(f, other);
  }

  lemma {:induction false} BarrenRun<B>(f: Fine<B>, es: seq<FineEvent<B>>)
    requires Barren(f) && FinePossible(f, es)
    ensures Barren(FineExec(f, es))
    decreases |es|
  {
    if es != [] {
      hide Barren, FineNext;
      BarrenStep(f, es[0]);
      BarrenRun(FineNext(f, es[0]), es[1..]);
    }
  }

  /** With one writer, no run in which the writer is at the given stages while the monitor rotates
      loses an accepted item exactly when none of the stages is inside a push (or nothing is ever
      accepted, for lack of room). */
  lemma NothingLostIff(capacity: nat, at: set<Stage>)
    requires capacity <= MAX_INT32
    ensures (forall es: seq<FineEvent<nat>>, x: BufferItem ::
               FinePossible(FineStart(capacity, 0, 1), es) && RotatesAt(FineStart(capacity, 0, 1), es, at)
               ==> !Lost(FineExec(FineStart(capacity, 0, 1), es), x))
            <==> capacity == 0 || at <= {Outside}
  {
    var start := FineStart<nat>(capacity, 0, 1);
    if capacity == 0 {
      StartCells(0);
      forall es: seq<FineEvent<nat>>, x: BufferItem | FinePossible(start, es) && RotatesAt(start, es, at)
        ensures !Lost(FineExec(start, es), x)
      {
        BarrenRun(start, es);
      }
    } else if at <= {Outside} {
      forall es: seq<FineEvent<nat>>, x: BufferItem | FinePossible(start, es) && RotatesAt(start, es, at)
        ensures !Lost(FineExec(start, es), x)
      {
        OutsideIsApart(start, es, at);
        StartGood<nat>(capacity, 0, 1);
        RunKeepsGood(start, es);
        ConservedNotLost(FineExec(start, es), x);
      }
    } else {
      var stage :| stage in at && stage != Outside;
      var es := LosesAt(capacity, stage, BufferItem(1, 1), at);
    }
  }

  /** A rotation between the claim of a slot and the store also loses the item by overwriting it:
      when the ring in which it was stored too late is in use again, the next push claims that slot. */
  lemma LosingRun(x: BufferItem, y: BufferItem) returns (es: seq<FineEvent<nat>>)
    requires Queueable(x) && Queueable(y) && x != y
    ensures FinePossible(FineStart(2, 0, 1), es) && FineExec(FineStart(2, 0, 1), es).writer.Out?
    ensures Lost(FineExec(FineStart(2, 0, 1), es), x)
  {
    hide Leads, View, FineStart;
    var start, at := FineStart<nat>(2, 0, 1), {Storing, Outside};
    var t := StoresTooLate(x, at);
    t := BackInUse(start, t, at);
    t := Claims(start, t, at, y);
    t := Finishes(start, t, at);
    es := Run(start, t, at);
  }

  lemma StoresTooLate(x: BufferItem, at: set<Stage>) returns (t: Fine<nat>)
    requires Queueable(x) && Storing in at
    ensures Leads(FineStart(2, 0, 1), t, at) && Pooled(t, 2) && t.writer.Out? && t.hist.accepted == [x]
    ensures t.cells[0] == Cells([NIL_ITEM, x], -1, -1, 1, WRITE_ONLY)
  {
    hide Leads, View;
    var start := FineStart<nat>(2, 0, 1);
    LeadsNowhere(start, at);
    StartCells(2);
    t := Claims(start, start, at, x);
    t := PoolsFirst(start, t, at, 2, x);
    t := Finishes(start, t, at);
  }

  /** An item that has been stored but not counted when its ring is reset stays in its slot, and the
      late addition counts it. */
  lemma CountsTooLate(x: BufferItem, at: set<Stage>) returns (t: Fine<nat>)
    requires Queueable(x) && Adding in at
    ensures Leads(FineStart(1, 0, 1), t, at) && Pooled(t, 1) && t.writer.Out? && t.hist.accepted == [x]
    ensures t.cells[0].slots == [x] && t.cells[0].count == 1 && t.cells[0].head == t.cells[0].tail == -1
  {
    hide Leads, View;
    var start := FineStart<nat>(1, 0, 1);
    LeadsNowhere(start, at);
    StartCells(1);
    t := Claims(start, start, at, x);
    t := LeadsOn(start, t, at, StepWriter(0));
    t := PoolsFirst(start, t, at, 1, x);
    t := LeadsOn(start, t, at, StepWriter(0));
    t := LeadsOn(start, t, at, StepWriter(0));
  }

  /** Two rotations later the pooled ring is the active one. */
  lemma BackInUse(start: Fine<nat>, f: Fine<nat>, at: set<Stage>) returns (t: Fine<nat>)
    requires Leads(start, f, at) && f.turn.Resting? && f.writer.Out? && Outside in at && Pooled(f, 2)
    ensures Leads(start, t, at) && t.writer.Out? && t.sys.capacity == 2 && t.sys.active == 0 && t.turn.Resting?
    ensures t.cells.Keys == {0, 1, 2, 3} && t.cells[0] == f.cells[0]
    ensures t.cells[1].slots == t.cells[2].slots == t.cells[3].slots == NewCells(2).slots
    ensures t.hist.accepted == f.hist.accepted && t.hist.delivered == f.hist.delivered
  {
    hide Leads, View;
    t := MonitorRotates(start, f, at, 0);
    t := MonitorRotates(start, t, at, 3);
  }

  // ---------------------------------------------------------------- exactly when the order is kept

  /** A ring that is being filled with `y`. */
  ghost predicate Filling(c: Cells, capacity: int, y: BufferItem) {
    && c.mode == WRITE_ONLY && |c.slots| == capacity && 1 <= capacity <= MAX_INT32 && 0 <= c.count <= capacity
    && c.tail == -1 && c.head == c.count - 1 && (c.count >= 1 ==> c.slots[Slot(0, capacity)] == y)
  }

  lemma FillingOn(c: Cells, capacity: int, y: BufferItem)
    requires Filling(c, capacity, y) && c.count < capacity
    ensures Filling(c.(head := Int32(c.head + 1), slots := Put(c.slots, CalcPos(c.head, capacity), y),
                       count := Int32(c.count + 1)), capacity, y)
  {
    hide CalcPos;
  }

  lemma FilledFirst(c: Cells, capacity: int, y: BufferItem)
    requires Filling(c, capacity, y) && c.count >= 1
    ensures var items := Items(c.(mode := READ_ONLY)); items != [] && items[0] == y
  {
    hide CalcPos;
    ItemsAt(c.(mode := READ_ONLY));
  }

  /** Writing `y` as often as it takes to fill the active ring. */
  lemma {:induction false} FillsUp(start: Fine<nat>, f: Fine<nat>, at: set<Stage>, y: BufferItem) returns (t: Fine<nat>)
    requires Leads(start, f, at) && f.turn.Resting? && f.writer.Out? && Queueable(y) && f.sys.active in f.cells
    requires f.sys.bufs == Views(f.cells)
    requires Filling(f.cells[f.sys.active], f.sys.capacity, y)
    ensures Leads(start, t, at) && t.writer.Out? && t.refused == f.refused && t.hist.delivered == f.hist.delivered
    ensures t.turn.Resting?
    ensures t.cells.Keys == f.cells.Keys && forall b :: b in f.cells && b != f.sys.active ==> t.cells[b] == f.cells[b]
    ensures t.sys == f.sys.(bufs := Views(t.cells), count := t.sys.count) && f.hist.accepted <= t.hist.accepted
    ensures var c := t.cells[f.sys.active]; Filling(c, f.sys.capacity, y) && c.count == f.sys.capacity
    decreases f.sys.capacity - f.cells[f.sys.active].count
  {
    hide Leads, Views, CalcPos;
    t := f;
    if f.cells[f.sys.active].count < f.sys.capacity {
      FillingOn(f.cells[f.sys.active], f.sys.capacity, y);
      t := Claims(start, f, at, y);
      t := Finishes(start, t, at);
      t := FillsUp(start, t, at, y);
    }
  }

  /** The first item ends in a pooled ring, and one that is written later is delivered. */
  lemma OvertakesAt(n: int, stage: Stage, x: BufferItem, y: BufferItem, at: set<Stage>)
    returns (es: seq<FineEvent<nat>>)
    requires Queueable(x) && Queueable(y) && x != y && stage != Outside && stage in at && 1 <= n <= MAX_INT32
    ensures Scheduled(FineStart(n, 0, 1), es, at)
    ensures var h := FineExec(FineStart(n, 0, 1), es).hist; h.delivered == [y] && [x] <= h.accepted
  {
    hide Leads, Views, FineStart, Filling;
    var start := FineStart<nat>(n, 0, 1);
    var t := Strands(n, stage, x, at);
    NewFilling(n, y);
    t := FillsUp(start, t, at, y);
    var c := t.cells[1];
    FilledFirst(c, n, y);
    assert c.mode == WRITE_ONLY by { FillingMode(c, n, y); }
    t := Overflows(start, t, at, y, 3);
    t := Publishes(start, t, at, 1, 1);
    t := Delivers(start, t, at, 1);
    es := Run(start, t, at);
  }

  lemma NewFilling(n: int, y: BufferItem)
    requires 1 <= n <= MAX_INT32
    ensures Filling(NewCells(n), n, y)
  {
  }

  lemma FillingMode(c: Cells, n: int, y: BufferItem)
    requires Filling(c, n, y)
    ensures c.mode == WRITE_ONLY
  {
  }

  /** With one writer and numbers drawn in spawn order, the deliveries are a prefix of the accepted
      writes in every run in which the writer is at the given stages while the monitor rotates
      exactly when none of the stages is inside a push (or nothing is ever accepted). */
  lemma OrderKeptIff(capacity: nat, at: set<Stage>)
    requires capacity <= MAX_INT32
    ensures (forall es: seq<FineEvent<nat>> :: Scheduled(FineStart(capacity, 0, 1), es, at) ==>
               var h := FineExec(FineStart(capacity, 0, 1), es).hist; h.delivered <= h.accepted)
            <==> capacity == 0 || at <= {Outside}
  {
    var start := FineStart<nat>(capacity, 0, 1);
    if capacity == 0 {
      StartCells(0);
      forall es: seq<FineEvent<nat>> | Scheduled(start, es, at)
        ensures var h := FineExec(start, es).hist; h.delivered <= h.accepted
      {
        BarrenRun(start, es);
      }
    } else if at <= {Outside} {
      forall es: seq<FineEvent<nat>> | Scheduled(start, es, at)
        ensures var h := FineExec(start, es).hist; h.delivered <= h.accepted
      {
        OutsideIsApart(start, es, at);
        ApartRunsAreFifo<nat>(capacity, 0, 1, es);
      }
    } else {
      var stage :| stage in at && stage != Outside;
      var es := OvertakesAt(capacity, stage, BufferItem(1, 1), BufferItem(2, 1), at);
      var h := FineExec(start, es).hist;
      assert h.delivered[0] != h.accepted[0];
    }
  }
}
