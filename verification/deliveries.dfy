/** In every run of one writer, also when pushes and rotations overlap, items may be lost or come out
    of order, but none is delivered twice and none that was not written. */
module Deliveries {
  import opened Ring
  import opened Stream
  import StreamOrder
  import opened FineStream

  // ---------------------------------------------------------------- what lies in the slots

  /** The slots of a ring as contents to be added up. */
  ghost function Slots(c: Cells): RingValue {
    RingValue(c.slots, 0, 0, 0)
  }

  ghost function AllSlots<B>(cells: map<B, Cells>): map<B, RingValue> {
    map b | b in cells :: Slots(cells[b])
  }

  /** The items that lie in slots, counted or not. */
  ghost function Lying<B>(cells: map<B, Cells>): multiset<BufferItem> {
    StreamOrder.Total(AllSlots(cells))[NIL_ITEM := 0]
  }

  lemma LyingReplace<B>(cells: map<B, Cells>, b: B, c: Cells)
    requires b in cells
    ensures var rest := StreamOrder.Total(AllSlots(cells) - {b});
            && Lying(cells[b := c]) == (multiset(c.slots) + rest)[NIL_ITEM := 0]
            && Lying(cells) == (multiset(cells[b].slots) + rest)[NIL_ITEM := 0]
  {
    assert AllSlots(cells[b := c]) == AllSlots(cells)[b := Slots(c)];
    StreamOrder.TotalReplace(AllSlots(cells), b, Slots(c));
  }

  lemma SameSlots<B>(cells: map<B, Cells>, b: B, c: Cells)
    requires b in cells && c.slots == cells[b].slots
    ensures Lying(cells[b := c]) == Lying(cells)
  {
    LyingReplace(cells, b, c);
  }

  lemma EmptySlots<B>(cells: map<B, Cells>, b: B, c: Cells)
    requires b !in cells && forall i :: 0 <= i < |c.slots| ==> c.slots[i] == NIL_ITEM
    ensures Lying(cells[b := c]) == Lying(cells)
  {
    hide StreamOrder.Total, Slots;
    NewSlots(cells, b, c);
    NilsOnly(c.slots, StreamOrder.Total(AllSlots(cells)));
  }

  lemma NewSlots<B>(cells: map<B, Cells>, b: B, c: Cells)
    requires b !in cells
    ensures Lying(cells[b := c]) == (multiset(c.slots) + StreamOrder.Total(AllSlots(cells)))[NIL_ITEM := 0]
  {
    assert AllSlots(cells[b := c]) == AllSlots(cells)[b := Slots(c)];
    assert AllSlots(cells) - {b} == AllSlots(cells);
    StreamOrder.TotalReplace(AllSlots(cells), b, Slots(c));
  }

  lemma NilsOnly(slots: seq<BufferItem>, rest: multiset<BufferItem>)
    requires forall i :: 0 <= i < |slots| ==> slots[i] == NIL_ITEM
    ensures (multiset(slots) + rest)[NIL_ITEM := 0] == rest[NIL_ITEM := 0]
  {
    forall x | x != NIL_ITEM ensures multiset(slots)[x] == 0 {
      assert x !in slots;
    }
  }

  /** One slot changes. */
  lemma SlotReplaced(slots: seq<BufferItem>, pos: int, item: BufferItem)
    requires 0 <= pos < |slots|
    ensures multiset(slots[pos := item]) + multiset{slots[pos]} == multiset(slots) + multiset{item}
  {
    assert slots == slots[..pos] + [slots[pos]] + slots[pos + 1..];
    assert slots[pos := item] == slots[..pos] + [item] + slots[pos + 1..];
  }

  lemma StoreAdds<B>(cells: map<B, Cells>, b: B, pos: int, item: BufferItem)
    requires b in cells
    ensures Lying(cells[b := cells[b].(slots := Put(cells[b].slots, pos, item))]) <= Lying(cells) + multiset{item}
  {
    LyingReplace(cells, b, cells[b].(slots := Put(cells[b].slots, pos, item)));
    if 0 <= pos < |cells[b].slots| {
      SlotReplaced(cells[b].slots, pos, item);
    }
  }

  lemma ClearTakes<B>(cells: map<B, Cells>, b: B, c: Cells, pos: int)
    requires b in cells && 0 <= pos < |cells[b].slots| && c.slots == cells[b].slots[pos := NIL_ITEM]
    ensures var item := cells[b].slots[pos];
            Lying(cells[b := c]) + (if item == NIL_ITEM then multiset{} else multiset{item}) == Lying(cells)
  {
    LyingReplace(cells, b, c);
    SlotReplaced(cells[b].slots, pos, NIL_ITEM);
  }

  lemma DroppedLying<B>(cells: map<B, Cells>, b: B)
    requires b in cells
    ensures Lying(cells - {b}) <= Lying(cells)
  {
    LyingReplace(cells, b, cells[b]);
    assert AllSlots(cells - {b}) == AllSlots(cells) - {b};
  }

  // ---------------------------------------------------------------- every step

  /** The item of a call that is in no slot yet. */
  ghost function Carried<B>(w: Writer<B>): multiset<BufferItem> {
    if w.Out? || w.Add? || w.CountUp? then multiset{} else multiset{w.item}
  }

  ghost function Around<B>(f: Fine<B>): multiset<BufferItem> {
    multiset(f.hist.delivered) + Lying(f.cells) + Carried(f.writer)
  }

  ghost predicate Shaped<B>(f: Fine<B>) {
    && f.sys.bufs == Views(f.cells) && 0 <= f.sys.capacity
    && forall b :: b in f.cells ==> |f.cells[b].slots| == f.sys.capacity && Int32(f.cells[b].tail) == f.cells[b].tail
  }

  /** What the pop of a ring delivers comes out of the slot that it clears. */
  lemma PopTakes<B>(f: Fine<B>, b: B)
    requires Shaped(f) && b in f.cells && Items(f.cells[b]) != []
    ensures var c, pos := f.cells[b], CalcPos(f.cells[b].tail, f.sys.capacity);
            && 0 <= pos < |c.slots| && Items(c)[0] == c.slots[pos]
            && Popped(c, f.sys.capacity).slots == c.slots[pos := NIL_ITEM]
  {
    var c := f.cells[b];
    CalcPosIsEuclidean(c.tail, f.sys.capacity);
    assert Items(c)[0] == c.slots[Slot(c.tail + 1, |c.slots|)];
  }

  lemma TakeShaped<B>(f: Fine<B>)
    requires Shaped(f) && Enabled(f.sys, TakeEvent)
    ensures Shaped(Others(f, TakeEvent))
  {
    var b := f.sys.current.value;
    hide CalcPos, Int32, Slot, Unread;
    if b in f.cells && Items(f.cells[b]) != [] {
      PopTakes(f, b);
      assert RingOf(f.sys, b).items == Items(f.cells[b]);
      Int32Twice(f.cells[b].tail + 1);
    } else {
      assert RingOf(f.sys, b).items == [];
    }
  }

  lemma TakeAround<B>(f: Fine<B>)
    requires Shaped(f) && Enabled(f.sys, TakeEvent)
    ensures Shaped(Others(f, TakeEvent)) && Around(Others(f, TakeEvent)) <= Around(f)
  {
    TakeShaped(f);
    var b, t := f.sys.current.value, Others(f, TakeEvent);
    hide CalcPos, Lying, Int32, Slot, Unread;
    if b in f.cells && Items(f.cells[b]) != [] {
      PopTakes(f, b);
      var pos := CalcPos(f.cells[b].tail, f.sys.capacity);
      ClearTakes(f.cells, b, t.cells[b], pos);
      assert RingOf(f.sys, b).items == Items(f.cells[b]);
      var item := f.cells[b].slots[pos];
      assert t.hist.delivered == if item == NIL_ITEM then f.hist.delivered else f.hist.delivered + [item];
    } else {
      assert RingOf(f.sys, b).items == [];
      assert t.cells == f.cells && t.hist.delivered == f.hist.delivered;
    }
  }

  lemma Int32Twice(x: int)
    ensures Int32(Int32(x)) == Int32(x)
  {
  }

  lemma CollectAround<B>(f: Fine<B>, b: B)
    requires Shaped(f) && Enabled(f.sys, CollectEvent(b))
    ensures Shaped(Others(f, CollectEvent(b))) && Around(Others(f, CollectEvent(b))) <= Around(f)
  {
    hide Lying, Int32;
    if b in f.cells {
      DroppedLying(f.cells, b);
    } else {
      assert f.cells - {b} == f.cells;
    }
  }

  lemma RinglessAround<B>(f: Fine<B>, e: Event<B>)
    requires Shaped(f) && Enabled(f.sys, e) && (e.NumberEvent? || e.PublishEvent? || e.PickEvent? || e.DecideEvent?)
    ensures Shaped(Others(f, e)) && Around(Others(f, e)) == Around(f)
  {
    SameActive(f.sys, e);
    hide Lying, Int32, Apply;
  }

  lemma OthersAround<B>(f: Fine<B>, e: Event<B>)
    requires Shaped(f) && Enabled(f.sys, e) && !e.WriteEvent?
    ensures Shaped(Others(f, e)) && Around(Others(f, e)) <= Around(f)
  {
    hide Shaped, Around, Others;
    match e
    case TakeEvent => TakeAround(f);
    case SwitchEvent(spare) => SwitchAround(f, spare);
    case BeginEvent => BeginAround(f);
    case CollectEvent(b) => CollectAround(f, b);
    case _ => RinglessAround(f, e);
  }

  lemma BeginAround<B>(f: Fine<B>)
    requires Shaped(f) && f.sys.reader.Idle?
    ensures Shaped(Others(f, BeginEvent)) && Around(Others(f, BeginEvent)) <= Around(f)
  {
    hide Lying, CalcPos;
    if f.sys.current.Some? && Begin(f.sys).current.None? {
      var b := f.sys.current.value;
      if b in f.cells {
        SameSlots(f.cells, b, Emptied(f.cells[b]));
      } else {
        EmptySlots(f.cells, b, Emptied(NewCells(f.sys.capacity)));
      }
    }
  }

  lemma SwitchLying<B>(f: Fine<B>, spare: B)
    ensures Lying(CellsAfter(f, SwitchEvent(spare))) == Lying(f.cells)
  {
    hide Lying;
    var a := f.sys.active;
    var c := CellsAt(f, a).(mode := READ_ONLY);
    if a in f.cells {
      SameSlots(f.cells, a, c);
    } else {
      EmptySlots(f.cells, a, c);
    }
    var cells := f.cells[a := c];
    if spare in cells {
      SameSlots(cells, spare, CellsAt(f, spare));
    } else {
      EmptySlots(cells, spare, CellsAt(f, spare));
    }
  }

  lemma SwitchAround<B>(f: Fine<B>, spare: B)
    requires Shaped(f) && CanGet(f.sys, spare)
    ensures Shaped(Others(f, SwitchEvent(spare))) && Around(Others(f, SwitchEvent(spare))) <= Around(f)
  {
    SwitchLying(f, spare);
    hide Lying, View;
  }

  /** The writer or the monitor works on a ring without touching its slots. */
  lemma WorkAround<B>(f: Fine<B>, b: B, c: Cells, w: Writer<B>)
    requires Shaped(f) && (b in f.cells ==> c.slots == f.cells[b].slots && c.tail == f.cells[b].tail)
    ensures var t := Worked(f, b, c, w); Shaped(t) && Lying(t.cells) == Lying(f.cells)
  {
    hide Lying, Int32;
    if b in f.cells {
      SameSlots(f.cells, b, c);
    }
  }

  lemma StoreAround<B>(f: Fine<B>, spare: B)
    requires Shaped(f) && f.writer.Store?
    ensures Shaped(WriterStep(f, spare)) && Around(WriterStep(f, spare)) <= Around(f)
  {
    hide Lying, CalcPos, Int32;
    if f.writer.b in f.cells {
      StoreAdds(f.cells, f.writer.b, f.writer.pos, f.writer.item);
    }
  }

  /** Nothing new is carried, delivered or put into slots. */
  lemma NothingNew<B>(f: Fine<B>, t: Fine<B>)
    requires t.hist.delivered == f.hist.delivered && Lying(t.cells) == Lying(f.cells)
    requires Carried(t.writer) <= Carried(f.writer)
    ensures Around(t) <= Around(f)
  {
  }

  lemma CheckAround<B>(f: Fine<B>, spare: B)
    requires Shaped(f) && f.writer.Check?
    ensures Shaped(WriterStep(f, spare)) && Around(WriterStep(f, spare)) <= Around(f)
  {
    hide Lying, Int32, Views, Around;
    var b, c, t := f.writer.b, CellsAt(f, f.writer.b), WriterStep(f, spare);
    if c.mode == CLOSED_STATE || c.mode == READ_ONLY {
      assert t == Refused(f);
    } else if c.count >= f.sys.capacity {
      WorkAround(Refused(f), b, c.(mode := if c.mode == WRITE_ONLY then READ_ONLY else c.mode), Refused(f).writer);
    }
    NothingNew(f, t);
  }

  lemma ClaimAround<B>(f: Fine<B>, spare: B)
    requires Shaped(f) && f.writer.Claim?
    ensures Shaped(WriterStep(f, spare)) && Around(WriterStep(f, spare)) <= Around(f)
  {
    hide CalcPos, Lying, Int32, Views, Around;
    var b, c, t := f.writer.b, CellsAt(f, f.writer.b), WriterStep(f, spare);
    WorkAround(f, b, c.(head := Int32(c.head + 1)), t.writer);
    NothingNew(f, t);
  }

  lemma AddAround<B>(f: Fine<B>, spare: B)
    requires Shaped(f) && f.writer.Add?
    ensures Shaped(WriterStep(f, spare)) && Around(WriterStep(f, spare)) <= Around(f)
  {
    hide Lying, Int32, Views, Around;
    var b, c, t := f.writer.b, CellsAt(f, f.writer.b), WriterStep(f, spare);
    WorkAround(f, b, c.(count := Int32(c.count + 1)), CountUp);
    NothingNew(f, t);
  }

  lemma OwnSwitchAround<B>(f: Fine<B>, spare: B)
    requires Shaped(f) && FineEnabled(f, StepWriter(spare)) && f.writer.Switch?
    ensures Shaped(WriterStep(f, spare)) && Around(WriterStep(f, spare)) <= Around(f)
  {
    hide Lying, Int32, Views, CellsAfter, Around;
    if f.turn.Resting? {
      OthersAround(f, SwitchEvent(spare));
      NothingNew(Others(f, SwitchEvent(spare)), WriterStep(f, spare));
    } else {
      NothingNew(f, WriterStep(f, spare));
    }
  }

  lemma WriterAround<B>(f: Fine<B>, spare: B)
    requires Shaped(f) && FineEnabled(f, StepWriter(spare))
    ensures Shaped(WriterStep(f, spare)) && Around(WriterStep(f, spare)) <= Around(f)
  {
    hide Shaped, Around, WriterStep;
    match f.writer
    case Check(_, _, _) => CheckAround(f, spare);
    case Claim(_, _) => ClaimAround(f, spare);
    case Store(_, _, _) => StoreAround(f, spare);
    case Add(_, _) => AddAround(f, spare);
    case Switch(_) => OwnSwitchAround(f, spare);
    case _ => RestAround(f, spare);
  }

  lemma RestAround<B>(f: Fine<B>, spare: B)
    requires Shaped(f) && (f.writer.LoadActive? || f.writer.CountUp? || f.writer.LookAgain?)
    ensures Shaped(WriterStep(f, spare)) && Around(WriterStep(f, spare)) <= Around(f)
  {
    hide Lying, Int32, Views, Around, View, CellsAt;
    NothingNew(f, WriterStep(f, spare));
  }

  lemma MonitorAround<B>(f: Fine<B>, spare: B)
    requires Shaped(f) && FineEnabled(f, StepMonitor(spare))
    ensures Shaped(MonitorStep(f, spare)) && Around(MonitorStep(f, spare)) <= Around(f)
  {
    hide Lying, CalcPos, Int32;
    match f.turn
    case Frozen(_) => OthersAround(f, SwitchEvent(spare));
    case Begun =>
      if f.sys.active in f.cells {
        SameSlots(f.cells, f.sys.active, MonitorStep(f, spare).cells[f.sys.active]);
      }
    case _ =>
  }

  lemma StepAround<B>(f: Fine<B>, e: FineEvent<B>)
    requires Shaped(f) && FineEnabled(f, e)
    ensures Shaped(FineNext(f, e))
    ensures Around(FineNext(f, e)) <= Around(f) + if e.CallWrite? then multiset{e.item} else multiset{}
  {
    match e
    case CallWrite(_) =>
    case StepWriter(spare) =>
      hide Shaped, Around;
      WriterAround(f, spare);
    case StepMonitor(spare) =>
      hide Shaped, Around;
      MonitorAround(f, spare);
    case Elsewhere(other) =>
      hide Shaped, Around;
      OthersAround(f, other);
  }

  // ---------------------------------------------------------------- every run

  lemma {:induction false} RunAround<B>(f: Fine<B>, es: seq<FineEvent<B>>)
    requires Shaped(f) && FinePossible(f, es)
    ensures Around(FineExec(f, es)) <= Around(f) + multiset(Called(es))
    decreases |es|
  {
    if es != [] {
      hide Shaped, Around, FineNext;
      StepAround(f, es[0]);
      RunAround(FineNext(f, es[0]), es[1..]);
      var called := if es[0].CallWrite? then [es[0].item] else [];
      assert Called(es) == called + Called(es[1..]);
    }
  }

  /** Each delivery is of a written item, and each written item is delivered at most once: in every
      run of one writer, one reader and one monitor. */
  lemma DeliveredAtMostOnce<B>(capacity: nat, active: B, passive: B, es: seq<FineEvent<B>>)
    requires capacity <= MAX_INT32 && active != passive && FinePossible(FineStart(capacity, active, passive), es)
    ensures multiset(FineExec(FineStart(capacity, active, passive), es).hist.delivered) <= multiset(Called(es))
  {
    hide Shaped, FineStart, Around;
    StartShaped(capacity, active, passive);
    RunAround(FineStart(capacity, active, passive), es);
    DeliveredAround(FineExec(FineStart(capacity, active, passive), es));
  }

  lemma DeliveredAround<B>(f: Fine<B>)
    ensures multiset(f.hist.delivered) <= Around(f)
  {
  }

  lemma StartShaped<B>(capacity: nat, active: B, passive: B)
    requires active != passive
    ensures Shaped(FineStart(capacity, active, passive)) && Around(FineStart(capacity, active, passive)) == multiset{}
  {
    NewView(capacity);
    StartLying(capacity, active, passive);
    hide Lying, View;
  }

  lemma StartLying<B>(capacity: nat, active: B, passive: B)
    requires active != passive
    ensures Lying(FineStart(capacity, active, passive).cells) == multiset{}
  {
    var c := NewCells(capacity);
    EmptySlots(map[], active, c);
    EmptySlots(map[active := c], passive, c);
    assert map[active := c][passive := c] == map[active := c, passive := c];
    assert AllSlots<B>(map[]) == map[];
  }
}
