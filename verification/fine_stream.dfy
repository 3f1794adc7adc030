/** The double buffer with Write and the monitor's rotation taken apart: one writer whose push is
    checked, claimed, stored and counted in separate steps, and a monitor that takes the state,
    makes the active ring read-only, swaps the rings and gives the state back in separate steps.
    Between them goroutines publish and the reader reads. All other steps are those of Stream, also
    the writer's own rotation, which only goroutines and the reader could interrupt: they do not
    touch the active ring, and the monitor finds the state taken. */
module FineStream {
  import opened Ring
  import opened Stream
  import opened StreamSafety
  import StreamOrder

  /** A ring as it lies in memory. Reset leaves the slots as they are. */
  datatype Cells = Cells(slots: seq<BufferItem>, head: int, tail: int, count: int, mode: int)

  ghost function NewCells(capacity: int): Cells {
    Cells(seq(if capacity < 0 then 0 else capacity, _ => NIL_ITEM), -1, -1, 0, WRITE_ONLY)
  }

  /** What pops would return, oldest first. */
  ghost function Items(c: Cells): seq<BufferItem> {
    if 0 <= c.count <= |c.slots| && -1 <= c.tail then Unread(c.slots, c.tail + 1, c.count) else []
  }

  ghost function View(c: Cells): RingValue {
    RingValue(Items(c), c.mode, c.head, c.tail)
  }

  ghost function Views<B>(cells: map<B, Cells>): map<B, RingValue> {
    map b | b in cells :: View(cells[b])
  }

  /** Where the writer stands inside Write; named after the next thing it does. `again` marks the
      second attempt, after which Write gives up. */
  datatype Writer<B> =
    | Out
    | LoadActive(item: BufferItem, again: bool)
    | Check(item: BufferItem, b: B, again: bool)
    | Claim(item: BufferItem, b: B)
    | Store(item: BufferItem, b: B, pos: int)
    | Add(item: BufferItem, b: B)
    | CountUp
    | LookAgain(item: BufferItem)
    | Switch(item: BufferItem)

  /** Where the monitor is inside switchChannel: it has taken the state, it has made the active
      ring read-only (`was` is the ring's state before), it has swapped the rings. */
  datatype Turn = Resting | Begun | Frozen(was: int) | Swapped

  /** `sys.bufs` is kept equal to the views of the cells; `refused` lists the items for which Write
      has returned an error. */
  datatype Fine<B> = Fine(sys: System<B>, cells: map<B, Cells>, writer: Writer<B>, turn: Turn,
                          hist: History, refused: seq<BufferItem>)

  datatype FineEvent<B> =
    | CallWrite(item: BufferItem)
    | StepWriter(spare: B)
    | StepMonitor(spare: B)
    | Elsewhere(e: Event<B>)

  ghost predicate FineEnabled<B>(f: Fine<B>, e: FineEvent<B>) {
    match e
    case CallWrite(item) => f.writer.Out? && Queueable(item)
    case StepWriter(spare) => !f.writer.Out? && (f.writer.Switch? && f.turn.Resting? ==> CanGet(f.sys, spare))
    case StepMonitor(spare) => f.turn.Frozen? ==> CanGet(f.sys, spare) && NotHeld(f, spare)
    case Elsewhere(e) => !e.WriteEvent? && !e.SwitchEvent? && Enabled(f.sys, e)
  }

  /** A new ring is not one that the pool has dropped while the writer is still working on it. */
  ghost predicate NotHeld<B>(f: Fine<B>, spare: B) {
    spare !in f.sys.bufs && StageOf(f.writer) != Outside ==> f.writer.b != spare
  }

  ghost function CellsAt<B>(f: Fine<B>, b: B): Cells {
    if b in f.cells then f.cells[b] else NewCells(f.sys.capacity)
  }

  /** The writer works on a ring; on one that the pool has dropped meanwhile nobody notices. */
  ghost function Worked<B>(f: Fine<B>, b: B, c: Cells, writer: Writer<B>): Fine<B> {
    var cells := if b in f.cells then f.cells[b := c] else f.cells;
    f.(cells := cells, sys := f.sys.(bufs := Views(cells)), writer := writer)
  }

  ghost function Put(slots: seq<BufferItem>, pos: int, item: BufferItem): seq<BufferItem> {
    if 0 <= pos < |slots| then slots[pos := item] else slots
  }

  /** Pop of a ring that is not empty. */
  ghost function Popped(c: Cells, capacity: int): Cells {
    c.(slots := Put(c.slots, CalcPos(c.tail, capacity), NIL_ITEM), tail := Int32(c.tail + 1), count := c.count - 1)
  }

  ghost function Emptied(c: Cells): Cells {
    c.(mode := WRITE_ONLY, count := 0, head := -1, tail := -1)
  }

  /** What a step of the others does to the rings. */
  ghost function CellsAfter<B>(f: Fine<B>, e: Event<B>): map<B, Cells> {
    match e
    case SwitchEvent(spare) =>
      f.cells[f.sys.active := CellsAt(f, f.sys.active).(mode := READ_ONLY)][spare := CellsAt(f, spare)]
    case BeginEvent =>
      if f.sys.current.Some? && Begin(f.sys).current.None? then
        f.cells[f.sys.current.value := Emptied(CellsAt(f, f.sys.current.value))]
      else f.cells
    case TakeEvent =>
      if f.sys.current.Some? && Items(CellsAt(f, f.sys.current.value)) != [] then
        f.cells[f.sys.current.value := Popped(CellsAt(f, f.sys.current.value), f.sys.capacity)]
      else f.cells
    case CollectEvent(b) => f.cells - {b}
    case _ => f.cells
  }

  /** The pop finds the nil item, in a slot that is counted and has nothing in it. The read then
      reports ErrRead, as from an empty ring. */
  ghost predicate FindsNil<B>(f: Fine<B>, e: Event<B>)
    requires Enabled(f.sys, e)
  {
    e.TakeEvent? && var items := RingOf(f.sys, f.sys.current.value).items; items != [] && items[0] == NIL_ITEM
  }

  ghost function Others<B>(f: Fine<B>, e: Event<B>): Fine<B>
    requires Enabled(f.sys, e)
  {
    f.(sys := Apply(f.sys, e).(bufs := Views(CellsAfter(f, e))), cells := CellsAfter(f, e),
       hist := if FindsNil(f, e) then f.hist else Record(f.sys, f.hist, e))
  }

  /** A check that fails: the first attempt is followed by a second one, the second ends Write with
      an error. */
  ghost function Refused<B>(f: Fine<B>): Fine<B>
    requires f.writer.Check?
  {
    if f.writer.again then f.(writer := Out, refused := f.refused + [f.writer.item])
    else f.(writer := LookAgain(f.writer.item))
  }

  ghost function WriterStep<B>(f: Fine<B>, spare: B): Fine<B>
    requires FineEnabled(f, StepWriter(spare))
  {
    match f.writer
    case LoadActive(item, again) =>
      f.(writer := if f.turn.Resting? || again then Check(item, f.sys.active, again) else LookAgain(item))
    case Check(item, b, again) =>
      var c := CellsAt(f, b);
      if c.mode == CLOSED_STATE || c.mode == READ_ONLY then Refused(f)
      else if c.count >= f.sys.capacity then
        Worked(Refused(f), b, c.(mode := if c.mode == WRITE_ONLY then READ_ONLY else c.mode), Refused(f).writer)
      else f.(writer := Claim(item, b))
    case Claim(item, b) =>
      var c := CellsAt(f, b);
      Worked(f, b, c.(head := Int32(c.head + 1)), Store(item, b, CalcPos(c.head, f.sys.capacity)))
    case Store(item, b, pos) =>
      var c := CellsAt(f, b);
      Worked(f, b, c.(slots := Put(c.slots, pos, item)), Add(item, b))
    case Add(item, b) =>
      var c := CellsAt(f, b);
      Worked(f, b, c.(count := Int32(c.count + 1)), CountUp).(hist := f.hist.(accepted := f.hist.accepted + [item]))
    case CountUp => f.(sys := f.sys.(count := f.sys.count + 1), writer := Out)
    case LookAgain(item) =>
      f.(writer := if CellsAt(f, f.sys.active).mode == READ_ONLY then Switch(item) else LoadActive(item, true))
    case Switch(item) =>
      (if f.turn.Resting? then Others(f, SwitchEvent(spare)) else f).(writer := LoadActive(item, true))
    case Out => f
  }

  ghost function MonitorStep<B>(f: Fine<B>, spare: B): Fine<B>
    requires FineEnabled(f, StepMonitor(spare))
  {
    match f.turn
    case Resting => f.(turn := Begun)
    case Begun =>
      var c := CellsAt(f, f.sys.active);
      Worked(f, f.sys.active, c.(mode := READ_ONLY), f.writer).(turn := Frozen(c.mode))
    case Frozen(_) => Others(f, SwitchEvent(spare)).(turn := Swapped)
    case Swapped => f.(turn := Resting)
  }

  ghost function FineNext<B>(f: Fine<B>, e: FineEvent<B>): Fine<B>
    requires FineEnabled(f, e)
  {
    match e
    case CallWrite(item) => f.(writer := LoadActive(item, false))
    case StepWriter(spare) => WriterStep(f, spare)
    case StepMonitor(spare) => MonitorStep(f, spare)
    case Elsewhere(e) => Others(f, e)
  }

  ghost predicate FinePossible<B>(f: Fine<B>, es: seq<FineEvent<B>>)
    decreases |es|
  {
    es == [] || (FineEnabled(f, es[0]) && FinePossible(FineNext(f, es[0]), es[1..]))
  }

  ghost function FineExec<B>(f: Fine<B>, es: seq<FineEvent<B>>): Fine<B>
    requires FinePossible(f, es)
    decreases |es|
  {
    if es == [] then f else FineExec(FineNext(f, es[0]), es[1..])
  }

  ghost function FineStart<B>(capacity: int, active: B, passive: B): Fine<B> {
    var st := Start(capacity, active, passive);
    Fine(st.sys, map[active := NewCells(capacity), passive := NewCells(capacity)], Out, Resting, st.hist, [])
  }

  // ---------------------------------------------------------------- the push under way, left out

  /** Where the writer is in its push, from the load of the active buffer to the addition to the
      ring's count. */
  datatype Stage = Outside | Checking | Claiming | Storing | Adding

  function StageOf<B>(w: Writer<B>): Stage {
    match w
    case Check(_, _, _) => Checking
    case Claim(_, _) => Claiming
    case Store(_, _, _) => Storing
    case Add(_, _) => Adding
    case _ => Outside
  }

  /** The active ring without the traces of a push that has not been counted in it yet, or of a
      rotation that has not swapped it yet. */
  ghost function Hidden<B>(f: Fine<B>): RingValue {
    var r := RingOf(f.sys, f.sys.active);
    if f.writer.Store? || f.writer.Add? then r.(head := r.head - 1)
    else if f.turn.Frozen? then r.(state := f.turn.was)
    else r
  }

  /** The system with `r` for the active ring and its length for `count`. The variable itself is off
      by one while the writer has still to add to it, and stays so until the next rotation if one
      comes in between. */
  ghost function Settled<B>(sys: System<B>, r: RingValue): System<B> {
    sys.(bufs := sys.bufs[sys.active := r], count := |r.items|)
  }

  ghost function Abstract<B>(f: Fine<B>): State<B> {
    State(Settled(f.sys, Hidden(f)), f.hist)
  }

  /** While the monitor is inside its rotation, the writer is outside a push. */
  ghost predicate Apart<B>(f: Fine<B>) {
    f.turn.Resting? || StageOf(f.writer) == Outside
  }

  ghost predicate CellsFit<B>(f: Fine<B>) {
    f.sys.bufs == Views(f.cells) && Fit(f.cells, f.sys.capacity)
  }

  ghost predicate Fit<B>(cells: map<B, Cells>, capacity: int) {
    forall b :: b in cells ==> Fits(cells[b], capacity)
  }

  /** What the writer carries, and how far its push and the monitor's rotation have got. */
  ghost predicate WriterFits<B>(f: Fine<B>) {
    var w, c := f.writer, CellsAt(f, f.sys.active);
    && (!w.Out? && !w.CountUp? ==> Queueable(w.item))
    && (w.Check? || w.Claim? || w.Store? || w.Add? ==> w.b == f.sys.active)
    && (w.Claim? || w.Store? || w.Add? ==> c.mode == WRITE_ONLY && 0 <= c.count < f.sys.capacity)
    && (w.Store? ==> w.pos == Slot(c.count, f.sys.capacity))
    && (w.Add? ==> |c.slots| == f.sys.capacity && c.slots[Slot(c.count, f.sys.capacity)] == w.item)
    && (f.turn.Frozen? ==> c.mode == READ_ONLY)
  }

  ghost predicate Good<B>(f: Fine<B>) {
    CellsFit(f) && Inv(Abstract(f)) && WriterFits(f) && f.sys.active in f.cells && Apart(f)
  }

  // ---------------------------------------------------------------- cells and their views

  ghost predicate Fits(c: Cells, capacity: int) {
    |c.slots| == capacity && 0 <= c.count <= capacity && -1 <= c.tail
  }

  lemma NewView(capacity: int)
    requires capacity >= 0
    ensures View(NewCells(capacity)) == PRISTINE && |NewCells(capacity).slots| == capacity
  {
  }

  lemma ViewsUpdate<B>(cells: map<B, Cells>, b: B, c: Cells)
    ensures Views(cells[b := c]) == Views(cells)[b := View(c)]
  {
  }

  /** Cells with tail -1, as the active buffer has them: the items are in the first slots. */
  lemma ItemsAt(c: Cells)
    requires c.tail == -1 && 0 <= c.count <= |c.slots|
    ensures |Items(c)| == c.count
    ensures forall i :: 0 <= i < c.count ==> Items(c)[i] == c.slots[Slot(i, |c.slots|)]
  {
  }

  /** A store into the next slot is not seen until it is counted. */
  lemma StoredUnseen(c: Cells, item: BufferItem)
    requires c.tail == -1 && 0 <= c.count < |c.slots| <= MAX_INT32
    ensures Items(c.(slots := Put(c.slots, Slot(c.count, |c.slots|), item))) == Items(c)
  {
    var c' := c.(slots := Put(c.slots, Slot(c.count, |c.slots|), item));
    SafeNextSlot(0, c.count, |c.slots|);
    ItemsAt(c);
    ItemsAt(c');
  }

  lemma CountedSeen(c: Cells, item: BufferItem)
    requires c.tail == -1 && 0 <= c.count < |c.slots| <= MAX_INT32 && c.slots[Slot(c.count, |c.slots|)] == item
    ensures Items(c.(count := c.count + 1)) == Items(c) + [item]
  {
    ItemsAt(c);
    ItemsAt(c.(count := c.count + 1));
  }

  /** What the pop of the source does to the view of a ring whose indices have not wrapped. */
  lemma PoppedView(c: Cells, capacity: int)
    requires |c.slots| == capacity <= MAX_INT32 && -1 <= c.tail && 0 < c.count && c.tail + c.count < capacity
    ensures View(Popped(c, capacity)) == PopValue(View(c)).0
    ensures Fits(Popped(c, capacity), capacity)
  {
    hide CalcPos, Unread;
    PoppedItems(c);
  }

  lemma PoppedItems(c: Cells)
    requires |c.slots| <= MAX_INT32 && -1 <= c.tail && 0 < c.count && c.tail + c.count < |c.slots|
    ensures Items(c) != [] && Items(Popped(c, |c.slots|)) == Items(c)[1..]
  {
    hide CalcPos, Unread, SlotsDistinct;
    SlotsApart(c.tail + 1, c.count, |c.slots|);
    UnreadPopped(c.slots, c.tail + 1, c.count, NIL_ITEM);
    UnreadSize(c.slots, c.tail + 1, c.count);
    assert Popped(c, |c.slots|).slots == c.slots[Slot(c.tail + 1, |c.slots|) := NIL_ITEM];
  }

  lemma UnreadSize(slots: seq<BufferItem>, popped: nat, n: nat)
    requires n <= |slots|
    ensures |Unread(slots, popped, n)| == n
  {
  }

  lemma SlotsApart(popped: nat, n: nat, capacity: int)
    requires 0 < capacity <= MAX_INT32 && popped + n <= capacity
    ensures SlotsDistinct(popped, popped + n, capacity)
  {
    forall j, k | popped <= j < k < popped + n ensures Slot(j, capacity) != Slot(k, capacity) {
      SafeNextSlot(j, k, capacity);
    }
  }

  // ---------------------------------------------------------------- what a step does to the abstract state

  /** What a step amounts to in the system with whole pushes. */
  datatype Move<B> = Nothing | Attempted(item: BufferItem) | Stepped(e: Event<B>)

  ghost function MoveOf<B>(f: Fine<B>, e: FineEvent<B>): Move<B>
    requires FineEnabled(f, e)
  {
    match e
    case CallWrite(_) => Nothing
    case Elsewhere(e) => Stepped(e)
    case StepMonitor(spare) => if f.turn.Frozen? then Stepped(SwitchEvent(spare)) else Nothing
    case StepWriter(spare) =>
      match f.writer
      case Check(item, b, _) =>
        var c := CellsAt(f, b);
        if c.mode == WRITE_ONLY && c.count >= f.sys.capacity then Attempted(item) else Nothing
      case Add(item, _) => Attempted(item)
      case Switch(_) => if f.turn.Resting? then Stepped(SwitchEvent(spare)) else Nothing
      case _ => Nothing
  }

  ghost predicate Allowed<B>(st: State<B>, m: Move<B>) {
    match m
    case Nothing => true
    case Attempted(item) => Queueable(item)
    case Stepped(e) => !e.WriteEvent? && Enabled(st.sys, e)
  }

  ghost function Moved<B>(st: State<B>, m: Move<B>): State<B>
    requires Allowed(st, m)
  {
    match m
    case Nothing => st
    case Attempted(item) => Attempt(st, item)
    case Stepped(e) => Next(st, e)
  }

  ghost predicate Follows<B>(f: Fine<B>, e: FineEvent<B>)
    requires FineEnabled(f, e)
  {
    var m := MoveOf(f, e);
    Allowed(Abstract(f), m) && Abstract(FineNext(f, e)) == Moved(Abstract(f), m)
  }

  /** The active ring, and how it lies in memory. */
  lemma ActiveCells<B>(f: Fine<B>)
    requires Good(f)
    ensures var c := f.cells[f.sys.active];
            && 0 <= f.sys.capacity <= MAX_INT32 && c.tail == -1
            && c.head == c.count - 1 + (if f.writer.Store? || f.writer.Add? then 1 else 0)
            && (var mode := if f.turn.Frozen? then f.turn.was else c.mode;
                mode == WRITE_ONLY || (mode == READ_ONLY && c.count == f.sys.capacity))
            && AllQueueable(Items(c))
  {
    var s := Abstract(f).sys;
    assert RingFits(s, ActivePlace);
    var c := f.cells[f.sys.active];
    assert RingOf(s, s.active).items == Items(c);
  }

  /** Nothing is hidden: the system is as it is, up to `count`. */
  lemma NothingHidden<B>(sys: System<B>)
    requires sys.active in sys.bufs
    ensures var r := RingOf(sys, sys.active); Settled(sys, r) == sys.(count := |r.items|)
  {
    assert sys.bufs[sys.active := RingOf(sys, sys.active)] == sys.bufs;
  }

  /** A step that changes the active ring only in a way that stays hidden. */
  lemma StaysHidden<B>(f: Fine<B>, f': Fine<B>, c: Cells)
    requires f.sys.active in f.cells && f.sys.bufs == Views(f.cells) && f'.hist == f.hist
    requires f'.cells == f.cells[f.sys.active := c] && f'.sys == f.sys.(bufs := Views(f'.cells), count := f'.sys.count)
    requires Hidden(f') == Hidden(f)
    ensures Abstract(f') == Abstract(f)
  {
    ViewsUpdate(f.cells, f.sys.active, c);
    assert f.sys.bufs[f.sys.active := View(c)][f.sys.active := Hidden(f)] == f.sys.bufs[f.sys.active := Hidden(f)];
  }

  // ---------------------------------------------------------------- the writer's steps

  lemma ClaimFollows<B>(f: Fine<B>, spare: B)
    requires Good(f) && f.writer.Claim?
    ensures var f' := WriterStep(f, spare); CellsFit(f') && WriterFits(f') && Abstract(f') == Abstract(f)
  {
    hide Inv, Unread, CalcPos, Settled;
    ActiveCells(f);
    var b, c := f.sys.active, f.cells[f.sys.active];
    var c' := c.(head := Int32(c.head + 1));
    ViewsUpdate(f.cells, b, c');
    assert Items(c') == Items(c) && View(c').(head := c'.head - 1) == View(c);
    StaysHidden(f, WriterStep(f, spare), c');
  }

  lemma StoreFollows<B>(f: Fine<B>, spare: B)
    requires Good(f) && f.writer.Store?
    ensures var f' := WriterStep(f, spare); CellsFit(f') && WriterFits(f') && Abstract(f') == Abstract(f)
  {
    hide Inv, Settled;
    ActiveCells(f);
    var b, c := f.sys.active, f.cells[f.sys.active];
    var c' := c.(slots := Put(c.slots, f.writer.pos, f.writer.item));
    StoredUnseen(c, f.writer.item);
    ViewsUpdate(f.cells, b, c');
    StaysHidden(f, WriterStep(f, spare), c');
  }

  lemma AddFollows<B>(f: Fine<B>, spare: B)
    requires Good(f) && f.writer.Add?
    ensures var f' := WriterStep(f, spare);
            CellsFit(f') && WriterFits(f') && Queueable(f.writer.item)
            && Abstract(f') == Attempt(Abstract(f), f.writer.item)
  {
    hide Inv;
    ActiveCells(f);
    var b, c := f.sys.active, f.cells[f.sys.active];
    var c' := c.(count := Int32(c.count + 1));
    CountedSeen(c, f.writer.item);
    ViewsUpdate(f.cells, b, c');
    var before := View(c).(head := c.head - 1);
    assert Hidden(f) == before && Hidden(WriterStep(f, spare)) == View(c');
    assert PushValue(before, f.sys.capacity, f.writer.item) == (View(c'), Accepted);
    Replaced(Views(f.cells), b, before, View(c'), View(c'));
  }

  lemma Replaced<B>(bufs: map<B, RingValue>, b: B, r0: RingValue, r1: RingValue, r2: RingValue)
    ensures bufs[b := r0][b := r2] == bufs[b := r1][b := r2] == bufs[b := r2]
  {
  }

  lemma CheckFollows<B>(f: Fine<B>, spare: B)
    requires Good(f) && f.writer.Check?
    ensures var f' := WriterStep(f, spare);
            CellsFit(f') && WriterFits(f') && Follows(f, StepWriter(spare))
  {
    hide Inv;
    ActiveCells(f);
    var b, c := f.sys.active, f.cells[f.sys.active];
    if c.mode == WRITE_ONLY && c.count >= f.sys.capacity {
      var c' := c.(mode := READ_ONLY);
      ViewsUpdate(f.cells, b, c');
      assert View(c') == PushValue(View(c), f.sys.capacity, f.writer.item).0;
      Replaced(Views(f.cells), b, View(c), View(c'), View(c'));
    }
  }

  lemma OtherStepsFollow<B>(f: Fine<B>, spare: B)
    requires Good(f) && (f.writer.LoadActive? || f.writer.CountUp? || f.writer.LookAgain? || f.writer.Switch?)
    requires FineEnabled(f, StepWriter(spare)) && !(f.writer.Switch? && f.turn.Resting?) && Apart(WriterStep(f, spare))
    ensures var f' := WriterStep(f, spare);
            CellsFit(f') && WriterFits(f') && Abstract(f') == Abstract(f)
  {
    hide Inv, Views;
  }

  // ---------------------------------------------------------------- the monitor's steps

  lemma MonitorStarts<B>(f: Fine<B>, spare: B)
    requires Good(f) && !f.turn.Frozen? && Apart(MonitorStep(f, spare))
    ensures var f' := MonitorStep(f, spare);
            CellsFit(f') && WriterFits(f') && Abstract(f') == Abstract(f) && f'.sys.active in f'.cells
  {
    hide Inv, Settled;
    if f.turn.Begun? {
      var c := f.cells[f.sys.active];
      var c' := c.(mode := READ_ONLY);
      ViewsUpdate(f.cells, f.sys.active, c');
      assert Items(c') == Items(c);
      StaysHidden(f, MonitorStep(f, spare), c');
    }
  }

  // ---------------------------------------------------------------- everybody else's steps

  lemma RotationFollows<B>(f: Fine<B>, spare: B)
    requires Good(f) && CanGet(f.sys, spare) && StageOf(f.writer) == Outside
    ensures var f' := Others(f, SwitchEvent(spare));
            && f'.sys == Rotate(f.sys, spare) && f'.hist == Next(Abstract(f), SwitchEvent(spare)).hist
            && CellsFit(f') && f'.sys.active in f'.cells && RingOf(f'.sys, f'.sys.active) == PRISTINE
  {
    PassivePristine(f);
    hide Inv;
    ActiveCells(f);
    NewView(f.sys.capacity);
    var b, c := f.sys.active, f.cells[f.sys.active];
    assert f.sys.passive in f.cells by { Members(f); }
    ViewsUpdate(f.cells, b, c.(mode := READ_ONLY));
    ViewsUpdate(f.cells[b := c.(mode := READ_ONLY)], spare, CellsAt(f, spare));
  }

  lemma PassivePristine<B>(f: Fine<B>)
    requires Good(f)
    ensures f.sys.passive != f.sys.active && RingOf(f.sys, f.sys.passive) == PRISTINE
  {
    var s := Abstract(f).sys;
    assert At(s, ActivePlace) == Some(s.active) && At(s, PassivePlace) == Some(s.passive);
    assert RingFits(s, PassivePlace);
  }

  lemma Members<B>(f: Fine<B>)
    requires Good(f)
    ensures f.sys.passive in f.cells && (f.sys.current.Some? ==> f.sys.current.value in f.cells)
    ensures f.sys.current.Some? ==> f.sys.current.value != f.sys.active
    ensures f.sys.active !in f.sys.pool && f.sys.passive !in f.sys.pool && f.sys.pool <= f.cells.Keys
  {
    var s := Abstract(f).sys;
    assert At(s, ActivePlace) == Some(s.active) && At(s, PassivePlace) == Some(s.passive);
    assert At(s, CurrentPlace) == s.current;
  }

  /** Replacing the active ring, and a step that works on another ring or on none, may be done in
      either order. */
  ghost predicate Commutes<B>(sys: System<B>, r: RingValue, h: History, e: Event<B>)
    requires Enabled(sys, e)
  {
    && Enabled(Settled(sys, r), e)
    && Settled(Apply(sys, e), r) == Apply(Settled(sys, r), e)
    && Record(Settled(sys, r), h, e) == Record(sys, h, e)
  }

  ghost predicate ElsewhereOnly<B>(sys: System<B>) {
    && sys.active in sys.bufs && sys.active !in sys.pool
    && (sys.current.Some? ==> sys.current.value in sys.bufs && sys.current.value != sys.active)
  }

  /** Steps that touch no ring do not look at one either. */
  lemma Indifferent<B>(sys: System<B>, bufs: map<B, RingValue>, count: int, e: Event<B>)
    requires Enabled(sys, e) && (e.NumberEvent? || e.PublishEvent? || e.PickEvent? || e.DecideEvent?)
    ensures Enabled(sys.(bufs := bufs, count := count), e)
    ensures Apply(sys.(bufs := bufs, count := count), e) == Apply(sys, e).(bufs := bufs, count := count)
    ensures var sys' := Apply(sys, e); sys'.bufs == sys.bufs && sys'.count == sys.count && sys'.active == sys.active
  {
    if e.DecideEvent? {
      DecideIndifferent(sys, bufs, count);
    }
  }

  lemma DecideIndifferent<B>(sys: System<B>, bufs: map<B, RingValue>, count: int)
    requires sys.reader.Holding?
    ensures Decide(sys.(bufs := bufs, count := count)) == Decide(sys).(bufs := bufs, count := count)
    ensures Decide(sys).bufs == sys.bufs && Decide(sys).count == sys.count && Decide(sys).active == sys.active
  {
  }

  lemma RinglessCommutes<B>(sys: System<B>, r: RingValue, h: History, e: Event<B>)
    requires Enabled(sys, e) && (e.NumberEvent? || e.PublishEvent? || e.PickEvent? || e.DecideEvent?)
    ensures Commutes(sys, r, h, e)
  {
    hide Number, Publish, Pick, Decide;
    Indifferent(sys, Settled(sys, r).bufs, |r.items|, e);
  }

  lemma BeginCommutes<B>(sys: System<B>, r: RingValue, h: History)
    requires ElsewhereOnly(sys) && sys.reader.Idle?
    ensures Commutes(sys, r, h, BeginEvent)
  {
    if sys.current.Some? {
      var b := sys.current.value;
      assert sys.bufs[sys.active := r][b := PRISTINE] == sys.bufs[b := PRISTINE][sys.active := r];
    }
  }

  lemma TakeCommutes<B>(sys: System<B>, r: RingValue, h: History)
    requires ElsewhereOnly(sys) && sys.reader.Ready? && sys.current.Some?
    ensures Commutes(sys, r, h, TakeEvent)
  {
    var b := sys.current.value;
    var popped := PopValue(RingOf(sys, b)).0;
    assert sys.bufs[sys.active := r][b := popped] == sys.bufs[b := popped][sys.active := r];
  }

  lemma CollectCommutes<B>(sys: System<B>, r: RingValue, h: History, b: B)
    requires ElsewhereOnly(sys) && b in sys.pool
    ensures Commutes(sys, r, h, CollectEvent(b))
  {
    assert sys.bufs[sys.active := r] - {b} == (sys.bufs - {b})[sys.active := r];
  }

  /** The step does to the cells what it does to their views, and not to those of the active ring. */
  ghost predicate Agrees<B>(f: Fine<B>, e: Event<B>)
    requires Enabled(f.sys, e)
  {
    && Views(CellsAfter(f, e)) == Apply(f.sys, e).bufs && Fit(CellsAfter(f, e), f.sys.capacity)
    && f.sys.active in CellsAfter(f, e) && CellsAfter(f, e)[f.sys.active] == CellsAt(f, f.sys.active)
  }

  lemma RinglessAgrees<B>(f: Fine<B>, e: Event<B>)
    requires Good(f) && Enabled(f.sys, e) && (e.NumberEvent? || e.PublishEvent? || e.PickEvent? || e.DecideEvent?)
    ensures Agrees(f, e)
  {
    hide Inv, WriterFits, View;
  }

  lemma BeginAgrees<B>(f: Fine<B>)
    requires Good(f) && f.sys.reader.Idle?
    ensures Agrees(f, BeginEvent)
  {
    Members(f);
    hide Inv, WriterFits, Settled, View, Views, Fit, Emptied, RingOf, CellsFit;
    CellsAgree(f);
    if f.sys.current.Some? && Begin(f.sys).current.None? {
      EmptiedAgrees(f, f.sys.current.value);
    }
  }

  lemma CellsAgree<B>(f: Fine<B>)
    requires CellsFit(f)
    ensures Views(f.cells) == f.sys.bufs && Fit(f.cells, f.sys.capacity)
  {
  }

  lemma EmptiedAgrees<B>(f: Fine<B>, b: B)
    requires CellsFit(f) && b in f.cells
    ensures var cells := f.cells[b := Emptied(f.cells[b])];
            Views(cells) == f.sys.bufs[b := PRISTINE] && Fit(cells, f.sys.capacity)
  {
    ViewsUpdate(f.cells, b, Emptied(f.cells[b]));
    EmptiedView(f.cells[b], f.sys.capacity);
  }

  lemma EmptiedView(c: Cells, capacity: int)
    ensures View(Emptied(c)) == PRISTINE && (Fits(c, capacity) ==> Fits(Emptied(c), capacity))
  {
  }

  lemma TakeAgrees<B>(f: Fine<B>)
    requires Good(f) && f.sys.reader.Ready? && f.sys.current.Some?
    ensures Agrees(f, TakeEvent)
  {
    CurrentCells(f);
    Members(f);
    hide Inv, WriterFits, Settled, Items, PopValue, Popped, Begin, Pick, Decide, Number, Publish, Rotate;
    var b, c := f.sys.current.value, f.cells[f.sys.current.value];
    assert RingOf(f.sys, b) == View(c);
    if Items(c) != [] {
      PoppedView(c, f.sys.capacity);
      ViewsUpdate(f.cells, b, Popped(c, f.sys.capacity));
    } else {
      NothingPopped(View(c));
      assert Views(f.cells)[b := View(c)] == Views(f.cells);
    }
  }

  lemma NothingPopped(r: RingValue)
    requires r.items == []
    ensures PopValue(r).0 == r
  {
  }

  lemma CollectAgrees<B>(f: Fine<B>, b: B)
    requires Good(f) && b in f.sys.pool
    ensures Agrees(f, CollectEvent(b))
  {
    Members(f);
    hide Inv, WriterFits, Settled, View, Begin, Take, Pick, Decide, Number, Publish, Rotate;
    assert Views(f.cells - {b}) == Views(f.cells) - {b};
  }

  lemma CurrentCells<B>(f: Fine<B>)
    requires Good(f) && f.sys.current.Some?
    ensures f.sys.current.value in f.cells && f.sys.capacity <= MAX_INT32
    ensures var c := f.cells[f.sys.current.value]; Items(c) != [] ==> 0 < c.count && c.tail + c.count < f.sys.capacity
  {
    Members(f);
    var s := Abstract(f).sys;
    assert RingFits(s, CurrentPlace);
    assert RingOf(s, s.current.value) == View(f.cells[f.sys.current.value]);
  }

  lemma OthersFollow<B>(f: Fine<B>, e: Event<B>)
    requires Good(f) && Enabled(f.sys, e) && !e.WriteEvent? && !e.SwitchEvent?
    ensures Agrees(f, e) && Commutes(f.sys, Hidden(f), f.hist, e)
  {
    Members(f);
    hide Agrees, Commutes, Inv, WriterFits;
    match e
    case BeginEvent =>
      BeginAgrees(f);
      BeginCommutes(f.sys, Hidden(f), f.hist);
    case TakeEvent =>
      TakeAgrees(f);
      TakeCommutes(f.sys, Hidden(f), f.hist);
    case CollectEvent(b) =>
      CollectAgrees(f, b);
      CollectCommutes(f.sys, Hidden(f), f.hist, b);
    case _ =>
      RinglessAgrees(f, e);
      RinglessCommutes(f.sys, Hidden(f), f.hist, e);
  }

  // ---------------------------------------------------------------- every step of a run

  lemma WriterFollows<B>(f: Fine<B>, spare: B)
    requires Good(f) && FineEnabled(f, StepWriter(spare)) && !(f.writer.Switch? && f.turn.Resting?)
    requires Apart(WriterStep(f, spare))
    ensures var f' := WriterStep(f, spare);
            CellsFit(f') && WriterFits(f') && f'.sys.active in f'.cells && Follows(f, StepWriter(spare))
  {
    hide Inv, CellsFit, WriterFits, Settled;
    match f.writer
    case Check(_, _, _) => CheckFollows(f, spare);
    case Claim(_, _) => ClaimFollows(f, spare);
    case Store(_, _, _) => StoreFollows(f, spare);
    case Add(_, _) => AddFollows(f, spare);
    case _ => OtherStepsFollow(f, spare);
  }

  /** The writer rotates between its two attempts, or the monitor swaps the rings outside a push. */
  ghost predicate Rotates<B>(f: Fine<B>, e: FineEvent<B>, spare: B) {
    (e == StepWriter(spare) && f.writer.Switch? && f.turn.Resting?) || (e == StepMonitor(spare) && f.turn.Frozen?)
  }

  lemma SwitchFollows<B>(f: Fine<B>, e: FineEvent<B>, spare: B)
    requires Good(f) && FineEnabled(f, e) && Rotates(f, e, spare)
    ensures var f' := FineNext(f, e);
            CellsFit(f') && WriterFits(f') && f'.sys.active in f'.cells && Follows(f, e)
  {
    hide Inv, Rotate, Abstract, Views, CellsAfter, FindsNil;
    RotationFollows(f, spare);
    RotatedAbstract(f, FineNext(f, e), spare);
  }

  /** The rings are swapped in a state that hides nothing any more. */
  lemma RotatedAbstract<B>(f: Fine<B>, f': Fine<B>, spare: B)
    requires Good(f) && CanGet(f.sys, spare) && StageOf(f.writer) == Outside
    requires f'.sys == Rotate(f.sys, spare) && f'.hist == Next(Abstract(f), SwitchEvent(spare)).hist
    requires StageOf(f'.writer) == Outside && !f'.turn.Frozen?
    ensures CanGet(Abstract(f).sys, spare) && Abstract(f') == Next(Abstract(f), SwitchEvent(spare))
  {
    Members(f);
    PassivePristine(f);
    hide Inv, Views;
    RotateIndifferent(f.sys, Hidden(f), spare);
    NothingHidden(f'.sys);
  }

  lemma RotateIndifferent<B>(sys: System<B>, r: RingValue, spare: B)
    requires sys.active in sys.bufs && sys.active != spare
    requires r.(state := READ_ONLY) == RingOf(sys, sys.active).(state := READ_ONLY)
    ensures Rotate(Settled(sys, r), spare) == Rotate(sys, spare) && Rotate(sys, spare).count == 0
  {
    var a, last := sys.active, r.(state := READ_ONLY);
    assert sys.bufs[a := r][a := last] == sys.bufs[a := last];
  }

  lemma ElsewhereFollows<B>(f: Fine<B>, e: Event<B>)
    requires Good(f) && FineEnabled(f, Elsewhere(e))
    ensures var f' := FineNext(f, Elsewhere(e));
            CellsFit(f') && WriterFits(f') && f'.sys.active in f'.cells && Follows(f, Elsewhere(e))
  {
    hide Inv, Settled, FindsNil;
    OthersFollow(f, e);
    NilNotFound(f, e);
    SameActive(f.sys, e);
    assert Others(f, e).sys == Apply(f.sys, e);
  }

  /** In such a state the current ring holds only what Write has queued. */
  lemma NilNotFound<B>(f: Fine<B>, e: Event<B>)
    requires Good(f) && Enabled(f.sys, e)
    ensures !FindsNil(f, e)
  {
    if e.TakeEvent? {
      Members(f);
      var s := Abstract(f).sys;
      assert RingFits(s, CurrentPlace) && RingOf(s, s.current.value) == RingOf(f.sys, f.sys.current.value);
    }
  }

  lemma SameActive<B>(sys: System<B>, e: Event<B>)
    requires Enabled(sys, e) && !e.WriteEvent? && !e.SwitchEvent?
    ensures Apply(sys, e).active == sys.active && Apply(sys, e).capacity == sys.capacity
  {
  }

  lemma CallFollows<B>(f: Fine<B>, item: BufferItem)
    requires Good(f) && FineEnabled(f, CallWrite(item))
    ensures var f' := FineNext(f, CallWrite(item));
            CellsFit(f') && WriterFits(f') && f'.sys.active in f'.cells && Follows(f, CallWrite(item))
  {
    hide Inv;
  }

  /** Every step of the writer, the monitor and the others is a step, or part of one, of the system
      with whole pushes and rotations. */
  lemma StepFollows<B>(f: Fine<B>, e: FineEvent<B>)
    requires Good(f) && FineEnabled(f, e) && Apart(FineNext(f, e))
    ensures var f' := FineNext(f, e);
            CellsFit(f') && WriterFits(f') && f'.sys.active in f'.cells && Follows(f, e)
  {
    hide Inv, CellsFit, Settled;
    match e
    case CallWrite(item) => CallFollows(f, item);
    case StepWriter(spare) =>
      if Rotates(f, e, spare) {
        SwitchFollows(f, e, spare);
      } else {
        WriterFollows(f, spare);
      }
    case StepMonitor(spare) =>
      if Rotates(f, e, spare) {
        SwitchFollows(f, e, spare);
      } else {
        MonitorStarts(f, spare);
      }
    case Elsewhere(other) => ElsewhereFollows(f, other);
  }

  lemma MoveKeeps<B>(st: State<B>, m: Move<B>)
    requires Inv(st) && StreamOrder.Conserved(st) && Allowed(st, m)
    ensures Inv(Moved(st, m)) && StreamOrder.Conserved(Moved(st, m))
  {
    match m
    case Nothing =>
    case Attempted(item) =>
      WriteActiveInv(st, item);
      StreamOrder.CurrentInUse(st.sys);
      StreamOrder.AttemptConserves(st, item);
    case Stepped(e) =>
      StepInv(st, e);
      StreamOrder.StepConserves(st, e);
  }

  ghost predicate AllApart<B>(f: Fine<B>, es: seq<FineEvent<B>>)
    requires FinePossible(f, es)
    decreases |es|
  {
    Apart(f) && (es == [] || AllApart(FineNext(f, es[0]), es[1..]))
  }

  lemma FirstApart<B>(f: Fine<B>, es: seq<FineEvent<B>>)
    requires FinePossible(f, es) && AllApart(f, es)
    ensures Apart(f) && (es != [] ==> Apart(FineNext(f, es[0])))
  {
    if es != [] {
      assert AllApart(FineNext(f, es[0]), es[1..]);
    }
  }

  lemma {:induction false} RunKeepsGood<B>(f: Fine<B>, es: seq<FineEvent<B>>)
    requires Good(f) && StreamOrder.Conserved(Abstract(f)) && FinePossible(f, es) && AllApart(f, es)
    ensures Good(FineExec(f, es)) && StreamOrder.Conserved(Abstract(FineExec(f, es)))
    decreases |es|
  {
    if es != [] {
      hide Inv, CellsFit, WriterFits, StreamOrder.Conserved, Abstract, FineNext;
      FirstApart(f, es);
      StepFollows(f, es[0]);
      MoveKeeps(Abstract(f), MoveOf(f, es[0]));
      RunKeepsGood(FineNext(f, es[0]), es[1..]);
    }
  }

  lemma StartGood<B>(capacity: int, active: B, passive: B)
    requires 0 <= capacity <= MAX_INT32 && active != passive
    ensures var f := FineStart(capacity, active, passive);
            Good(f) && StreamOrder.Conserved(Abstract(f)) && Abstract(f) == Start(capacity, active, passive)
  {
    hide Inv, StreamOrder.Conserved, View, Fits;
    InitialInv(capacity, active, passive);
    StreamOrder.InitialConserved(capacity, active, passive);
    NewFits(capacity);
    var f := FineStart(capacity, active, passive);
    assert Views(f.cells) == f.sys.bufs;
    NothingHidden(f.sys);
  }

  lemma NewFits(capacity: int)
    requires capacity >= 0
    ensures View(NewCells(capacity)) == PRISTINE && Fits(NewCells(capacity), capacity)
  {
    NewView(capacity);
  }

  /** As long as the writer is outside a push while the monitor is inside its rotation, nothing
      accepted is lost or duplicated, in every interleaving of the steps of both with all others. */
  lemma ApartRunsConserve<B>(capacity: int, active: B, passive: B, es: seq<FineEvent<B>>)
    requires 0 <= capacity <= MAX_INT32 && active != passive
    requires FinePossible(FineStart(capacity, active, passive), es)
    requires AllApart(FineStart(capacity, active, passive), es)
    ensures var f := FineExec(FineStart(capacity, active, passive), es);
            && f.sys.bufs == Views(f.cells)
            && multiset(f.hist.accepted) == multiset(f.hist.delivered) + StreamOrder.Total(f.sys.bufs)
            && Inv(Abstract(f))
  {
    StartGood(capacity, active, passive);
    RunKeepsGood(FineStart(capacity, active, passive), es);
    HiddenTotal(FineExec(FineStart(capacity, active, passive), es));
  }

  /** What is hidden are no items. */
  lemma HiddenTotal<B>(f: Fine<B>)
    requires Good(f)
    ensures StreamOrder.Total(Abstract(f).sys.bufs) == StreamOrder.Total(f.sys.bufs)
  {
    hide Inv;
    StreamOrder.TotalGains(f.sys.bufs, f.sys.active, Hidden(f), multiset{});
  }

  /** Every goroutine that draws a number is the one spawned earliest among those still waiting. */
  ghost predicate NumbersInSpawnOrder<B>(f: Fine<B>, es: seq<FineEvent<B>>)
    requires FinePossible(f, es)
    decreases |es|
  {
    es == [] ||
    (&& (es[0].Elsewhere? && es[0].e.NumberEvent? ==> forall k :: k in f.sys.waiting ==> es[0].e.g <= k)
     && NumbersInSpawnOrder(FineNext(f, es[0]), es[1..]))
  }

  lemma MoveKeepsOrder<B>(f: Fine<B>, e: FineEvent<B>)
    requires Good(f) && FineEnabled(f, e) && Allowed(Abstract(f), MoveOf(f, e))
    requires StreamOrder.Identity(f.hist.order)
    requires e.Elsewhere? && e.e.NumberEvent? ==> forall k :: k in f.sys.waiting ==> e.e.g <= k
    ensures StreamOrder.Identity(Moved(Abstract(f), MoveOf(f, e)).hist.order)
  {
    hide Inv;
    match MoveOf(f, e)
    case Stepped(other) => StreamOrder.StepKeepsSpawnOrder(Abstract(f), other);
    case _ =>
  }

  lemma {:induction false} RunKeepsOrder<B>(f: Fine<B>, es: seq<FineEvent<B>>)
    requires Good(f) && StreamOrder.Conserved(Abstract(f)) && FinePossible(f, es) && AllApart(f, es)
    requires NumbersInSpawnOrder(f, es) && StreamOrder.Identity(f.hist.order)
    ensures StreamOrder.Identity(FineExec(f, es).hist.order)
    decreases |es|
  {
    if es != [] {
      hide Inv, CellsFit, WriterFits, StreamOrder.Conserved, FineNext, StreamOrder.Identity;
      FirstApart(f, es);
      StepFollows(f, es[0]);
      MoveKeeps(Abstract(f), MoveOf(f, es[0]));
      MoveKeepsOrder(f, es[0]);
      RunKeepsOrder(FineNext(f, es[0]), es[1..]);
    }
  }

  /** In such a run, and with numbers drawn in spawn order, the double buffer is a queue: once the
      writer is out of its push, the deliveries, the rest of the current buffer, the numbered and
      the unnumbered batches and the active buffer are the accepted writes end to end. */
  lemma ApartRunsAreFifo<B>(capacity: int, active: B, passive: B, es: seq<FineEvent<B>>)
    requires 0 <= capacity <= MAX_INT32 && active != passive
    requires FinePossible(FineStart(capacity, active, passive), es)
    requires AllApart(FineStart(capacity, active, passive), es)
    requires NumbersInSpawnOrder(FineStart(capacity, active, passive), es)
    ensures var f := FineExec(FineStart(capacity, active, passive), es);
            var State(s, h) := Abstract(f);
            && Window(s) && s.sequence <= s.spawned
            && (forall g: nat :: s.sequence <= g < s.spawned ==> g in s.waiting)
            && h.accepted == h.delivered + Rest(s) + Flatten(StreamOrder.PublishedBatches(s))
                             + Flatten(StreamOrder.WaitingBatches(s)) + RingOf(s, s.active).items
            && h.delivered <= h.accepted
  {
    StartGood(capacity, active, passive);
    RunKeepsGood(FineStart(capacity, active, passive), es);
    RunKeepsOrder(FineStart(capacity, active, passive), es);
    hide Inv, CellsFit, WriterFits, FineStart, FineExec, StreamOrder.Identity;
    var f := FineExec(FineStart(capacity, active, passive), es);
    StreamOrder.PipelineIsQueue(Abstract(f));
    SequenceWindow(Abstract(f));
  }

  lemma SequenceWindow<B>(st: State<B>)
    requires Inv(st)
    ensures Window(st.sys)
  {
  }

  // ---------------------------------------------------------------- writes that succeed

  ghost predicate WithRoom(c: Cells, capacity: int) {
    c.mode == WRITE_ONLY && c.count < capacity
  }

  /** A second attempt finds room: if the active ring was full, or made read-only by the monitor, it
      has been rotated out before the ring is checked again. */
  ghost predicate Room<B>(f: Fine<B>) {
    var c := CellsAt(f, f.sys.active);
    match f.turn
    case Resting =>
      && (f.writer.LookAgain? ==> c.mode == READ_ONLY || c.count < f.sys.capacity)
      && ((f.writer.LoadActive? || f.writer.Check?) && f.writer.again ==> WithRoom(c, f.sys.capacity))
    case Swapped => WithRoom(c, f.sys.capacity)
    case _ => true
  }

  lemma EmptyHasRoom<B>(f: Fine<B>)
    requires Good(f) && f.sys.capacity >= 1 && RingOf(f.sys, f.sys.active) == PRISTINE
    ensures WithRoom(f.cells[f.sys.active], f.sys.capacity)
  {
    ActiveCells(f);
    var c := f.cells[f.sys.active];
    assert View(c) == PRISTINE && |Items(c)| == c.count by {
      ItemsAt(c);
    }
  }

  lemma RotateKeepsCapacity<B>(sys: System<B>, spare: B)
    ensures Rotate(sys, spare).capacity == sys.capacity
  {
  }

  lemma RotationMakesRoom<B>(f: Fine<B>, e: FineEvent<B>, spare: B)
    requires Good(f) && FineEnabled(f, e) && Good(FineNext(f, e)) && Rotates(f, e, spare) && f.sys.capacity >= 1
    ensures Room(FineNext(f, e)) && FineNext(f, e).refused == f.refused && FineNext(f, e).sys.capacity == f.sys.capacity
  {
    hide Inv, WriterFits, CellsFit, Abstract, Rotate, CellsAfter, FindsNil, Record, Views;
    RotationFollows(f, spare);
    assert FineNext(f, e).sys == Others(f, SwitchEvent(spare)).sys;
    RotateKeepsCapacity(f.sys, spare);
    EmptyHasRoom(FineNext(f, e));
  }

  lemma WriterKeepsRoom<B>(f: Fine<B>, spare: B)
    requires Good(f) && FineEnabled(f, StepWriter(spare)) && Room(f) && !(f.writer.Switch? && f.turn.Resting?)
    requires Apart(WriterStep(f, spare))
    ensures var f' := WriterStep(f, spare);
            Room(f') && f'.refused == f.refused && f'.sys.capacity == f.sys.capacity
  {
    hide Inv, CalcPos, Views;
    ActiveCells(f);
  }

  lemma OthersKeepRoom<B>(f: Fine<B>, e: Event<B>)
    requires Good(f) && FineEnabled(f, Elsewhere(e)) && Room(f)
    ensures var f' := Others(f, e); Room(f') && f'.refused == f.refused && f'.sys.capacity == f.sys.capacity
  {
    hide Inv, WriterFits, CellsFit, Settled;
    OthersFollow(f, e);
    SameActive(f.sys, e);
  }

  lemma RoomKept<B>(f: Fine<B>, e: FineEvent<B>)
    requires Good(f) && FineEnabled(f, e) && Good(FineNext(f, e)) && Room(f) && f.sys.capacity >= 1
    ensures Room(FineNext(f, e)) && FineNext(f, e).refused == f.refused && FineNext(f, e).sys.capacity == f.sys.capacity
  {
    hide Inv, CellsFit, WriterFits, Settled, Others;
    match e
    case CallWrite(_) =>
    case StepWriter(spare) =>
      if Rotates(f, e, spare) {
        RotationMakesRoom(f, e, spare);
      } else {
        WriterKeepsRoom(f, spare);
      }
    case StepMonitor(spare) =>
      if Rotates(f, e, spare) {
        RotationMakesRoom(f, e, spare);
      }
    case Elsewhere(other) => OthersKeepRoom(f, other);
  }

  lemma {:induction false} RunKeepsRoom<B>(f: Fine<B>, es: seq<FineEvent<B>>)
    requires Good(f) && StreamOrder.Conserved(Abstract(f)) && FinePossible(f, es) && AllApart(f, es)
    requires Room(f) && f.sys.capacity >= 1
    ensures FineExec(f, es).refused == f.refused
    decreases |es|
  {
    if es != [] {
      hide Inv, CellsFit, WriterFits, StreamOrder.Conserved, Abstract, FineNext, Room;
      FirstApart(f, es);
      StepFollows(f, es[0]);
      MoveKeeps(Abstract(f), MoveOf(f, es[0]));
      RoomKept(f, es[0]);
      RunKeepsRoom(FineNext(f, es[0]), es[1..]);
    }
  }

  /** The items for which Write has been called, in order, and the one for which it has not yet decided. */
  ghost function Called<B>(es: seq<FineEvent<B>>): seq<BufferItem>
    decreases |es|
  {
    if es == [] then []
    else (if es[0].CallWrite? then [es[0].item] else []) + Called(es[1..])
  }

  ghost function Undecided<B>(w: Writer<B>): seq<BufferItem> {
    if w.Out? || w.CountUp? then [] else [w.item]
  }

  /** What has become of the calls made between two states: each is accepted, refused or still under
      way, and as long as none is refused, the accepted items are those of the calls, in order. */
  ghost predicate Answered<B>(f: Fine<B>, called: seq<BufferItem>, t: Fine<B>) {
    && f.refused <= t.refused
    && multiset(t.hist.accepted) + multiset(t.refused) + multiset(Undecided(t.writer))
       == multiset(f.hist.accepted) + multiset(f.refused) + multiset(Undecided(f.writer)) + multiset(called)
    && (t.refused == f.refused ==>
          t.hist.accepted + Undecided(t.writer) == f.hist.accepted + Undecided(f.writer) + called)
  }

  lemma AnsweredOn<B>(f: Fine<B>, a: seq<BufferItem>, t: Fine<B>, b: seq<BufferItem>, u: Fine<B>)
    requires Answered(f, a, t) && Answered(t, b, u)
    ensures Answered(f, a + b, u)
  {
    hide Undecided;
    if u.refused == f.refused {
      assert t.refused == f.refused;
    }
  }

  lemma OthersAnswer<B>(f: Fine<B>, e: Event<B>)
    requires Enabled(f.sys, e) && !e.WriteEvent?
    ensures Answered(f, [], Others(f, e))
  {
    hide Undecided;
    assert Others(f, e).hist.accepted == f.hist.accepted && Others(f, e).writer == f.writer;
  }

  lemma CheckAnswers<B>(f: Fine<B>)
    requires f.writer.Check?
    ensures Answered(f, [], Refused(f))
  {
    var item := [f.writer.item];
    assert multiset(f.refused + item) == multiset(f.refused) + multiset(item);
  }

  lemma AddAnswers<B>(f: Fine<B>, t: Fine<B>)
    requires f.writer.Add? && t.writer.CountUp? && t.refused == f.refused
    requires t.hist.accepted == f.hist.accepted + [f.writer.item]
    ensures Answered(f, [], t)
  {
  }

  /** Accepted and refused items and the one under way stay what they are. */
  lemma NothingAnswered<B>(f: Fine<B>, t: Fine<B>)
    requires t.hist.accepted == f.hist.accepted && t.refused == f.refused && Undecided(t.writer) == Undecided(f.writer)
    ensures Answered(f, [], t)
  {
  }

  lemma SwitchAnswers<B>(f: Fine<B>, spare: B)
    requires FineEnabled(f, StepWriter(spare)) && f.writer.Switch?
    ensures Answered(f, [], WriterStep(f, spare))
  {
    hide Answered, CellsAt, Views, CellsAfter, FindsNil, Record, Apply;
    var none: seq<BufferItem> := [];
    assert none + none == none;
    var t := if f.turn.Resting? then Others(f, SwitchEvent(spare)) else f;
    if f.turn.Resting? {
      OthersAnswer(f, SwitchEvent(spare));
    } else {
      NothingAnswered(f, t);
    }
    NothingAnswered(t, WriterStep(f, spare));
    AnsweredOn(f, [], t, [], WriterStep(f, spare));
  }

  lemma WriterAnswers<B>(f: Fine<B>, spare: B)
    requires FineEnabled(f, StepWriter(spare))
    ensures Answered(f, [], WriterStep(f, spare))
  {
    hide Answered, CellsAt, CalcPos, Views, Others;
    var none: seq<BufferItem> := [];
    assert none + none == none;
    var t := WriterStep(f, spare);
    match f.writer
    case Check(_, _, _) =>
      CheckAnswers(f);
      if t.writer.Claim? {
        NothingAnswered(f, t);
      } else {
        NothingAnswered(Refused(f), t);
        AnsweredOn(f, [], Refused(f), [], t);
      }
    case Add(_, _) => AddAnswers(f, t);
    case Switch(_) => SwitchAnswers(f, spare);
    case _ => NothingAnswered(f, t);
  }

  lemma MonitorAnswers<B>(f: Fine<B>, spare: B)
    requires FineEnabled(f, StepMonitor(spare))
    ensures Answered(f, [], MonitorStep(f, spare))
  {
    if f.turn.Frozen? {
      OthersAnswer(f, SwitchEvent(spare));
    } else {
      NothingAnswered(f, MonitorStep(f, spare));
    }
  }

  lemma CallAnswered<B>(f: Fine<B>, e: FineEvent<B>)
    requires FineEnabled(f, e)
    ensures Answered(f, if e.CallWrite? then [e.item] else [], FineNext(f, e))
  {
    match e
    case CallWrite(_) =>
    case StepWriter(spare) => WriterAnswers(f, spare);
    case StepMonitor(spare) => MonitorAnswers(f, spare);
    case Elsewhere(other) => OthersAnswer(f, other);
  }

  /** So it is in every run, also in one in which pushes and rotations overlap. */
  lemma {:induction false} CallsAnswered<B>(f: Fine<B>, es: seq<FineEvent<B>>)
    requires FinePossible(f, es)
    ensures Answered(f, Called(es), FineExec(f, es))
    decreases |es|
  {
    if es != [] {
      hide FineNext, Answered;
      var called, t := if es[0].CallWrite? then [es[0].item] else [], FineNext(f, es[0]);
      CallAnswered(f, es[0]);
      CallsAnswered(t, es[1..]);
      AnsweredOn(f, called, t, Called(es[1..]), FineExec(f, es));
    }
  }

  /** As long as no push and no rotation by the monitor overlap, a write into a double buffer that can
      hold anything at all is never refused: the accepted items are those of the calls, in order. */
  lemma ApartWritesSucceed<B>(capacity: int, active: B, passive: B, es: seq<FineEvent<B>>)
    requires 1 <= capacity <= MAX_INT32 && active != passive
    requires FinePossible(FineStart(capacity, active, passive), es)
    requires AllApart(FineStart(capacity, active, passive), es)
    ensures var f := FineExec(FineStart(capacity, active, passive), es);
            f.refused == [] && f.hist.accepted + Undecided(f.writer) == Called(es)
  {
    StartGood(capacity, active, passive);
    RunKeepsRoom(FineStart(capacity, active, passive), es);
    CallsAnswered(FineStart(capacity, active, passive), es);
  }

  /** When no two accepted items are equal, and in such a run, the reader sees the accepted order
      exactly when the rotations it has followed are the first ones, leaving out empty ones. */
  lemma ApartOrderKeptIff<B>(capacity: int, active: B, passive: B, es: seq<FineEvent<B>>)
    requires 0 <= capacity <= MAX_INT32 && active != passive
    requires FinePossible(FineStart(capacity, active, passive), es)
    requires AllApart(FineStart(capacity, active, passive), es)
    requires StreamOrder.NoDuplicates(FineExec(FineStart(capacity, active, passive), es).hist.accepted)
    ensures var f := FineExec(FineStart(capacity, active, passive), es);
            1 <= f.sys.currentSequence <= |f.hist.order| + 1
            && (f.hist.delivered + Rest(f.sys) <= f.hist.accepted
                <==> StreamOrder.FirstInOrder(f.hist.batches, f.hist.order[..f.sys.currentSequence - 1]))
  {
    hide Good, StreamOrder.FirstInOrder, StreamOrder.Conserved, StreamOrder.NoDuplicates;
    StartGood(capacity, active, passive);
    RunKeepsGood(FineStart(capacity, active, passive), es);
    GoodOrder(FineExec(FineStart(capacity, active, passive), es));
  }

  lemma GoodOrder<B>(f: Fine<B>)
    requires Good(f) && StreamOrder.NoDuplicates(f.hist.accepted)
    ensures 1 <= f.sys.currentSequence <= |f.hist.order| + 1
            && (f.hist.delivered + Rest(f.sys) <= f.hist.accepted
                <==> StreamOrder.FirstInOrder(f.hist.batches, f.hist.order[..f.sys.currentSequence - 1]))
  {
    hide StreamOrder.FirstInOrder, CellsFit, WriterFits, Owned, Rings, StreamSafety.Frozen, Streamed;
    Members(f);
    assert Rest(f.sys) == Rest(Abstract(f).sys);
    StreamOrder.OrderKeptIffSpawnOrder(Abstract(f));
  }
}
