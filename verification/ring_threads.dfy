/** Push and Pop of the ring taken apart into their atomic loads, compare-and-swaps, stores
    and additions, for any number of writers and readers in any interleaving, without Reset.
    Memory is sequentially consistent. The loop by which Push re-reads its slot has no effect
    and is left out; the one by which Pop re-reads an empty slot is kept. */
module RingThreads {
  import opened Ring

  /** Where a writer stands inside Push; named after the next thing it does. */
  datatype Writer =
    | WriterIdle
    | LoadState(item: BufferItem)
    | LoadCount(item: BufferItem)
    | Latch(item: BufferItem)
    | LoadHead(item: BufferItem)
    | SwapHead(item: BufferItem, head: int)
    | Store(item: BufferItem, pos: int)
    | AddCount

  /** Where a reader stands inside Pop. */
  datatype Reader =
    | ReaderIdle
    | TestCount
    | LoadTail
    | SwapTail(tail: int)
    | Look(pos: int, tries: nat)
    | Clear(pos: int, item: BufferItem)
    | SubCount(item: BufferItem)

  /** The struct, the threads, and what has happened: items in the order their slots were
      claimed, how many slots readers have claimed, the items returned by completed pops, the items
      whose push has returned an error, and the pops that have found a count of 0. */
  datatype State = State(
    capacity: int,
    slots: seq<BufferItem>,
    head: int,
    tail: int,
    count: int,
    mode: int,
    writers: seq<Writer>,
    readers: seq<Reader>,
    pushed: seq<BufferItem>,
    claimed: nat,
    popped: seq<BufferItem>,
    refused: seq<BufferItem>,
    empties: nat)

  datatype Event =
    | CallPush(i: nat, item: BufferItem)
    | StepWriter(i: nat)
    | CallPop(j: nat)
    | StepReader(j: nat)

  const MAX_RETRY := 3

  ghost predicate WellFormed(s: State) {
    1 <= s.capacity <= MAX_INT32 && |s.slots| == s.capacity
  }

  ghost function Initial(capacity: nat, n: nat, m: nat): State {
    State(capacity, seq(capacity, _ => NIL_ITEM), -1, -1, 0, WRITE_ONLY,
          seq(n, _ => WriterIdle), seq(m, _ => ReaderIdle), [], 0, [], [], 0)
  }

  ghost predicate Enabled(s: State, e: Event) {
    match e
    case CallPush(i, item) => i < |s.writers| && s.writers[i] == WriterIdle && item.ptr != 0
    case StepWriter(i) => i < |s.writers| && s.writers[i] != WriterIdle
    case CallPop(j) => j < |s.readers| && s.readers[j] == ReaderIdle
    case StepReader(j) => j < |s.readers| && s.readers[j] != ReaderIdle
  }

  ghost function SetWriter(s: State, i: nat, w: Writer): State
    requires i < |s.writers|
  {
    s.(writers := s.writers[i := w])
  }

  ghost function SetReader(s: State, j: nat, r: Reader): State
    requires j < |s.readers|
  {
    s.(readers := s.readers[j := r])
  }

  ghost function SetSlot(s: State, pos: int, item: BufferItem): State {
    if 0 <= pos < |s.slots| then s.(slots := s.slots[pos := item]) else s
  }

  ghost function SlotAt(s: State, pos: int): BufferItem {
    if 0 <= pos < |s.slots| then s.slots[pos] else NIL_ITEM
  }

  /** One atomic step of a writer. */
  ghost function WriterStep(s: State, i: nat): State
    requires Enabled(s, StepWriter(i))
  {
    match s.writers[i]
    case LoadState(item) =>
      if s.mode == READ_ONLY then SetWriter(s.(refused := s.refused + [item]), i, WriterIdle)
      else SetWriter(s, i, LoadCount(item))
    case LoadCount(item) => SetWriter(s, i, if s.count >= s.capacity then Latch(item) else LoadHead(item))
    case Latch(item) =>
      var mode := if s.mode == WRITE_ONLY then READ_ONLY else s.mode;
      SetWriter(s.(mode := mode, refused := s.refused + [item]), i, WriterIdle)
    case LoadHead(item) => SetWriter(s, i, SwapHead(item, s.head))
    case SwapHead(item, head) =>
      if s.head == head then
        SetWriter(s.(head := Int32(head + 1), pushed := s.pushed + [item]), i, Store(item, CalcPos(head, s.capacity)))
      else SetWriter(s, i, LoadState(item))
    case Store(item, pos) => SetWriter(SetSlot(s, pos, item), i, AddCount)
    case AddCount => SetWriter(s.(count := Int32(s.count + 1)), i, WriterIdle)
    case WriterIdle => s
  }

  /** One atomic step of a reader. */
  ghost function ReaderStep(s: State, j: nat): State
    requires Enabled(s, StepReader(j))
  {
    match s.readers[j]
    case TestCount =>
      if s.count == 0 then SetReader(s.(empties := s.empties + 1), j, ReaderIdle) else SetReader(s, j, LoadTail)
    case LoadTail => SetReader(s, j, SwapTail(s.tail))
    case SwapTail(tail) =>
      if s.tail == tail then
        SetReader(s.(tail := Int32(tail + 1), claimed := s.claimed + 1), j, Look(CalcPos(tail, s.capacity), 0))
      else SetReader(s, j, TestCount)
    case Look(pos, tries) =>
      var item := SlotAt(s, pos);
      SetReader(s, j, if item.ptr != 0 || tries + 1 >= MAX_RETRY then Clear(pos, item) else Look(pos, tries + 1))
    case Clear(pos, item) => SetReader(SetSlot(s, pos, NIL_ITEM), j, SubCount(item))
    case SubCount(item) => SetReader(s.(count := Int32(s.count - 1), popped := s.popped + [item]), j, ReaderIdle)
    case ReaderIdle => s
  }

  ghost function Next(s: State, e: Event): State
    requires Enabled(s, e)
  {
    match e
    case CallPush(i, item) => SetWriter(s, i, LoadState(item))
    case StepWriter(i) => WriterStep(s, i)
    case CallPop(j) => SetReader(s, j, TestCount)
    case StepReader(j) => ReaderStep(s, j)
  }

  ghost predicate Possible(s: State, es: seq<Event>)
    decreases |es|
  {
    es == [] || (Enabled(s, es[0]) && Possible(Next(s, es[0]), es[1..]))
  }

  ghost function Exec(s: State, es: seq<Event>): State
    requires Possible(s, es)
    decreases |es|
  {
    if es == [] then s else Exec(Next(s, es[0]), es[1..])
  }

  // ---------------------------------------------------------------- threads past the check

  /** The writer has seen room and has not added its item to the count yet. */
  predicate Flying(w: Writer) {
    w.LoadHead? || w.SwapHead? || w.Store? || w.AddCount?
  }

  /** The reader has seen a count other than 0 and has not subtracted from it yet. */
  predicate Diving(r: Reader) {
    !r.ReaderIdle? && !r.TestCount?
  }

  ghost function FlyingCount(ws: seq<Writer>): nat {
    if ws == [] then 0 else FlyingCount(ws[..|ws| - 1]) + if Flying(ws[|ws| - 1]) then 1 else 0
  }

  ghost function DivingCount(rs: seq<Reader>): nat {
    if rs == [] then 0 else DivingCount(rs[..|rs| - 1]) + if Diving(rs[|rs| - 1]) then 1 else 0
  }

  lemma {:induction false} FlyingUpdate(ws: seq<Writer>, i: nat, w: Writer)
    requires i < |ws|
    ensures FlyingCount(ws[i := w]) ==
            FlyingCount(ws) - (if Flying(ws[i]) then 1 else 0) + if Flying(w) then 1 else 0
    ensures FlyingCount(ws) <= |ws|
    decreases |ws|
  {
    var last := |ws| - 1;
    assert ws[i := w][..last] == if i == last then ws[..last] else ws[..last][i := w];
    if i < last {
      FlyingUpdate(ws[..last], i, w);
    } else {
      FlyingAtMost(ws[..last]);
    }
  }

  lemma {:induction false} FlyingAtMost(ws: seq<Writer>)
    ensures FlyingCount(ws) <= |ws|
    decreases |ws|
  {
    if ws != [] {
      FlyingAtMost(ws[..|ws| - 1]);
    }
  }

  lemma {:induction false} DivingUpdate(rs: seq<Reader>, j: nat, r: Reader)
    requires j < |rs|
    ensures DivingCount(rs[j := r]) ==
            DivingCount(rs) - (if Diving(rs[j]) then 1 else 0) + if Diving(r) then 1 else 0
    decreases |rs|
  {
    var last := |rs| - 1;
    assert rs[j := r][..last] == if j == last then rs[..last] else rs[..last][j := r];
    if j < last {
      DivingUpdate(rs[..last], j, r);
    }
  }

  lemma {:induction false} NobodyUnderWay(n: nat, m: nat)
    ensures FlyingCount(seq(n, _ => WriterIdle)) == 0 && DivingCount(seq(m, _ => ReaderIdle)) == 0
    decreases n + m
  {
    if n > 0 {
      NobodyUnderWay(n - 1, m);
      assert seq(n, _ => WriterIdle)[..n - 1] == seq(n - 1, _ => WriterIdle);
    }
    if m > 0 {
      NobodyUnderWay(n, m - 1);
      assert seq(m, _ => ReaderIdle)[..m - 1] == seq(m - 1, _ => ReaderIdle);
    }
  }

  // ---------------------------------------------------------------- the count with one reader

  /** Nothing wraps, the writers under way are within the overshoot, the reader's item is counted. */
  ghost predicate InRange(s: State) {
    && |s.readers| <= 1 && DivingCount(s.readers) <= s.count
    && 0 < |s.writers| && s.count + FlyingCount(s.writers) <= s.capacity + |s.writers| - 1 <= MAX_INT32
  }

  lemma WriterInRange(s: State, i: nat)
    requires InRange(s) && Enabled(s, StepWriter(i))
    ensures InRange(WriterStep(s, i))
  {
    hide CalcPos;
    FlyingUpdate(s.writers, i, WriterStep(s, i).writers[i]);
    FlyingAtMost(WriterStep(s, i).writers);
  }

  lemma ReaderInRange(s: State, j: nat)
    requires InRange(s) && Enabled(s, StepReader(j))
    ensures InRange(ReaderStep(s, j))
  {
    hide CalcPos;
    DivingUpdate(s.readers, j, ReaderStep(s, j).readers[j]);
    FlyingAtMost(s.writers);
  }

  lemma StepInRange(s: State, e: Event)
    requires InRange(s) && Enabled(s, e)
    ensures InRange(Next(s, e))
  {
    match e
    case CallPush(i, item) => FlyingUpdate(s.writers, i, LoadState(item));
    case StepWriter(i) => WriterInRange(s, i);
    case CallPop(j) => DivingUpdate(s.readers, j, TestCount);
    case StepReader(j) => ReaderInRange(s, j);
  }

  lemma {:induction false} RunInRange(s: State, es: seq<Event>)
    requires InRange(s) && Possible(s, es)
    ensures InRange(Exec(s, es)) && |Exec(s, es).writers| == |s.writers| && Exec(s, es).capacity == s.capacity
    decreases |es|
  {
    if es != [] {
      StepInRange(s, es[0]);
      RunInRange(Next(s, es[0]), es[1..]);
    }
  }

  /** With n writers and at most one reader, the count stays between 0 and capacity + n - 1, as
      long as this fits into 32 bits. */
  lemma CountInRange(capacity: nat, n: nat, m: nat, es: seq<Event>)
    requires capacity > 0 && n > 0 && m <= 1 && capacity + n - 1 <= MAX_INT32
    requires Possible(Initial(capacity, n, m), es)
    ensures 0 <= Exec(Initial(capacity, n, m), es).count <= capacity + n - 1
  {
    NobodyUnderWay(n, m);
    RunInRange(Initial(capacity, n, m), es);
    FlyingAtMost(Exec(Initial(capacity, n, m), es).writers);
  }

  lemma {:induction false} CountIsInt32(s: State, es: seq<Event>)
    requires Int32(s.count) == s.count && Possible(s, es)
    ensures Int32(Exec(s, es).count) == Exec(s, es).count
    decreases |es|
  {
    if es != [] {
      CountIsInt32(Next(s, es[0]), es[1..]);
    }
  }

  // ---------------------------------------------------------------- runs that reach a given count

  ghost predicate Reaches(s: State, t: State) {
    exists es :: Possible(s, es) && Exec(s, es) == t
  }

  lemma {:induction false} ExecConcat(s: State, a: seq<Event>, b: seq<Event>)
    requires Possible(s, a) && Possible(Exec(s, a), b)
    ensures Possible(s, a + b) && Exec(s, a + b) == Exec(Exec(s, a), b)
    decreases |a|
  {
    if a == [] {
      assert a + b == b;
    } else {
      assert (a + b)[1..] == a[1..] + b;
      ExecConcat(Next(s, a[0]), a[1..], b);
    }
  }

  lemma ReachesItself(s: State)
    ensures Reaches(s, s)
  {
    assert Possible(s, []) && Exec(s, []) == s;
  }

  lemma ReachesOn(s: State, t: State, u: State)
    requires Reaches(s, t) && Reaches(t, u)
    ensures Reaches(s, u)
  {
    var a :| Possible(s, a) && Exec(s, a) == t;
    var b :| Possible(t, b) && Exec(t, b) == u;
    ExecConcat(s, a, b);
  }

  lemma Step(s: State, t: State, e: Event)
    requires Reaches(s, t) && Enabled(t, e)
    ensures Reaches(s, Next(t, e))
  {
    assert [e][1..] == [] && Possible(Next(t, e), []) && Exec(Next(t, e), []) == Next(t, e);
    hide Next;
    assert Possible(t, [e]) && Exec(t, [e]) == Next(t, e);
    ReachesOn(s, t, Next(t, e));
  }

  /** A writer that starts while there is room gets past the check. */
  lemma PushPasses(s: State, i: nat, item: BufferItem) returns (t: State)
    requires i < |s.writers| && s.writers[i] == WriterIdle && item.ptr != 0
    requires s.mode == WRITE_ONLY && s.count < s.capacity
    ensures Reaches(s, t) && t == SetWriter(s, i, LoadHead(item))
  {
    ReachesItself(s);
    t := s;
    Step(s, t, CallPush(i, item));
    t := Next(t, CallPush(i, item));
    Step(s, t, StepWriter(i));
    t := Next(t, StepWriter(i));
    Step(s, t, StepWriter(i));
    t := Next(t, StepWriter(i));
  }

  /** The ring after a push that claims, stores and counts without interruption. */
  ghost function AfterPush(s: State, item: BufferItem): State {
    SetSlot(s, CalcPos(s.head, s.capacity), item).(
      head := Int32(s.head + 1), count := Int32(s.count + 1), pushed := s.pushed + [item])
  }

  /** A writer past the check that is left alone claims a slot. */
  lemma PushClaims(s: State, i: nat) returns (t: State)
    requires i < |s.writers| && s.writers[i].LoadHead?
    ensures var item := s.writers[i].item;
            Reaches(s, t) && t == SetWriter(s.(head := Int32(s.head + 1), pushed := s.pushed + [item]), i,
                                            Store(item, CalcPos(s.head, s.capacity)))
  {
    hide Reaches, CalcPos;
    ReachesItself(s);
    Step(s, s, StepWriter(i));
    t := Next(s, StepWriter(i));
    Step(s, t, StepWriter(i));
    t := Next(t, StepWriter(i));
  }

  /** A writer that has claimed a slot and is left alone stores its item and adds one to the count. */
  lemma PushStores(s: State, i: nat) returns (t: State)
    requires i < |s.writers| && s.writers[i].Store?
    ensures var stored := SetSlot(s, s.writers[i].pos, s.writers[i].item);
            Reaches(s, t) && t == SetWriter(stored.(count := Int32(s.count + 1)), i, WriterIdle)
  {
    hide Reaches;
    ReachesItself(s);
    Step(s, s, StepWriter(i));
    t := Next(s, StepWriter(i));
    Step(s, t, StepWriter(i));
    t := Next(t, StepWriter(i));
  }

  /** A writer past the check that is then left alone adds one to the count. */
  lemma PushCompletes(s: State, i: nat) returns (t: State)
    requires i < |s.writers| && s.writers[i].LoadHead?
    ensures Reaches(s, t) && t.count == Int32(s.count + 1) && t.writers == s.writers[i := WriterIdle]
    ensures t.readers == s.readers && t.mode == s.mode && t.capacity == s.capacity
    ensures t.pushed == s.pushed + [s.writers[i].item]
    ensures t == SetWriter(AfterPush(s, s.writers[i].item), i, WriterIdle)
  {
    hide Reaches, CalcPos;
    var t1 := PushClaims(s, i);
    t := PushStores(t1, i);
    ReachesOn(s, t1, t);
  }

  /** A reader that starts while the count is not 0, positive or negative, gets past the test. */
  lemma PopPasses(s: State, j: nat) returns (t: State)
    requires j < |s.readers| && s.readers[j] == ReaderIdle && s.count != 0
    ensures Reaches(s, t) && t == SetReader(s, j, LoadTail)
  {
    ReachesItself(s);
    Step(s, s, CallPop(j));
    t := Next(s, CallPop(j));
    Step(s, t, StepReader(j));
    t := Next(t, StepReader(j));
  }

  lemma PopClaims(s: State, j: nat) returns (t: State)
    requires j < |s.readers| && s.readers[j] == LoadTail
    ensures Reaches(s, t) && j < |t.readers| && t.readers == s.readers[j := t.readers[j]]
    ensures t.readers[j].Look? && t.readers[j].tries == 0
    ensures t == s.(tail := t.tail, claimed := t.claimed, readers := t.readers)
  {
    ReachesItself(s);
    Step(s, s, StepReader(j));
    t := Next(s, StepReader(j));
    Step(s, t, StepReader(j));
    t := Next(t, StepReader(j));
  }

  lemma {:induction false} PopLooks(s: State, j: nat) returns (t: State)
    requires j < |s.readers| && s.readers[j].Look? && s.readers[j].tries < MAX_RETRY
    ensures Reaches(s, t) && j < |t.readers| && t.readers[j].Clear?
    ensures t == SetReader(s, j, t.readers[j])
    decreases MAX_RETRY - s.readers[j].tries
  {
    ReachesItself(s);
    Step(s, s, StepReader(j));
    t := Next(s, StepReader(j));
    if t.readers[j].Look? {
      var t1 := t;
      t := PopLooks(t1, j);
      ReachesOn(s, t1, t);
    }
  }

  /** A reader past the test that is then left alone takes one from the count. */
  lemma PopCompletes(s: State, j: nat) returns (t: State)
    requires j < |s.readers| && s.readers[j] == LoadTail
    ensures Reaches(s, t) && t.count == Int32(s.count - 1) && t.readers == s.readers[j := ReaderIdle]
    ensures t.writers == s.writers && t.mode == s.mode && t.capacity == s.capacity && t.pushed == s.pushed
  {
    hide Reaches, CalcPos;
    var t1 := PopClaims(s, j);
    var t2 := PopLooks(t1, j);
    ReachesOn(s, t1, t2);
    Step(s, t2, StepReader(j));
    t := Next(t2, StepReader(j));
    Step(s, t, StepReader(j));
    t := Next(t, StepReader(j));
  }

  const SOME_ITEM := BufferItem(1, 1)

  /** Writers 0..k have passed the check, the others and all readers are idle, with `count` items in. */
  ghost predicate Lined(s: State, n: nat, k: nat, count: int) {
    && |s.writers| == n && k <= n && s.mode == WRITE_ONLY && s.count == count
    && (forall i :: 0 <= i < k ==> s.writers[i].LoadHead?)
    && (forall i :: k <= i < n ==> s.writers[i] == WriterIdle)
  }

  lemma {:induction false} Fill(s: State, n: nat, k: nat) returns (t: State)
    requires n > 0 && Lined(s, n, 0, s.count) && 0 <= s.count && s.count + k <= s.capacity <= MAX_INT32
    ensures Reaches(s, t) && Lined(t, n, 0, s.count + k) && t.capacity == s.capacity && t.readers == s.readers
    decreases k
  {
    ReachesItself(s);
    t := s;
    if k > 0 {
      var t1 := PushPasses(s, 0, SOME_ITEM);
      var t2 := PushCompletes(t1, 0);
      ReachesOn(s, t1, t2);
      t := Fill(t2, n, k - 1);
      ReachesOn(s, t2, t);
    }
  }

  lemma {:induction false} LineUp(s: State, n: nat, k: nat, upTo: nat) returns (t: State)
    requires Lined(s, n, k, s.count) && s.count < s.capacity && k <= upTo <= n
    ensures Reaches(s, t) && Lined(t, n, upTo, s.count) && t.capacity == s.capacity
    decreases upTo - k
  {
    ReachesItself(s);
    t := s;
    if k < upTo {
      var t1 := PushPasses(s, k, SOME_ITEM);
      t := LineUp(t1, n, k + 1, upTo);
      ReachesOn(s, t1, t);
    }
  }

  lemma {:induction false} LetAllFinish(s: State, n: nat, k: nat) returns (t: State)
    requires Lined(s, n, k, s.count)
    ensures Reaches(s, t) && (k > 0 ==> t.count == Int32(s.count + k)) && (k == 0 ==> t == s)
    decreases k
  {
    ReachesItself(s);
    t := s;
    if k > 0 {
      var t1 := PushCompletes(s, k - 1);
      t := LetAllFinish(t1, n, k - 1);
      ReachesOn(s, t1, t);
      Int32Sum(s.count + 1, k - 1);
    }
  }

  /** n writers that all see the last free place count to capacity + n - 1, or to the 32-bit
      number that this wraps to; any smaller number of them may finish first. */
  lemma OvershootReached(capacity: nat, n: nat, m: nat, k: nat) returns (es: seq<Event>)
    requires 0 < capacity <= MAX_INT32 && 0 < k <= n
    ensures Possible(Initial(capacity, n, m), es)
    ensures Exec(Initial(capacity, n, m), es).count == Int32(capacity + k - 1)
  {
    hide Reaches, Lined;
    var s := Initial(capacity, n, m);
    InitiallyLined(capacity, n, m);
    var t1 := Fill(s, n, capacity - 1);
    var t2 := LineUp(t1, n, 0, k);
    var t3 := LetAllFinish(t2, n, k);
    ReachesOn(s, t1, t2);
    ReachesOn(s, t2, t3);
    es := Witness(s, t3);
  }

  lemma InitiallyLined(capacity: nat, n: nat, m: nat)
    ensures Lined(Initial(capacity, n, m), n, 0, 0)
  {
  }

  lemma Witness(s: State, t: State) returns (es: seq<Event>)
    requires Reaches(s, t)
    ensures Possible(s, es) && Exec(s, es) == t
  {
    es :| Possible(s, es) && Exec(s, es) == t;
  }

  /** Below 0, and then above it, a single reader takes the count down, through the smallest
      32-bit number to the largest: Pop only tests for 0. */
  lemma {:induction false} Sink(s: State, depth: nat, k: nat) returns (t: State)
    requires 0 < |s.readers| && s.readers[0] == ReaderIdle && s.count == Int32(0 - 1 - depth) && depth + k < WORD
    ensures Reaches(s, t) && t.count == Int32(0 - 1 - depth - k)
    decreases k
  {
    hide Reaches;
    ReachesItself(s);
    t := s;
    if k > 0 {
      NotZero(depth);
      var t1 := PopPasses(s, 0);
      var t2 := PopCompletes(t1, 0);
      Int32Sum(0 - 1 - depth, -1);
      ReachesOn(s, t1, t2);
      t := Sink(t2, depth + 1, k - 1);
      ReachesOn(s, t2, t);
    }
  }

  lemma NotZero(depth: nat)
    requires depth < WORD - 1
    ensures Int32(0 - 1 - depth) != 0
  {
    assert (0 - 1 - depth) + WORD == (0 - 1 - depth) % WORD;
  }

  /** Two readers that both see the last item take the count to -1, and from there further pops
      take it to any 32-bit number. */
  lemma CountTakesAnyValue(capacity: nat, n: nat, m: nat, value: int) returns (es: seq<Event>)
    requires 0 < capacity <= MAX_INT32 && n > 0 && m >= 2 && Int32(value) == value
    ensures Possible(Initial(capacity, n, m), es)
    ensures Exec(Initial(capacity, n, m), es).count == value
  {
    hide Reaches, Lined;
    var s := Initial(capacity, n, m);
    InitiallyLined(capacity, n, m);
    var t1 := Fill(s, n, 1);
    var t5 := TwoReadersPop(t1);
    var steps := (0 - 1 - value) % WORD;
    var t6 := Sink(t5, 0, steps);
    Int32Turns(value);
    ReachesOn(s, t1, t5);
    ReachesOn(s, t5, t6);
    es := Witness(s, t6);
  }

  lemma Int32Turns(value: int)
    requires Int32(value) == value
    ensures Int32(0 - 1 - (0 - 1 - value) % WORD) == value
  {
  }

  lemma TwoReadersPop(s: State) returns (t: State)
    requires s.count == 1 && |s.readers| >= 2 && s.readers[0] == s.readers[1] == ReaderIdle
    ensures Reaches(s, t) && t.count == -1 && |t.readers| >= 2 && t.readers[0] == ReaderIdle
  {
    hide Reaches;
    var t2 := PopPasses(s, 0);
    var t3 := PopPasses(t2, 1);
    var t4 := PopCompletes(t3, 0);
    t := PopCompletes(t4, 1);
    ReachesOn(s, t2, t3);
    ReachesOn(s, t3, t4);
    ReachesOn(s, t4, t);
  }

  // ---------------------------------------------------------------- exactly when the bounds hold

  /** The count never becomes negative exactly when there is at most one reader and no overshoot
      of the writers wraps. */
  lemma CountNotNegativeIff(capacity: nat, n: nat, m: nat)
    requires 0 < capacity <= MAX_INT32 && n > 0
    ensures (forall es :: Possible(Initial(capacity, n, m), es) ==> Exec(Initial(capacity, n, m), es).count >= 0)
            <==> m <= 1 && capacity + n - 1 <= MAX_INT32
  {
    if m >= 2 {
      var es := CountTakesAnyValue(capacity, n, m, -1);
    } else if capacity + n - 1 > MAX_INT32 {
      var es := OvershootReached(capacity, n, m, MAX_INT32 + 2 - capacity);
    } else {
      forall es | Possible(Initial(capacity, n, m), es) ensures Exec(Initial(capacity, n, m), es).count >= 0 {
        CountInRange(capacity, n, m, es);
      }
    }
  }

  /** The count never exceeds capacity + n - 1 exactly when there is at most one reader, or when
      no 32-bit number does. With two readers the count sinks to the smallest 32-bit number and
      one more pop takes it to the largest. */
  lemma CountWithinOvershootIff(capacity: nat, n: nat, m: nat)
    requires 0 < capacity <= MAX_INT32 && n > 0
    ensures (forall es :: Possible(Initial(capacity, n, m), es) ==>
               Exec(Initial(capacity, n, m), es).count <= capacity + n - 1)
            <==> m <= 1 || capacity + n - 1 >= MAX_INT32
  {
    if capacity + n - 1 >= MAX_INT32 {
      forall es | Possible(Initial(capacity, n, m), es)
        ensures Exec(Initial(capacity, n, m), es).count <= capacity + n - 1
      {
        CountIsInt32(Initial(capacity, n, m), es);
      }
    } else if m >= 2 {
      var es := CountTakesAnyValue(capacity, n, m, MAX_INT32);
    } else {
      forall es | Possible(Initial(capacity, n, m), es)
        ensures Exec(Initial(capacity, n, m), es).count <= capacity + n - 1
      {
        CountInRange(capacity, n, m, es);
      }
    }
  }

  /** The range of the count is what the two bounds say exactly when there is at most one reader
      and the overshoot fits into 32 bits. */
  lemma CountInRangeIff(capacity: nat, n: nat, m: nat)
    requires 0 < capacity <= MAX_INT32 && n > 0
    ensures (forall es :: Possible(Initial(capacity, n, m), es) ==>
               0 <= Exec(Initial(capacity, n, m), es).count <= capacity + n - 1)
            <==> m <= 1 && capacity + n - 1 <= MAX_INT32
  {
    CountNotNegativeIff(capacity, n, m);
    if m <= 1 && capacity + n - 1 <= MAX_INT32 {
      forall es | Possible(Initial(capacity, n, m), es)
        ensures 0 <= Exec(Initial(capacity, n, m), es).count <= capacity + n - 1
      {
        CountInRange(capacity, n, m, es);
      }
    }
  }
}
