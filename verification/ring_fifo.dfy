/** One writer and one reader on the ring, in any interleaving of their atomic steps: a queue. */
module RingFifo {
  import opened Ring
  import opened RingThreads

  /** Items whose slot has been written, items that have been counted, and slots that the
      reader has emptied. */
  ghost function Stored(s: State): int
    requires |s.writers| == 1
  {
    |s.pushed| - if s.writers[0].Store? then 1 else 0
  }

  ghost function Added(s: State): int
    requires |s.writers| == 1
  {
    |s.pushed| - if s.writers[0].Store? || s.writers[0].AddCount? then 1 else 0
  }

  ghost function Cleared(s: State): int
    requires |s.readers| == 1
  {
    s.claimed - if s.readers[0].Look? || s.readers[0].Clear? then 1 else 0
  }

  ghost predicate Counters(s: State) {
    && WellFormed(s) && |s.writers| == 1 && |s.readers| == 1
    && s.count == Added(s) - |s.popped|
    && |s.popped| <= Cleared(s) <= s.claimed <= Added(s)
    && |s.popped| == s.claimed - (if Cleared(s) < s.claimed || s.readers[0].SubCount? then 1 else 0)
    && |s.pushed| <= |s.popped| + s.capacity
    && (s.writers[0].LoadHead? || s.writers[0].SwapHead? ==> |s.pushed| < |s.popped| + s.capacity)
    && (s.readers[0].LoadTail? || s.readers[0].SwapTail? ==> s.claimed < Added(s))
    && s.head == Int32(|s.pushed| - 1) && s.tail == Int32(s.claimed - 1)
    && (s.writers[0].SwapHead? ==> s.writers[0].head == s.head)
    && (s.readers[0].SwapTail? ==> s.readers[0].tail == s.tail)
  }

  /** What the two threads carry with them. */
  ghost predicate Luggage(s: State)
    requires Counters(s)
  {
    var w, r := s.writers[0], s.readers[0];
    && (w.LoadState? || w.LoadCount? || w.LoadHead? || w.SwapHead? ==> w.item.ptr != 0)
    && (w.Store? ==>
          |s.pushed| > 0 && w.pos == Slot(|s.pushed| - 1, s.capacity) && w.item == s.pushed[|s.pushed| - 1])
    && (r.Look? ==> r.pos == Slot(s.claimed - 1, s.capacity) && r.tries == 0)
    && (r.Clear? ==> r.pos == Slot(s.claimed - 1, s.capacity))
    && (r.Clear? || r.SubCount? ==> r.item == s.pushed[s.claimed - 1])
  }

  /** Some stored item that the reader has not taken out yet sits in the slot. */
  ghost predicate Taken(s: State, pos: int)
    requires Counters(s)
  {
    exists k :: Cleared(s) <= k < Stored(s) && Slot(k, s.capacity) == pos
  }

  ghost predicate SlotsHold(s: State)
    requires Counters(s)
  {
    && (forall k :: Cleared(s) <= k < Stored(s) ==> s.slots[Slot(k, s.capacity)] == s.pushed[k])
    && (forall pos :: 0 <= pos < s.capacity && !Taken(s, pos) ==> s.slots[pos] == NIL_ITEM)
  }

  ghost predicate Items(s: State) {
    && |s.popped| <= |s.pushed| && s.popped == s.pushed[..|s.popped|]
    && (forall k :: 0 <= k < |s.pushed| ==> s.pushed[k].ptr != 0)
  }

  ghost predicate Fifo(s: State) {
    Counters(s) && Luggage(s) && SlotsHold(s) && Items(s)
  }

  /** The slot of the item that is being stored is empty: no unread item is overwritten. */
  lemma StoreFindsEmptySlot(s: State)
    requires Counters(s) && Luggage(s) && SlotsHold(s) && s.writers[0].Store? && Sound(s)
    ensures 0 <= s.writers[0].pos < s.capacity && !Taken(s, s.writers[0].pos)
    ensures s.slots[s.writers[0].pos] == NIL_ITEM
  {
    SafeNextSlot(Cleared(s), Stored(s), s.capacity);
  }

  /** The slot of the item that is being read has been written: a reader never waits for it. */
  lemma LookFindsItem(s: State)
    requires Fifo(s) && s.readers[0].Look?
    ensures 0 < s.claimed <= |s.pushed|
    ensures SlotAt(s, s.readers[0].pos) == s.pushed[s.claimed - 1] && s.pushed[s.claimed - 1].ptr != 0
  {
  }

  /** The indices of all pushes so far select slots of their own: see Ring.IndexSafe. */
  ghost predicate Sound(s: State) {
    |s.pushed| == 0 || IndexSafe(|s.pushed| - 1, s.capacity)
  }

  // ---------------------------------------------------------------- every step keeps the invariant

  lemma SlotsSame(s: State, t: State)
    requires Counters(s) && SlotsHold(s) && Counters(t) && t.slots == s.slots && t.capacity == s.capacity
    requires Cleared(t) == Cleared(s) && Stored(t) == Stored(s) && Stored(s) <= |s.pushed| <= |t.pushed|
    requires forall k :: 0 <= k < |s.pushed| ==> t.pushed[k] == s.pushed[k]
    ensures SlotsHold(t)
  {
  }

  lemma StoreKeepsSlots(s: State, t: State)
    requires Counters(s) && Luggage(s) && SlotsHold(s) && s.writers[0].Store? && Sound(s)
    requires Enabled(s, StepWriter(0)) && t == WriterStep(s, 0) && Counters(t)
    ensures SlotsHold(t)
  {
    hide Int32, CalcPos, Slot;
    var p := |s.pushed| - 1;
    var pos := Slot(p, s.capacity);
    StoreFindsEmptySlot(s);
    assert t.slots == s.slots[pos := s.pushed[p]] && Stored(t) == p + 1 && Cleared(t) == Cleared(s);
    forall k | Cleared(t) <= k < Stored(t) ensures t.slots[Slot(k, t.capacity)] == t.pushed[k] {
      assert k < p ==> Taken(s, Slot(k, s.capacity));
    }
    assert Taken(t, Slot(p, t.capacity));
    forall k | Cleared(s) <= k < Stored(s) ensures Taken(t, Slot(k, s.capacity)) {}
  }

  lemma ClearKeepsSlots(s: State, t: State)
    requires Counters(s) && Luggage(s) && SlotsHold(s) && s.readers[0].Clear? && Sound(s)
    requires Enabled(s, StepReader(0)) && t == ReaderStep(s, 0) && Counters(t)
    ensures SlotsHold(t)
  {
    hide Int32, CalcPos, Slot;
    var q := s.claimed - 1;
    var pos := Slot(q, s.capacity);
    forall k | q < k < Stored(s) ensures Slot(k, s.capacity) != pos {
      SafeNextSlot(q, k, s.capacity);
    }
    forall k | q < k < Stored(s) ensures Taken(t, Slot(k, s.capacity)) {}
  }

  lemma WriterCounts(s: State)
    requires Counters(s) && Enabled(s, StepWriter(0))
    ensures Counters(WriterStep(s, 0))
  {
    hide Int32, CalcPos;
    Int32Sum(|s.pushed| - 1, 1);
  }

  lemma WriterCarries(s: State, t: State)
    requires Counters(s) && Luggage(s) && Enabled(s, StepWriter(0)) && t == WriterStep(s, 0) && Counters(t)
    ensures Luggage(t)
  {
    if s.writers[0].SwapHead? {
      ClaimCarries(s, t);
    } else {
      hide Int32, CalcPos, Slot;
    }
  }

  lemma ClaimCarries(s: State, t: State)
    requires Counters(s) && Luggage(s) && s.writers[0].SwapHead?
    requires Enabled(s, StepWriter(0)) && t == WriterStep(s, 0) && Counters(t)
    ensures Luggage(t)
  {
    hide Int32, CalcPos;
  }

  lemma WriterItems(s: State)
    requires Counters(s) && Luggage(s) && Items(s) && Enabled(s, StepWriter(0))
    ensures Items(WriterStep(s, 0))
  {
    hide Int32, CalcPos, Slot;
  }

  lemma WriterSlots(s: State, t: State)
    requires Fifo(s) && Sound(s) && Enabled(s, StepWriter(0)) && t == WriterStep(s, 0)
    requires Counters(t)
    ensures SlotsHold(t)
  {
    hide Int32, CalcPos, Slot, SlotsHold, Luggage, Items;
    if s.writers[0].Store? {
      StoreKeepsSlots(s, t);
    } else {
      SlotsSame(s, t);
    }
  }

  lemma WriterKeeps(s: State)
    requires Fifo(s) && Sound(s) && Enabled(s, StepWriter(0))
    ensures Fifo(WriterStep(s, 0))
  {
    hide Counters, Luggage, SlotsHold, Items, WriterStep;
    WriterCounts(s);
    WriterCarries(s, WriterStep(s, 0));
    WriterItems(s);
    WriterSlots(s, WriterStep(s, 0));
  }

  lemma ReaderCounts(s: State)
    requires Counters(s) && Enabled(s, StepReader(0))
    requires s.readers[0].Look? ==> SlotAt(s, s.readers[0].pos).ptr != 0
    ensures Counters(ReaderStep(s, 0))
  {
    hide Int32, CalcPos;
    Int32Sum(s.claimed - 1, 1);
  }

  lemma ReaderCarries(s: State)
    requires Counters(s) && Luggage(s) && Enabled(s, StepReader(0)) && Counters(ReaderStep(s, 0))
    requires s.readers[0].Look? ==> s.claimed > 0 && SlotAt(s, s.readers[0].pos) == s.pushed[s.claimed - 1]
    requires s.readers[0].Look? ==> SlotAt(s, s.readers[0].pos).ptr != 0
    ensures Luggage(ReaderStep(s, 0))
  {
    hide Int32, CalcPos;
  }

  lemma ReaderItems(s: State)
    requires Counters(s) && Luggage(s) && Items(s) && Enabled(s, StepReader(0))
    ensures Items(ReaderStep(s, 0))
  {
    hide Int32, CalcPos, Slot;
  }

  lemma ReaderSlots(s: State, t: State)
    requires Fifo(s) && Sound(s) && Enabled(s, StepReader(0)) && t == ReaderStep(s, 0)
    requires Counters(t)
    ensures SlotsHold(t)
  {
    hide Int32, CalcPos, Slot, SlotsHold, Luggage, Items;
    if s.readers[0].Clear? {
      ClearKeepsSlots(s, t);
    } else {
      SlotsSame(s, t);
    }
  }

  lemma ReaderKeeps(s: State)
    requires Fifo(s) && Sound(s) && Enabled(s, StepReader(0))
    ensures Fifo(ReaderStep(s, 0))
  {
    hide Counters, Luggage, SlotsHold, Items, ReaderStep, SlotAt;
    if s.readers[0].Look? {
      LookFindsItem(s);
    }
    ReaderCounts(s);
    ReaderCarries(s);
    ReaderItems(s);
    ReaderSlots(s, ReaderStep(s, 0));
  }

  lemma CallKeeps(s: State, e: Event)
    requires Fifo(s) && Enabled(s, e) && (e.CallPush? || e.CallPop?)
    ensures Fifo(Next(s, e))
  {
    hide Int32, CalcPos, Slot, SlotsHold;
    assert Counters(Next(s, e)) && Luggage(Next(s, e));
    SlotsSame(s, Next(s, e));
  }

  lemma StepKeeps(s: State, e: Event)
    requires Fifo(s) && Sound(s) && Enabled(s, e)
    ensures Fifo(Next(s, e)) && Next(s, e).capacity == s.capacity
  {
    hide Luggage, SlotsHold;
    match e
    case StepWriter(i) => WriterKeeps(s);
    case StepReader(j) => ReaderKeeps(s);
    case _ => CallKeeps(s, e);
  }

  lemma {:induction false} PushedGrows(s: State, es: seq<Event>)
    requires Possible(s, es)
    ensures |s.pushed| <= |Exec(s, es).pushed| && Exec(s, es).capacity == s.capacity
    decreases |es|
  {
    if es != [] {
      PushedGrows(Next(s, es[0]), es[1..]);
    }
  }

  lemma {:induction false} RunKeeps(s: State, es: seq<Event>)
    requires Fifo(s) && Possible(s, es) && Sound(Exec(s, es))
    ensures Fifo(Exec(s, es))
    decreases |es|
  {
    if es != [] {
      PushedGrows(s, es);
      StepKeeps(s, es[0]);
      RunKeeps(Next(s, es[0]), es[1..]);
    }
  }

  /** The claims about one state of a run. */
  ghost predicate Queue(s: State) {
    && |s.writers| == 1 && |s.readers| == 1
    // the k-th completed pop has returned the k-th pushed item
    && |s.popped| <= |s.pushed| && s.popped == s.pushed[..|s.popped|]
    && 0 <= s.count <= |s.pushed| - |s.popped| <= s.capacity
    && (s.writers[0] == WriterIdle && s.readers[0] == ReaderIdle ==> s.count == |s.pushed| - |s.popped|)
    // Push writes to an empty slot, and Pop reads from one that has been written
    && (s.writers[0].Store? ==> SlotAt(s, s.writers[0].pos) == NIL_ITEM)
    && (s.readers[0].Look? ==> SlotAt(s, s.readers[0].pos).ptr != 0)
  }

  /** With one writer and one reader, interleaved at every load, swap, store and addition, the
      ring is a queue of at most `capacity` items, as long as its indices are sound. */
  lemma OneWriterOneReaderIsQueue(capacity: nat, es: seq<Event>)
    requires 0 < capacity <= MAX_INT32 && Possible(Initial(capacity, 1, 1), es)
    requires Sound(Exec(Initial(capacity, 1, 1), es))
    ensures Queue(Exec(Initial(capacity, 1, 1), es))
  {
    var s := Initial(capacity, 1, 1);
    assert Fifo(s);
    RunKeeps(s, es);
    PushedGrows(s, es);
    var t := Exec(s, es);
    if t.writers[0].Store? {
      StoreFindsEmptySlot(t);
    }
    if t.readers[0].Look? {
      LookFindsItem(t);
    }
  }

  // ---------------------------------------------------------------- when the indices wrap

  /** Nothing is under way and Push is not latched. */
  ghost predicate Quiet(s: State) {
    Fifo(s) && s.writers[0] == WriterIdle && s.readers[0] == ReaderIdle && s.mode == WRITE_ONLY
  }

  lemma FifoReached(s: State, t: State)
    requires Fifo(s) && Reaches(s, t) && Sound(t)
    ensures Fifo(t)
  {
    var es :| Possible(s, es) && Exec(s, es) == t;
    PushedGrows(s, es);
    RunKeeps(s, es);
  }

  lemma PushNow(s: State) returns (t: State)
    requires Quiet(s) && |s.pushed| < |s.popped| + s.capacity && IndexSafe(|s.pushed|, s.capacity)
    ensures Reaches(s, t) && Quiet(t) && t.capacity == s.capacity
    ensures |t.pushed| == |s.pushed| + 1 && |t.popped| == |s.popped|
  {
    hide Reaches, Int32, CalcPos, Slot, SlotsHold, Luggage;
    var t1 := PushPasses(s, 0, SOME_ITEM);
    t := PushCompletes(t1, 0);
    ReachesOn(s, t1, t);
    FifoReached(s, t);
  }

  lemma PopNow(s: State) returns (t: State)
    requires Quiet(s) && |s.popped| < |s.pushed| && Sound(s)
    ensures Reaches(s, t) && Quiet(t) && t.capacity == s.capacity
    ensures |t.pushed| == |s.pushed| && |t.popped| == |s.popped| + 1
  {
    hide Reaches, Int32, CalcPos, Slot, SlotsHold, Luggage;
    var t1 := PopPasses(s, 0);
    t := PopCompletes(t1, 0);
    ReachesOn(s, t1, t);
    FifoReached(s, t);
  }

  /** Pushing and popping in turn, `k` times. */
  lemma {:induction false} Cycle(s: State, k: nat) returns (t: State)
    requires Quiet(s) && 0 < s.capacity && |s.pushed| == |s.popped|
    requires k == 0 || IndexSafe(|s.pushed| + k - 1, s.capacity)
    ensures Reaches(s, t) && Quiet(t) && t.capacity == s.capacity
    ensures |t.pushed| == |t.popped| == |s.pushed| + k
    decreases k
  {
    hide Fifo, Reaches;
    ReachesItself(s);
    t := s;
    if k > 0 {
      var t1 := PushNow(s);
      var t2 := PopNow(t1);
      t := Cycle(t2, k - 1);
      ReachesOn(s, t1, t2);
      ReachesOn(s, t2, t);
    }
  }

  lemma {:induction false} FillUp(s: State, k: nat) returns (t: State)
    requires Quiet(s) && |s.pushed| + k <= |s.popped| + s.capacity
    requires k == 0 || IndexSafe(|s.pushed| + k - 1, s.capacity)
    ensures Reaches(s, t) && Quiet(t) && t.capacity == s.capacity
    ensures |t.pushed| == |s.pushed| + k && |t.popped| == |s.popped|
    decreases k
  {
    hide Fifo, Reaches;
    ReachesItself(s);
    t := s;
    if k > 0 {
      var t1 := PushNow(s);
      t := FillUp(t1, k - 1);
      ReachesOn(s, t1, t);
    }
  }

  /** A writer alone gets as far as the store. */
  lemma PushStarts(s: State) returns (t: State)
    requires Quiet(s) && |s.pushed| < |s.popped| + s.capacity
    ensures Reaches(s, t) && t == s.(head := t.head, pushed := s.pushed + [SOME_ITEM], writers := t.writers)
    ensures |t.writers| == 1 && t.writers[0] == Store(SOME_ITEM, Slot(|s.pushed|, s.capacity))
  {
    hide Reaches, Int32, CalcPos, SlotsHold;
    t := PushPasses(s, 0, SOME_ITEM);
    Step(s, t, StepWriter(0));
    t := Next(t, StepWriter(0));
    Step(s, t, StepWriter(0));
    t := Next(t, StepWriter(0));
    assert CalcPos(s.head, s.capacity) == Slot(|s.pushed|, s.capacity);
  }

  /** The writer is about to store into a slot that holds an item. */
  ghost predicate StoresOnItem(s: State, i: nat) {
    i < |s.writers| && s.writers[i].Store? && SlotAt(s, s.writers[i].pos).ptr != 0
  }

  lemma InitiallyQuiet(capacity: nat)
    requires 0 < capacity <= MAX_INT32
    ensures Quiet(Initial(capacity, 1, 1))
  {
  }

  lemma PushOverwrites(s: State) returns (t: State)
    requires Quiet(s) && |s.pushed| < |s.popped| + s.capacity
    requires !NextSlotFree(|s.popped|, |s.pushed|, s.capacity)
    ensures Reaches(s, t) && !Queue(t) && StoresOnItem(t, 0)
  {
    hide Reaches, Slot, NextSlotFree;
    t := PushStarts(s);
    OverwritesUnread(s, |s.popped|);
    assert SlotAt(t, Slot(|s.pushed|, s.capacity)) == SlotAt(s, Slot(|s.pushed|, s.capacity));
  }

  /** If the capacity does not divide 2^32, some push stores on top of an unread item. */
  lemma WrapOverwrites(capacity: nat) returns (es: seq<Event>)
    requires 0 < capacity <= MAX_INT32 && WORD % capacity != 0
    ensures Possible(Initial(capacity, 1, 1), es) && !Queue(Exec(Initial(capacity, 1, 1), es))
    ensures StoresOnItem(Exec(Initial(capacity, 1, 1), es), 0)
  {
    hide Reaches, Slot, NextSlotFree, SlotAt, Possible, Exec, Fifo, Queue, StoresOnItem;
    var s := Initial(capacity, 1, 1);
    InitiallyQuiet(capacity);
    var popped, pushed := WrapCollides(capacity);
    var t1 := Cycle(s, popped);
    var t2 := FillUp(t1, pushed - popped);
    var t3 := PushOverwrites(t2);
    ReachesOn(s, t1, t2);
    ReachesOn(s, t2, t3);
    es := Witness(s, t3);
  }

  lemma OverwritesUnread(s: State, popped: nat)
    requires Quiet(s) && popped == |s.popped| && !NextSlotFree(popped, |s.pushed|, s.capacity)
    ensures SlotAt(s, Slot(|s.pushed|, s.capacity)).ptr != 0
  {
    hide Slot;
    var j :| popped <= j < |s.pushed| && Slot(j, s.capacity) == Slot(|s.pushed|, s.capacity);
    assert s.slots[Slot(j, s.capacity)] == s.pushed[j];
  }

  /** The ring is a queue in every run, however long, exactly when its capacity divides 2^32. */
  lemma QueueForeverIffCapacityDividesWord(capacity: nat)
    requires 0 < capacity <= MAX_INT32
    ensures (forall es :: Possible(Initial(capacity, 1, 1), es) ==> Queue(Exec(Initial(capacity, 1, 1), es)))
            <==> WORD % capacity == 0
  {
    if WORD % capacity == 0 {
      forall es | Possible(Initial(capacity, 1, 1), es) ensures Queue(Exec(Initial(capacity, 1, 1), es)) {
        PushedGrows(Initial(capacity, 1, 1), es);
        OneWriterOneReaderIsQueue(capacity, es);
      }
    } else {
      var es := WrapOverwrites(capacity);
    }
  }
}
