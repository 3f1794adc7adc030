/** Several writers on the ring: exactly when a push stores on top of an item nobody has read, and
    a run of two writers that loses one. */
module RingLosses {
  import opened Ring
  import opened RingThreads
  import opened RingFifo

  /** No writer is about to store into a slot that holds an item. */
  ghost predicate StoresIntoEmpty(s: State) {
    forall i: nat :: !StoresOnItem(s, i)
  }

  // ---------------------------------------------------------------- two writers

  /** `k` items have been pushed one after the other, `x` first, and nothing has been popped. */
  ghost predicate Loaded(s: State, k: nat, x: BufferItem) {
    && WellFormed(s) && |s.pushed| == k <= s.capacity && s.count == k && s.head == k - 1
    && s.popped == [] && s.refused == [] && s.mode == WRITE_ONLY
    && (forall pos :: 0 <= pos < s.capacity && pos != Slot(0, s.capacity) ==> s.slots[pos] != x)
    && (k > 0 ==> s.pushed[0] == x == s.slots[Slot(0, s.capacity)])
  }

  /** One more push, `x` if it is the first. */
  lemma PushLoads(s: State, k: nat, x: BufferItem, y: BufferItem)
    requires Loaded(s, k, x) && k < s.capacity && x != y
    ensures Loaded(AfterPush(s, if k == 0 then x else y), k + 1, x)
  {
    hide CalcPos;
    if k > 0 {
      SafeNextSlot(0, k, s.capacity);
    }
  }

  ghost predicate AllIdle(s: State, n: nat) {
    |s.writers| == n && forall i :: 0 <= i < n ==> s.writers[i] == WriterIdle
  }

  lemma {:induction false} Loads(s: State, n: nat, k: nat, upTo: nat, x: BufferItem, y: BufferItem) returns (t: State)
    requires Loaded(s, k, x) && AllIdle(s, n) && n > 0 && k <= upTo <= s.capacity
    requires x != y && x.ptr != 0 && y.ptr != 0
    ensures Reaches(s, t) && Loaded(t, upTo, x) && AllIdle(t, n) && t.capacity == s.capacity
    decreases upTo - k
  {
    hide Reaches, CalcPos;
    ReachesItself(s);
    t := s;
    if k < upTo {
      var item := if k == 0 then x else y;
      var t1 := PushPasses(s, 0, item);
      var t2 := PushCompletes(t1, 0);
      ReachesOn(s, t1, t2);
      PushLoads(s, k, x, y);
      t := Loads(t2, n, k + 1, upTo, x, y);
      ReachesOn(s, t2, t);
    }
  }

  lemma SlotsMeet(capacity: int)
    requires 0 < capacity <= MAX_INT32
    ensures Slot(capacity, capacity) == Slot(0, capacity)
  {
    SlotValue(capacity, capacity);
    SlotValue(0, capacity);
    ResidueShift(-1, 1, capacity);
  }

  /** With one place left, two writers pass the check; the second one claims the slot of the first item. */
  lemma Collide(capacity: nat, n: nat, m: nat, x: BufferItem, y: BufferItem) returns (t: State)
    requires 0 < capacity <= MAX_INT32 && n >= 2 && x != y && x.ptr != 0 && y.ptr != 0
    ensures Reaches(Initial(capacity, n, m), t) && StoresOnItem(t, 1) && |t.slots| == capacity
    ensures |t.writers| == n && t.writers[1] == Store(y, Slot(0, capacity)) && t.popped == []
    ensures forall i :: 0 <= i < n && i != 1 ==> t.writers[i] == WriterIdle
    ensures |t.pushed| == capacity + 1 && t.pushed[0] == x && t.count == capacity && t.refused == []
    ensures forall pos :: 0 <= pos < capacity && pos != Slot(0, capacity) ==> t.slots[pos] != x
  {
    hide Reaches, CalcPos;
    var s := Initial(capacity, n, m);
    var t1 := Loads(s, n, 0, capacity - 1, x, y);
    var t2 := PushPasses(t1, 1, y);
    var item := if capacity == 1 then x else y;
    var t3 := PushPasses(t2, 0, item);
    var t4 := PushCompletes(t3, 0);
    PushLoads(t1, capacity - 1, x, y);
    SlotsMeet(capacity);
    t := PushClaims(t4, 1);
    ReachesOn(s, t1, t2);
    ReachesOn(s, t2, t3);
    ReachesOn(s, t3, t4);
    ReachesOn(s, t4, t);
  }

  /** Two writers lose an item, without any rotation: all pushes have been accepted and none is under
      way, nothing has been read, and the first item is in no slot. */
  lemma TwoWritersLose(capacity: nat, n: nat, m: nat, x: BufferItem, y: BufferItem) returns (es: seq<Event>)
    requires 0 < capacity <= MAX_INT32 && n >= 2 && x != y && x.ptr != 0 && y.ptr != 0
    ensures Possible(Initial(capacity, n, m), es)
    ensures var t := Exec(Initial(capacity, n, m), es);
            AllIdle(t, n) && t.popped == [] && t.refused == [] && x in t.pushed && x !in t.slots
            && t.count == Int32(|t.pushed|)
  {
    hide Reaches, Slot;
    var t1 := Collide(capacity, n, m, x, y);
    var t := PushStores(t1, 1);
    assert t.pushed[0] == x;
    ReachesOn(Initial(capacity, n, m), t1, t);
    es := Witness(Initial(capacity, n, m), t);
  }

  // ---------------------------------------------------------------- exactly when no item is overwritten

  lemma {:induction false} SameThreads(s: State, es: seq<Event>)
    requires Possible(s, es)
    ensures |Exec(s, es).writers| == |s.writers|
    decreases |es|
  {
    if es != [] {
      SameThreads(Next(s, es[0]), es[1..]);
    }
  }

  /** With n writers and one reader, every push of every run stores into an empty slot exactly when
      there is at most one writer and wrapping indices do no harm. */
  lemma StoresIntoEmptyIff(capacity: nat, n: nat)
    requires 0 < capacity <= MAX_INT32
    ensures (forall es :: Possible(Initial(capacity, n, 1), es) ==> StoresIntoEmpty(Exec(Initial(capacity, n, 1), es)))
            <==> n == 0 || (n == 1 && WORD % capacity == 0)
  {
    if n == 0 || (n == 1 && WORD % capacity == 0) {
      forall es | Possible(Initial(capacity, n, 1), es) ensures StoresIntoEmpty(Exec(Initial(capacity, n, 1), es)) {
        SameThreads(Initial(capacity, n, 1), es);
        if n == 1 {
          QueueForeverIffCapacityDividesWord(capacity);
          assert Queue(Exec(Initial(capacity, 1, 1), es));
        }
      }
    } else if n == 1 {
      var es := WrapOverwrites(capacity);
    } else {
      var t := Collide(capacity, n, 1, BufferItem(1, 1), BufferItem(2, 1));
      var es := Witness(Initial(capacity, n, 1), t);
      assert StoresOnItem(t, 1);
    }
  }
}
