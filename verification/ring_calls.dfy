/** Single calls of Push and Pop on the ring of atomic steps: what a call does that nothing
    interrupts, and what becomes of the calls when many threads interrupt each other. */
module RingCalls {
  import opened Ring
  import opened RingThreads
  import opened RingFifo

  // ---------------------------------------------------------------- calls that nothing interrupts

  ghost predicate OnlyWriter(i: nat, es: seq<Event>) {
    forall k :: 0 <= k < |es| ==> (es[k].CallPush? || es[k].StepWriter?) && es[k].i == i
  }

  ghost predicate OnlyReader(j: nat, es: seq<Event>) {
    forall k :: 0 <= k < |es| ==> (es[k].CallPop? || es[k].StepReader?) && es[k].j == j
  }

  /** The one writer alone, or the one reader alone, leads from the one state to the other. */
  ghost predicate WriterAlone(s: State, i: nat, t: State) {
    exists es :: Possible(s, es) && OnlyWriter(i, es) && Exec(s, es) == t
  }

  ghost predicate ReaderAlone(s: State, j: nat, t: State) {
    exists es :: Possible(s, es) && OnlyReader(j, es) && Exec(s, es) == t
  }

  lemma Append(s: State, es: seq<Event>, e: Event)
    requires Possible(s, es) && Enabled(Exec(s, es), e)
    ensures Possible(s, es + [e]) && Exec(s, es + [e]) == Next(Exec(s, es), e)
  {
    var t := Exec(s, es);
    assert [e][1..] == [] && Exec(Next(t, e), []) == Next(t, e);
    ExecConcat(s, es, [e]);
  }

  lemma WriterOn(s: State, i: nat, t: State, e: Event) returns (t': State)
    requires WriterAlone(s, i, t) && Enabled(t, e) && OnlyWriter(i, [e])
    ensures WriterAlone(s, i, t') && t' == Next(t, e)
  {
    var es :| Possible(s, es) && OnlyWriter(i, es) && Exec(s, es) == t;
    Append(s, es, e);
    assert [e][0] == e && OnlyWriter(i, es + [e]);
    t' := Next(t, e);
  }

  lemma ReaderOn(s: State, j: nat, t: State, e: Event) returns (t': State)
    requires ReaderAlone(s, j, t) && Enabled(t, e) && OnlyReader(j, [e])
    ensures ReaderAlone(s, j, t') && t' == Next(t, e)
  {
    var es :| Possible(s, es) && OnlyReader(j, es) && Exec(s, es) == t;
    Append(s, es, e);
    assert [e][0] == e && OnlyReader(j, es + [e]);
    t' := Next(t, e);
  }

  lemma NothingYet(s: State, i: nat)
    ensures WriterAlone(s, i, s) && ReaderAlone(s, i, s)
  {
    assert Possible(s, []) && OnlyWriter(i, []) && OnlyReader(i, []) && Exec(s, []) == s;
  }

  /** Push run alone, in any state of the ring and whatever the other threads are at: refused by a
      read-only ring, refused and latched at capacity, and otherwise stored in the slot of `head`. */
  lemma LonePush(s: State, i: nat, item: BufferItem) returns (t: State)
    requires WellFormed(s) && i < |s.writers| && s.writers[i] == WriterIdle && item.ptr != 0
    ensures WriterAlone(s, i, t)
    ensures s.mode == READ_ONLY ==> t == s.(refused := s.refused + [item])
    ensures s.mode != READ_ONLY && s.count >= s.capacity ==>
      t == s.(refused := s.refused + [item], mode := if s.mode == WRITE_ONLY then READ_ONLY else s.mode)
    ensures s.mode != READ_ONLY && s.count < s.capacity ==>
      t == s.(slots := s.slots[s.head % s.capacity := item], head := Int32(s.head + 1), count := Int32(s.count + 1),
              pushed := s.pushed + [item])
  {
    hide WriterAlone, CalcPos, Int32;
    NothingYet(s, i);
    t := WriterOn(s, i, s, CallPush(i, item));
    t := WriterOn(s, i, t, StepWriter(i));
    if s.mode == READ_ONLY {
      assert t.writers == s.writers;
    } else {
      t := WriterOn(s, i, t, StepWriter(i));
      if s.count >= s.capacity {
        t := WriterOn(s, i, t, StepWriter(i));
        assert t.writers == s.writers;
      } else {
        t := LoneClaim(s, i, t);
      }
    }
  }

  lemma LoneClaim(s: State, i: nat, f: State) returns (t: State)
    requires WellFormed(s) && i < |s.writers| && s.writers[i] == WriterIdle
    requires WriterAlone(s, i, f) && i < |f.writers| && f.writers[i].LoadHead? && f == SetWriter(s, i, f.writers[i])
    ensures WriterAlone(s, i, t)
    ensures var item := f.writers[i].item;
            t == s.(slots := s.slots[s.head % s.capacity := item], head := Int32(s.head + 1),
                    count := Int32(s.count + 1), pushed := s.pushed + [item])
  {
    hide WriterAlone, CalcPos, Int32;
    CalcPosIsEuclidean(s.head, s.capacity);
    t := WriterOn(s, i, f, StepWriter(i));
    t := WriterOn(s, i, t, StepWriter(i));
    t := WriterOn(s, i, t, StepWriter(i));
    t := WriterOn(s, i, t, StepWriter(i));
    assert t.writers == s.writers;
  }

  /** Pop run alone: nothing from a ring with a count of 0, and otherwise what the slot of `tail`
      holds, which is emptied. */
  lemma LonePop(s: State, j: nat) returns (t: State)
    requires WellFormed(s) && j < |s.readers| && s.readers[j] == ReaderIdle
    ensures ReaderAlone(s, j, t)
    ensures s.count == 0 ==> t == s.(empties := s.empties + 1)
    ensures s.count != 0 ==>
      var slot := s.tail % s.capacity;
      t == s.(slots := s.slots[slot := NIL_ITEM], tail := Int32(s.tail + 1), count := Int32(s.count - 1),
              claimed := s.claimed + 1, popped := s.popped + [s.slots[slot]])
  {
    hide ReaderAlone, CalcPos, Int32;
    NothingYet(s, j);
    t := ReaderOn(s, j, s, CallPop(j));
    t := ReaderOn(s, j, t, StepReader(j));
    if s.count == 0 {
      assert t.readers == s.readers;
    } else {
      assert t == SetReader(s, j, LoadTail);
      t := LoneTake(s, j, t);
    }
  }

  lemma LoneTake(s: State, j: nat, f: State) returns (t: State)
    requires WellFormed(s) && j < |s.readers| && s.readers[j] == ReaderIdle
    requires ReaderAlone(s, j, f) && f == SetReader(s, j, LoadTail)
    ensures ReaderAlone(s, j, t)
    ensures var slot := s.tail % s.capacity;
            t == s.(slots := s.slots[slot := NIL_ITEM], tail := Int32(s.tail + 1), count := Int32(s.count - 1),
                    claimed := s.claimed + 1, popped := s.popped + [s.slots[slot]])
  {
    hide ReaderAlone, CalcPos, Int32;
    CalcPosIsEuclidean(s.tail, s.capacity);
    t := ReaderOn(s, j, f, StepReader(j));
    t := ReaderOn(s, j, t, StepReader(j));
    var claimed := s.(tail := Int32(s.tail + 1), claimed := s.claimed + 1);
    assert t == SetReader(claimed, j, Look(s.tail % s.capacity, 0));
    t := LoneLooks(s, j, t);
    t := LoneClear(s, j, t);
    assert t.readers == s.readers;
  }

  lemma LoneClear(s: State, j: nat, f: State) returns (t: State)
    requires ReaderAlone(s, j, f) && j < |f.readers| && f.readers[j].Clear? && 0 <= f.readers[j].pos < |f.slots|
    ensures ReaderAlone(s, j, t)
    ensures var Clear(pos, item) := f.readers[j];
            t == SetReader(f.(slots := f.slots[pos := NIL_ITEM], count := Int32(f.count - 1), popped := f.popped + [item]),
                           j, ReaderIdle)
  {
    hide ReaderAlone, Int32;
    t := ReaderOn(s, j, f, StepReader(j));
    t := ReaderOn(s, j, t, StepReader(j));
    assert t.readers == f.readers[j := ReaderIdle];
  }

  /** The looks at the claimed slot: one if it holds an item, and three if it is empty. */
  lemma LoneLooks(s: State, j: nat, f: State) returns (t: State)
    requires ReaderAlone(s, j, f) && j < |f.readers| && f.readers[j].Look? && f.readers[j].tries == 0
    ensures ReaderAlone(s, j, t)
    ensures var pos := f.readers[j].pos; t == SetReader(f, j, Clear(pos, SlotAt(f, pos)))
  {
    hide ReaderAlone;
    t := ReaderOn(s, j, f, StepReader(j));
    if SlotAt(f, f.readers[j].pos).ptr == 0 {
      t := ReaderOn(s, j, t, StepReader(j));
      t := ReaderOn(s, j, t, StepReader(j));
    }
    assert t.readers == f.readers[j := Clear(f.readers[j].pos, SlotAt(f, f.readers[j].pos))];
  }

  /** A pop whose slot is still empty looks three times in all before it gives up. */
  lemma ThreeLooks(s: State, j: nat)
    requires j < |s.readers| && s.readers[j].Look? && s.readers[j].tries == 0 && SlotAt(s, s.readers[j].pos).ptr == 0
    ensures var look, pos := StepReader(j), s.readers[j].pos;
            && Possible(s, [look, look, look])
            && Exec(s, [look, look]).readers == s.readers[j := Look(pos, 2)]
            && Exec(s, [look, look, look]).readers == s.readers[j := Clear(pos, SlotAt(s, pos))]
  {
    var look := StepReader(j);
    var s1 := Next(s, look);
    var s2 := Next(s1, look);
    var s3 := Next(s2, look);
    assert [look][1..] == [] && [look, look][1..] == [look] && [look, look, look][1..] == [look, look];
    assert Possible(s2, [look]) && Exec(s2, []) == s2 && Exec(s3, []) == s3;
    assert Exec(s1, [look]) == s2 && Exec(s2, [look]) == s3;
    assert Possible(s1, [look, look]) && Exec(s1, [look, look]) == s3;
  }

  // ---------------------------------------------------------------- the queue a ring stands for

  /** What is unread, and the fields, of a ring with one writer and one reader. */
  ghost function ValueOf(s: State): RingValue
    requires |s.popped| <= |s.pushed|
  {
    RingValue(s.pushed[|s.popped|..], s.mode, s.head, s.tail)
  }

  ghost predicate BothIdle(s: State) {
    Fifo(s) && s.writers[0] == WriterIdle && s.readers[0] == ReaderIdle
  }

  /** With nobody inside a call the unread items lie in the slots from `tail` on. */
  lemma ItemsInSlots(s: State)
    requires BothIdle(s)
    ensures |s.popped| <= |s.pushed| <= |s.popped| + s.capacity
    ensures Unread(s.slots, |s.popped|, |s.pushed| - |s.popped|) == ValueOf(s).items
  {
    hide Slot;
  }

  /** A push that runs alone is the push of the bounded queue. */
  lemma PushIsPushValue(s: State, item: BufferItem) returns (t: State)
    requires BothIdle(s) && item.ptr != 0
    ensures WriterAlone(s, 0, t) && |t.popped| <= |t.pushed|
    ensures var (r, res) := PushValue(ValueOf(s), s.capacity, item);
            ValueOf(t) == r && t.refused == if res == Accepted then s.refused else s.refused + [item]
  {
    hide WriterAlone, Int32, Luggage, SlotsHold;
    t := LonePush(s, 0, item);
  }

  /** A pop that runs alone is the pop of the bounded queue. */
  lemma PopIsPopValue(s: State) returns (t: State)
    requires BothIdle(s)
    ensures ReaderAlone(s, 0, t) && |t.popped| <= |t.pushed|
    ensures var (r, item) := PopValue(ValueOf(s));
            ValueOf(t) == r && t.popped == if ValueOf(s).items == [] then s.popped else s.popped + [item]
  {
    t := LonePop(s, 0);
    if s.count != 0 {
      TailSlot(s);
    }
  }

  lemma TailSlot(s: State)
    requires BothIdle(s) && s.count != 0
    ensures s.slots[s.tail % s.capacity] == s.pushed[|s.popped|]
  {
    CalcPosIsEuclidean(s.tail, s.capacity);
    assert Slot(|s.popped|, s.capacity) == CalcPos(s.tail, s.capacity);
  }

  // ---------------------------------------------------------------- a latched ring

  /** How many of the threads are at a place of the given kind. */
  ghost function Tally<T>(threads: seq<T>, kind: T -> bool): nat {
    if threads == [] then 0
    else Tally(threads[..|threads| - 1], kind) + if kind(threads[|threads| - 1]) then 1 else 0
  }

  lemma {:induction false} TallyUpdate<T>(threads: seq<T>, kind: T -> bool, i: nat, t: T)
    requires i < |threads|
    ensures Tally(threads[i := t], kind) ==
            Tally(threads, kind) - (if kind(threads[i]) then 1 else 0) + if kind(t) then 1 else 0
    decreases |threads|
  {
    var last := |threads| - 1;
    assert threads[i := t][..last] == if i == last then threads[..last] else threads[..last][i := t];
    if i < last {
      TallyUpdate(threads[..last], kind, i, t);
    }
  }

  /** The writer has looked at the state of the ring and not claimed a slot yet. */
  predicate PastState(w: Writer) {
    w.LoadCount? || w.LoadHead? || w.SwapHead?
  }

  lemma LatchedStep(s: State, e: Event)
    requires Enabled(s, e) && s.mode == READ_ONLY
    ensures var t := Next(s, e);
            && t.mode == READ_ONLY
            && |t.pushed| + Tally(t.writers, PastState) <= |s.pushed| + Tally(s.writers, PastState)
  {
    hide CalcPos, Int32, ReaderStep, Tally;
    match e
    case CallPush(i, item) => TallyUpdate(s.writers, PastState, i, LoadState(item));
    case StepWriter(i) => TallyUpdate(s.writers, PastState, i, Next(s, e).writers[i]);
    case CallPop(j) =>
    case StepReader(j) => ReaderAside(s, j);
  }

  /** No run without Reset makes a read-only ring writable again, and no push claims a slot of it but
      those that had looked at its state before. */
  lemma {:induction false} LatchedForGood(s: State, es: seq<Event>)
    requires Possible(s, es) && s.mode == READ_ONLY
    ensures Exec(s, es).mode == READ_ONLY
    ensures |Exec(s, es).pushed| <= |s.pushed| + Tally(s.writers, PastState)
    decreases |es|
  {
    if es != [] {
      LatchedStep(s, es[0]);
      LatchedForGood(Next(s, es[0]), es[1..]);
    }
  }

  // ---------------------------------------------------------------- every call is answered

  ghost function Pushes(es: seq<Event>): nat {
    if es == [] then 0 else (if es[0].CallPush? then 1 else 0) + Pushes(es[1..])
  }

  ghost function Pops(es: seq<Event>): nat {
    if es == [] then 0 else (if es[0].CallPop? then 1 else 0) + Pops(es[1..])
  }

  /** The writer has neither claimed a slot nor been refused. */
  predicate Undecided(w: Writer) {
    w.LoadState? || w.LoadCount? || w.Latch? || w.LoadHead? || w.SwapHead?
  }

  predicate UnderWay(r: Reader) {
    !r.ReaderIdle?
  }

  lemma PushAnswered(s: State, e: Event)
    requires Enabled(s, e)
    ensures var t := Next(s, e);
            |t.pushed| + |t.refused| + Tally(t.writers, Undecided)
            == |s.pushed| + |s.refused| + Tally(s.writers, Undecided) + (if e.CallPush? then 1 else 0)
  {
    hide CalcPos, Int32, ReaderStep, Tally;
    match e
    case CallPush(i, item) => TallyUpdate(s.writers, Undecided, i, LoadState(item));
    case StepWriter(i) => TallyUpdate(s.writers, Undecided, i, Next(s, e).writers[i]);
    case CallPop(j) =>
    case StepReader(j) => ReaderAside(s, j);
  }

  lemma PopAnswered(s: State, e: Event)
    requires Enabled(s, e)
    ensures var t := Next(s, e);
            |t.popped| + t.empties + Tally(t.readers, UnderWay)
            == |s.popped| + s.empties + Tally(s.readers, UnderWay) + (if e.CallPop? then 1 else 0)
  {
    hide CalcPos, Int32, WriterStep, Tally;
    match e
    case CallPush(i, item) =>
    case StepWriter(i) => WriterAside(s, i);
    case CallPop(j) => TallyUpdate(s.readers, UnderWay, j, TestCount);
    case StepReader(j) => TallyUpdate(s.readers, UnderWay, j, Next(s, e).readers[j]);
  }

  lemma ReaderAside(s: State, j: nat)
    requires Enabled(s, StepReader(j))
    ensures var t := ReaderStep(s, j);
            t.pushed == s.pushed && t.refused == s.refused && t.writers == s.writers && t.mode == s.mode
  {
    hide CalcPos, Int32;
  }

  lemma WriterAside(s: State, i: nat)
    requires Enabled(s, StepWriter(i))
    ensures var t := WriterStep(s, i); t.popped == s.popped && t.empties == s.empties && t.readers == s.readers
  {
    hide CalcPos, Int32;
  }

  /** In every run of any number of threads, each push called has claimed a slot, been refused, or is
      still trying, and each pop called has returned an item, found nothing, or is under way: a
      compare-and-swap that fails is tried again and gives up no call. */
  lemma {:induction false} CallsAnswered(s: State, es: seq<Event>)
    requires Possible(s, es)
    ensures var t := Exec(s, es);
            && |t.pushed| + |t.refused| + Tally(t.writers, Undecided)
               == |s.pushed| + |s.refused| + Tally(s.writers, Undecided) + Pushes(es)
            && |t.popped| + t.empties + Tally(t.readers, UnderWay)
               == |s.popped| + s.empties + Tally(s.readers, UnderWay) + Pops(es)
    decreases |es|
  {
    if es != [] {
      PushAnswered(s, es[0]);
      PopAnswered(s, es[0]);
      CallsAnswered(Next(s, es[0]), es[1..]);
    }
  }
}
