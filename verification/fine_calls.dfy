/** Calls of Write and rotations of the monitor that nothing interrupts, step by step: they amount to
    the whole write and the whole rotation of Stream. */
module FineCalls {
  import opened Ring
  import opened Stream
  import opened StreamSafety
  import StreamOrder
  import opened FineStream

  /** A state of an apart run. */
  ghost predicate Sound<B>(f: Fine<B>) {
    Good(f) && StreamOrder.Conserved(Abstract(f))
  }

  lemma SoundStep<B>(f: Fine<B>, e: FineEvent<B>)
    requires Sound(f) && FineEnabled(f, e) && Apart(FineNext(f, e))
    ensures Sound(FineNext(f, e))
    ensures Allowed(Abstract(f), MoveOf(f, e)) && Abstract(FineNext(f, e)) == Moved(Abstract(f), MoveOf(f, e))
  {
    hide Inv, CellsFit, WriterFits, Abstract, FineNext, StreamOrder.Conserved, Moved, MoveOf;
    StepFollows(f, e);
    MoveKeeps(Abstract(f), MoveOf(f, e));
  }

  // ---------------------------------------------------------------- runs of one thread

  ghost predicate OnlyWriter<B>(es: seq<FineEvent<B>>) {
    forall k :: 0 <= k < |es| ==> es[k].CallWrite? || es[k].StepWriter?
  }

  /** The writer alone leads from the one state to the other. */
  ghost predicate Writes<B(!new)>(f: Fine<B>, t: Fine<B>) {
    exists es :: FinePossible(f, es) && OnlyWriter(es) && FineExec(f, es) == t
  }

  lemma {:induction false} Append<B>(f: Fine<B>, es: seq<FineEvent<B>>, e: FineEvent<B>)
    requires FinePossible(f, es) && FineEnabled(FineExec(f, es), e)
    ensures FinePossible(f, es + [e]) && FineExec(f, es + [e]) == FineNext(FineExec(f, es), e)
    decreases |es|
  {
    hide FineNext, FineEnabled;
    if es == [] {
      assert es + [e] == [e] && [e][1..] == [];
      assert FinePossible(FineNext(f, e), []) && FineExec(FineNext(f, e), []) == FineNext(f, e);
    } else {
      assert (es + [e])[1..] == es[1..] + [e];
      Append(FineNext(f, es[0]), es[1..], e);
    }
  }

  lemma WritesNothing<B(!new)>(f: Fine<B>)
    ensures Writes(f, f)
  {
    assert FinePossible(f, []) && OnlyWriter<B>([]) && FineExec(f, []) == f;
  }

  lemma WritesOn<B(!new)>(f: Fine<B>, t: Fine<B>, e: FineEvent<B>) returns (t': Fine<B>)
    requires Writes(f, t) && FineEnabled(t, e) && (e.CallWrite? || e.StepWriter?)
    ensures Writes(f, t') && t' == FineNext(t, e)
  {
    var es :| FinePossible(f, es) && OnlyWriter(es) && FineExec(f, es) == t;
    Append(f, es, e);
    t' := FineNext(t, e);
  }

  /** The same, in a state of an apart run while the monitor rests. */
  lemma SoundOn<B(!new)>(f: Fine<B>, t: Fine<B>, e: FineEvent<B>) returns (t': Fine<B>)
    requires Writes(f, t) && FineEnabled(t, e) && (e.CallWrite? || e.StepWriter?) && Sound(t) && t.turn.Resting?
    ensures Writes(f, t') && t' == FineNext(t, e) && Sound(t') && t'.turn.Resting?
    ensures Allowed(Abstract(t), MoveOf(t, e)) && Abstract(t') == Moved(Abstract(t), MoveOf(t, e))
  {
    hide Writes, Sound, Abstract, MoveOf, Moved, Views, CellsAfter;
    t' := WritesOn(f, t, e);
    SoundStep(t, e);
  }

  // ---------------------------------------------------------------- one attempt

  /** A push into a ring with room. */
  lemma PushesAlone<B(!new)>(start: Fine<B>, f: Fine<B>, spare: B) returns (t: Fine<B>)
    requires Writes(start, f) && Sound(f) && f.turn.Resting? && f.writer.Check?
    requires WithRoom(CellsAt(f, f.sys.active), f.sys.capacity)
    ensures Writes(start, t) && t.writer.Out? && t.turn.Resting? && t.refused == f.refused
    ensures Abstract(t) == Attempt(Abstract(f), f.writer.item) && t.hist.accepted == f.hist.accepted + [f.writer.item]
  {
    hide Writes, Sound, Abstract, Attempt, Views, CalcPos, Others;
    SoundWriter(f);
    t := SoundOn(start, f, StepWriter(spare));
    t := SoundOn(start, t, StepWriter(spare));
    t := SoundOn(start, t, StepWriter(spare));
    t := SoundOn(start, t, StepWriter(spare));
    t := SoundOn(start, t, StepWriter(spare));
  }

  lemma SoundWriter<B>(f: Fine<B>)
    requires Sound(f)
    ensures f.sys.active in f.cells && f.sys.bufs == Views(f.cells) && (f.writer.Check? ==> f.writer.b == f.sys.active)
    ensures var c := f.cells[f.sys.active];
            0 <= f.sys.capacity && f.turn.Resting? ==> WithRoom(c, f.sys.capacity) || c.mode == READ_ONLY
                                                       || (c.mode == WRITE_ONLY && c.count == f.sys.capacity)
  {
    ActiveCells(f);
  }

  /** An attempt on a read-only ring changes nothing. */
  lemma AttemptReadOnly<B>(st: State<B>, item: BufferItem)
    requires st.sys.active in st.sys.bufs && RingOf(st.sys, st.sys.active).state == READ_ONLY
    ensures Attempt(st, item) == st
  {
    assert st.sys.bufs[st.sys.active := RingOf(st.sys, st.sys.active)] == st.sys.bufs;
  }

  /** A push into a ring without room, or a read-only one, which is read-only afterwards. */
  lemma FailsAlone<B(!new)>(start: Fine<B>, f: Fine<B>, spare: B) returns (t: Fine<B>)
    requires Writes(start, f) && Sound(f) && f.turn.Resting? && f.writer.Check?
    requires !WithRoom(CellsAt(f, f.sys.active), f.sys.capacity)
    ensures Writes(start, t) && Sound(t) && t.turn.Resting? && t.hist == f.hist
    ensures t.writer == (if f.writer.again then Out else LookAgain(f.writer.item))
    ensures t.refused == if f.writer.again then f.refused + [f.writer.item] else f.refused
    ensures Abstract(t) == Attempt(Abstract(f), f.writer.item)
    ensures CellsAt(t, t.sys.active).mode == READ_ONLY
    ensures t.sys.active == f.sys.active && t.sys.capacity == f.sys.capacity
    ensures t.sys.pool == f.sys.pool && t.sys.bufs.Keys == f.sys.bufs.Keys
  {
    SoundWriter(f);
    RestingRing(f);
    FailedCheck(f, spare);
    hide Writes, Sound, Abstract, Attempt, WriterStep, Views, CellsAt;
    t := SoundOn(start, f, StepWriter(spare));
    if CellsAt(f, f.sys.active).mode == READ_ONLY {
      AttemptReadOnly(Abstract(f), f.writer.item);
    }
  }

  lemma FailedCheck<B>(f: Fine<B>, spare: B)
    requires f.writer.Check? && f.writer.b == f.sys.active && f.sys.active in f.cells && f.sys.bufs == Views(f.cells)
    requires var c := f.cells[f.sys.active];
             c.mode == READ_ONLY || (c.mode == WRITE_ONLY && c.count >= f.sys.capacity)
    ensures var t := WriterStep(f, spare);
            && t.hist == f.hist && t.turn == f.turn
            && t.writer == (if f.writer.again then Out else LookAgain(f.writer.item))
            && t.refused == (if f.writer.again then f.refused + [f.writer.item] else f.refused)
            && t.sys == f.sys.(bufs := t.sys.bufs) && t.sys.bufs.Keys == f.sys.bufs.Keys
            && CellsAt(t, t.sys.active).mode == READ_ONLY
    ensures MoveOf(f, StepWriter(spare)) ==
            if f.cells[f.sys.active].mode == READ_ONLY then Nothing else Attempted(f.writer.item)
  {
    hide View;
  }

  lemma RestingRing<B>(f: Fine<B>)
    requires Sound(f) && f.turn.Resting? && StageOf(f.writer) != Storing && StageOf(f.writer) != Adding
    ensures var s := Abstract(f).sys;
            && s.active == f.sys.active && s.active in s.bufs && f.sys.bufs == Views(f.cells)
            && RingOf(s, s.active) == View(f.cells[f.sys.active])
  {
  }

  // ---------------------------------------------------------------- whole calls

  /** A call of Write up to the end of its first attempt, when that fails. */
  lemma FirstFails<B(!new)>(f: Fine<B>, item: BufferItem, spare: B) returns (t: Fine<B>)
    requires Sound(f) && f.turn.Resting? && f.writer.Out? && Queueable(item)
    requires !WithRoom(CellsAt(f, f.sys.active), f.sys.capacity)
    ensures Writes(f, t) && Sound(t) && t.turn.Resting? && t.writer == Switch(item) && t.refused == f.refused
    ensures Abstract(t) == Attempt(Abstract(f), item) && t.hist == f.hist && t.sys.capacity == f.sys.capacity
    ensures CellsAt(t, t.sys.active).mode == READ_ONLY && t.sys.pool == f.sys.pool && t.sys.bufs.Keys == f.sys.bufs.Keys
  {
    hide Writes, Sound, Abstract, Attempt, Views, Others;
    WritesNothing(f);
    t := SoundOn(f, f, CallWrite(item));
    t := SoundOn(f, t, StepWriter(spare));
    t := FailsAlone(f, t, spare);
    t := SoundOn(f, t, StepWriter(spare));
  }

  /** The rotation between the two attempts, and the load of the new active ring. */
  lemma SwitchesAlone<B(!new)>(start: Fine<B>, f: Fine<B>, spare: B) returns (t: Fine<B>)
    requires Writes(start, f) && Sound(f) && f.turn.Resting? && f.writer.Switch? && CanGet(f.sys, spare)
    ensures Writes(start, t) && Sound(t) && t.turn.Resting?
    ensures t.refused == f.refused && t.sys.capacity == f.sys.capacity
    ensures t.writer.Check? && t.writer.item == f.writer.item && t.writer.again
    ensures Abstract(t) == Rotated(Abstract(f), spare) && t.hist.accepted == f.hist.accepted
    ensures f.sys.capacity >= 1 ==> WithRoom(CellsAt(t, t.sys.active), t.sys.capacity)
  {
    hide Writes, Sound, Abstract, Views, CellsAfter;
    t := SoundOn(start, f, StepWriter(spare));
    SwitchedRoom(f, spare, t);
    t := SoundOn(start, t, StepWriter(spare));
  }

  lemma SwitchedRoom<B>(f: Fine<B>, spare: B, t: Fine<B>)
    requires Sound(f) && f.turn.Resting? && f.writer.Switch? && CanGet(f.sys, spare)
    requires FineEnabled(f, StepWriter(spare)) && t == FineNext(f, StepWriter(spare)) && Sound(t)
    ensures t.sys.capacity == f.sys.capacity && t.hist.accepted == f.hist.accepted
    ensures Next(Abstract(f), SwitchEvent(spare)) == Rotated(Abstract(f), spare)
    ensures f.sys.capacity >= 1 ==> WithRoom(CellsAt(t, t.sys.active), t.sys.capacity)
  {
    hide Inv, WriterFits, StreamOrder.Conserved;
    RotationFollows(f, spare);
    if f.sys.capacity >= 1 {
      EmptyHasRoom(t);
    }
  }

  /** A write that nothing interrupts is the whole write of Stream: it is accepted exactly when there
      is any room at all, and rotates exactly when the active ring has none. */
  lemma LoneWriteIsWhole<B(!new)>(f: Fine<B>, item: BufferItem, spare: B) returns (t: Fine<B>)
    requires Sound(f) && f.turn.Resting? && f.writer.Out? && Queueable(item) && CanGet(f.sys, spare)
    ensures Writes(f, t) && t.writer.Out? && t.turn.Resting?
    ensures CanGet(Abstract(f).sys, spare) && Abstract(t) == Next(Abstract(f), WriteEvent(item, spare))
    ensures if f.sys.capacity >= 1 then t.refused == f.refused && t.hist.accepted == f.hist.accepted + [item]
            else t.refused == f.refused + [item] && t.hist.accepted == f.hist.accepted
  {
    hide Writes, Sound, Abstract, Attempt, Rotated, Views, Others;
    SameGet(f, spare);
    SoundCapacity(f);
    WriteInPieces(Abstract(f), item, spare);
    if WithRoom(CellsAt(f, f.sys.active), f.sys.capacity) {
      WritesNothing(f);
      t := SoundOn(f, f, CallWrite(item));
      t := SoundOn(f, t, StepWriter(spare));
      t := PushesAlone(f, t, spare);
      AttemptResult(f, item);
    } else {
      t := FirstFails(f, item, spare);
      AttemptResult(f, item);
      LatchedRing(t);
      t := SwitchesAlone(f, t, spare);
      if f.sys.capacity >= 1 {
        t := PushesAlone(f, t, spare);
      } else {
        SoundCapacity(t);
        SoundWriter(t);
        t := FailsAlone(f, t, spare);
      }
    }
  }

  lemma SoundCapacity<B>(f: Fine<B>)
    requires Sound(f)
    ensures 0 <= f.sys.capacity && forall b :: b in f.cells ==> 0 <= f.cells[b].count
  {
  }

  lemma SameGet<B>(f: Fine<B>, spare: B)
    requires Sound(f)
    ensures CanGet(Abstract(f).sys, spare) == CanGet(f.sys, spare)
  {
  }

  lemma LatchedRing<B>(f: Fine<B>)
    requires Sound(f) && f.turn.Resting? && f.writer.Switch? && CellsAt(f, f.sys.active).mode == READ_ONLY
    ensures RingOf(Abstract(f).sys, Abstract(f).sys.active).state == READ_ONLY
  {
    RestingRing(f);
  }

  /** The first attempt succeeds exactly when the active ring has room. */
  lemma AttemptResult<B>(f: Fine<B>, item: BufferItem)
    requires Sound(f) && f.turn.Resting? && f.writer.Out?
    ensures WriteActive(Abstract(f).sys, item).1 == Accepted <==> WithRoom(CellsAt(f, f.sys.active), f.sys.capacity)
  {
    ActiveCells(f);
    RestingRing(f);
    ItemsAt(f.cells[f.sys.active]);
  }

  /** A rotation of the monitor that nothing interrupts is the whole rotation of Stream. */
  lemma LoneRotationIsWhole<B>(f: Fine<B>, spare: B)
    requires Sound(f) && f.turn.Resting? && StageOf(f.writer) == Outside && CanGet(f.sys, spare)
    ensures var es := [StepMonitor(spare), StepMonitor(spare), StepMonitor(spare), StepMonitor(spare)];
            && FinePossible(f, es) && CanGet(Abstract(f).sys, spare)
            && Abstract(FineExec(f, es)) == Next(Abstract(f), SwitchEvent(spare))
            && FineExec(f, es).writer == f.writer && FineExec(f, es).turn.Resting?
  {
    hide Sound, Abstract, View, CellsAfter, FinePossible, FineExec;
    var e := StepMonitor(spare);
    SameGet(f, spare);
    SoundWriter(f);
    var f1 := FineNext(f, e);
    SoundStep(f, e);
    var f2 := FineNext(f1, e);
    SoundStep(f1, e);
    var f3 := FineNext(f2, e);
    SoundStep(f2, e);
    var f4 := FineNext(f3, e);
    SoundStep(f3, e);
    FourSteps(f, e);
  }

  lemma FourSteps<B>(f: Fine<B>, e: FineEvent<B>)
    requires FineEnabled(f, e) && FineEnabled(FineNext(f, e), e) && FineEnabled(FineNext(FineNext(f, e), e), e)
    requires FineEnabled(FineNext(FineNext(FineNext(f, e), e), e), e)
    ensures FinePossible(f, [e, e, e, e])
    ensures FineExec(f, [e, e, e, e]) == FineNext(FineNext(FineNext(FineNext(f, e), e), e), e)
  {
    hide FineEnabled, FineNext;
    var f1 := FineNext(f, e);
    var f2 := FineNext(f1, e);
    var f3 := FineNext(f2, e);
    var f4 := FineNext(f3, e);
    assert [e][1..] == [] && [e, e][1..] == [e] && [e, e, e][1..] == [e, e] && [e, e, e, e][1..] == [e, e, e];
    assert FinePossible(f4, []) && FineExec(f4, []) == f4;
    assert FinePossible(f3, [e]) && FineExec(f3, [e]) == f4;
    assert FinePossible(f2, [e, e]) && FineExec(f2, [e, e]) == f4;
    assert FinePossible(f1, [e, e, e]) && FineExec(f1, [e, e, e]) == f4;
  }

  /** A second look that finds a ring with room, because the monitor has rotated in between: the
      write goes into the new active ring, and there is no second rotation. */
  lemma SecondAttemptOnly<B(!new)>(f: Fine<B>, spare: B) returns (t: Fine<B>)
    requires Sound(f) && f.turn.Resting? && f.writer.LookAgain? && WithRoom(CellsAt(f, f.sys.active), f.sys.capacity)
    ensures Writes(f, t) && t.writer.Out? && t.turn.Resting? && t.refused == f.refused
    ensures Abstract(t) == Attempt(Abstract(f), f.writer.item) && t.hist.accepted == f.hist.accepted + [f.writer.item]
  {
    hide Writes, Sound, Abstract, Attempt, Views, Others;
    WritesNothing(f);
    t := SoundOn(f, f, StepWriter(spare));
    t := SoundOn(f, t, StepWriter(spare));
    t := PushesAlone(f, t, spare);
  }

  lemma Follows<B>(f: Fine<B>, e: FineEvent<B>, es: seq<FineEvent<B>>, t: Fine<B>)
    requires FineEnabled(f, e) && FinePossible(FineNext(f, e), es) && FineExec(FineNext(f, e), es) == t
    ensures FinePossible(f, [e] + es) && FineExec(f, [e] + es) == t
  {
    assert ([e] + es)[1..] == es;
  }

  /** A write that runs while the monitor has made the ring read-only and not swapped it yet makes a
      single attempt and is refused: it skips the fast path, and its own rotation finds the state taken. */
  lemma RefusedMeanwhile<B>(f: Fine<B>, item: BufferItem, any: B)
    requires f.turn.Resting? && f.writer.Out? && Queueable(item)
    requires f.sys.active in f.cells && f.sys.bufs == Views(f.cells)
    ensures var monitor, writer := StepMonitor(any), StepWriter(any);
            var es := [monitor, monitor, CallWrite(item), writer, writer, writer, writer, writer];
            && FinePossible(f, es) && FineExec(f, es).refused == f.refused + [item] && FineExec(f, es).writer.Out?
            && FineExec(f, es).hist == f.hist
  {
    hide View, Others, FinePossible, FineExec;
    var monitor, writer := StepMonitor(any), StepWriter(any);
    var f1 := FineNext(f, monitor);
    var f2 := FineNext(f1, monitor);
    assert f2.turn.Frozen? && f2.writer.Out? && f2.sys.active in f2.cells && f2.cells[f2.sys.active].mode == READ_ONLY;
    assert f2.refused == f.refused && f2.hist == f.hist;
    RefusedFrozen(f2, item, any);
    var es := [CallWrite(item), writer, writer, writer, writer, writer];
    Follows(f1, monitor, es, f2.(refused := f2.refused + [item]));
    Follows(f, monitor, [monitor] + es, f2.(refused := f2.refused + [item]));
    assert [monitor] + ([monitor] + es) == [monitor, monitor, CallWrite(item), writer, writer, writer, writer, writer];
  }

  lemma RefusedFrozen<B>(f: Fine<B>, item: BufferItem, any: B)
    requires f.turn.Frozen? && f.writer.Out? && Queueable(item) && CellsAt(f, f.sys.active).mode == READ_ONLY
    ensures var step := StepWriter(any);
            var es := [CallWrite(item), step, step, step, step, step];
            FinePossible(f, es) && FineExec(f, es) == f.(refused := f.refused + [item])
  {
    hide Views, Others;
    var step := StepWriter(any);
    var f1 := FineNext(f, CallWrite(item));
    var f2 := FineNext(f1, step);
    var f3 := FineNext(f2, step);
    var f4 := FineNext(f3, step);
    var f5 := FineNext(f4, step);
    var f6 := FineNext(f5, step);
    assert f6 == f.(refused := f.refused + [item]);
    assert [step][1..] == [] && [step, step][1..] == [step] && [step, step, step][1..] == [step, step];
    assert [step, step, step, step][1..] == [step, step, step];
    assert [step, step, step, step, step][1..] == [step, step, step, step];
    assert [CallWrite(item), step, step, step, step, step][1..] == [step, step, step, step, step];
    assert FinePossible(f6, []) && FineExec(f6, []) == f6;
    assert FinePossible(f5, [step]) && FineExec(f5, [step]) == f6;
    assert FinePossible(f4, [step, step]) && FineExec(f4, [step, step]) == f6;
    assert FinePossible(f3, [step, step, step]) && FineExec(f3, [step, step, step]) == f6;
    assert FinePossible(f2, [step, step, step, step]) && FineExec(f2, [step, step, step, step]) == f6;
    assert FinePossible(f1, [step, step, step, step, step]) && FineExec(f1, [step, step, step, step, step]) == f6;
  }
}
