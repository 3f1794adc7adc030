/** What every reachable state of the double buffer satisfies, whatever the schedule. */
module StreamSafety {
  import opened Ring
  import opened Stream

  // ---------------------------------------------------------------- roles of buffers

  datatype Place =
    | ActivePlace
    | PassivePlace
    | CurrentPlace
    | HeldPlace
    | WaitingPlace(g: nat)
    | NumberedPlace(n: int)
    | HeapPlace(n: int)

  ghost function At<B>(s: System<B>, p: Place): Option<B> {
    match p
    case ActivePlace => Some(s.active)
    case PassivePlace => Some(s.passive)
    case CurrentPlace => s.current
    case HeldPlace => if s.reader.Holding? then Some(s.reader.buf) else None
    case WaitingPlace(g) => if g in s.waiting then Some(s.waiting[g]) else None
    case NumberedPlace(n) => if n in s.numbered then Some(s.numbered[n]) else None
    case HeapPlace(n) => if n in s.heap then Some(s.heap[n]) else None
  }

  ghost predicate Placed<B>(s: System<B>, b: B) {
    exists p :: At(s, p) == Some(b)
  }

  /** Every buffer in use is pooled or plays exactly one role, never both. */
  ghost predicate Owned<B>(s: System<B>) {
    && s.pool <= s.bufs.Keys
    && (forall p :: At(s, p).Some? ==> At(s, p).value in s.bufs && At(s, p).value !in s.pool)
    && (forall p, q :: At(s, p).Some? && At(s, p) == At(s, q) ==> p == q)
    && (forall b :: b in s.bufs && b !in s.pool ==> Placed(s, b))
  }

  // ---------------------------------------------------------------- sequence numbers

  ghost predicate Carried<B>(s: System<B>, n: int) {
    n in s.numbered || n in s.heap || (s.reader.Holding? && s.reader.number == n)
  }

  /** The numbers on their way to the reader are exactly currentSequence..sequence, each in one hand. */
  ghost predicate Window<B>(s: System<B>) {
    && 1 <= s.currentSequence <= s.sequence + 1
    && (forall n :: Carried(s, n) <==> s.currentSequence <= n <= s.sequence)
    && (forall n :: !(n in s.numbered && n in s.heap))
    && (s.reader.Holding? ==> s.reader.number !in s.numbered && s.reader.number !in s.heap)
  }

  ghost function Carrier<B>(s: System<B>, n: int): B
    requires Carried(s, n)
  {
    if n in s.numbered then s.numbered[n]
    else if n in s.heap then s.heap[n]
    else s.reader.buf
  }

  // ---------------------------------------------------------------- contents of buffers

  ghost predicate AllQueueable(items: seq<BufferItem>) {
    forall i :: 0 <= i < |items| ==> Queueable(items[i])
  }

  ghost predicate ActiveRing(r: RingValue, capacity: int) {
    && AllQueueable(r.items)
    && r.tail == -1 && r.head == |r.items| - 1 && |r.items| <= capacity
    && (r.state == WRITE_ONLY || (r.state == READ_ONLY && |r.items| == capacity))
  }

  ghost predicate RetiredRing(r: RingValue, capacity: int) {
    && AllQueueable(r.items)
    && r.tail == -1 && r.head == |r.items| - 1 && |r.items| <= capacity && r.state == READ_ONLY
  }

  ghost predicate CurrentRing(r: RingValue, capacity: int) {
    && AllQueueable(r.items)
    && -1 <= r.tail && r.head == r.tail + |r.items| && r.head < capacity && r.state == READ_ONLY
  }

  ghost predicate RingFits<B>(s: System<B>, p: Place) {
    At(s, p).Some? ==>
      var r := RingOf(s, At(s, p).value);
      match p
      case ActivePlace => ActiveRing(r, s.capacity)
      case PassivePlace => r == PRISTINE
      case CurrentPlace => CurrentRing(r, s.capacity)
      case _ => RetiredRing(r, s.capacity)
  }

  ghost predicate Rings<B>(s: System<B>) {
    && 0 <= s.capacity <= MAX_INT32
    && (forall p :: RingFits(s, p))
    && (forall b :: b in s.pool ==> RingOf(s, b) == PRISTINE)
    && s.count == |RingOf(s, s.active).items|
    && (s.reader.Ready? ==> s.current.Some?)
    && (s.reader.Looking? || s.reader.Holding? ==> s.current.None?)
  }

  // ---------------------------------------------------------------- history

  ghost function Flatten(batches: seq<seq<BufferItem>>): seq<BufferItem> {
    if batches == [] then [] else Flatten(batches[..|batches| - 1]) + batches[|batches| - 1]
  }

  /** The batches in the order in which `order` names them. */
  ghost function Ordered(batches: seq<seq<BufferItem>>, order: seq<nat>): seq<seq<BufferItem>>
    requires forall i :: 0 <= i < |order| ==> order[i] < |batches|
  {
    seq(|order|, i requires 0 <= i < |order| => batches[order[i]])
  }

  /** What the reader has not yet popped from its current buffer. */
  ghost function Rest<B>(s: System<B>): seq<BufferItem> {
    if s.current.Some? then RingOf(s, s.current.value).items else []
  }

  /** `order` lists, without repetition, the rotations that have drawn a number. */
  ghost predicate Numbering<B>(s: System<B>, h: History) {
    && s.spawned == |h.batches| && s.sequence == |h.order|
    && (forall i :: 0 <= i < |h.order| ==> h.order[i] < |h.batches|)
    && (forall i, j :: 0 <= i < j < |h.order| ==> h.order[i] != h.order[j])
    && (forall g: nat :: g in s.waiting <==> g < |h.batches| && g !in h.order)
  }

  /** Retired buffers still hold what they held when they were rotated out. */
  ghost predicate Frozen<B>(s: System<B>, h: History)
    requires Numbering(s, h) && Window(s)
  {
    && (forall g :: g in s.waiting ==> RingOf(s, s.waiting[g]).items == h.batches[g])
    && (forall n :: Carried(s, n) ==> RingOf(s, Carrier(s, n)).items == h.batches[h.order[n - 1]])
  }

  /** The accepted writes are cut, in order, into the rotated batches and the active buffer;
      the deliveries are the batches in the order of their numbers. */
  ghost predicate Streamed<B>(s: System<B>, h: History)
    requires Numbering(s, h) && Window(s)
  {
    && h.accepted == Flatten(h.batches) + RingOf(s, s.active).items
    && h.delivered + Rest(s) == Flatten(Ordered(h.batches, h.order[..s.currentSequence - 1]))
  }

  ghost predicate Inv<B>(st: State<B>) {
    && Owned(st.sys) && Window(st.sys) && Rings(st.sys)
    && Numbering(st.sys, st.hist) && Frozen(st.sys, st.hist) && Streamed(st.sys, st.hist)
  }

  /** The part of the invariant that speaks of the system alone. */
  ghost predicate SystemInv<B>(s: System<B>) {
    Owned(s) && Window(s) && Rings(s) && forall g :: g in s.waiting ==> g < s.spawned
  }

  lemma InitialSystem<B>(capacity: int, active: B, passive: B)
    requires 0 <= capacity <= MAX_INT32 && active != passive
    ensures SystemInv(Initial(capacity, active, passive))
  {
    var s := Initial(capacity, active, passive);
    forall b | b in s.bufs && b !in s.pool ensures Placed(s, b) {
      assert At(s, if b == active then ActivePlace else PassivePlace) == Some(b);
    }
  }

  lemma InitialInv<B>(capacity: int, active: B, passive: B)
    requires 0 <= capacity <= MAX_INT32 && active != passive
    ensures Inv(Start(capacity, active, passive))
  {
    InitialSystem(capacity, active, passive);
    assert Ordered([], []) == [];
  }

  // ---------------------------------------------------------------- writers preserve the invariant

  /** Changing the contents of one buffer leaves every role as it is. */
  lemma SameRoles<B>(s: System<B>, s': System<B>)
    requires Owned(s)
    requires s'.bufs.Keys == s.bufs.Keys && s'.pool == s.pool
    requires forall p :: At(s', p) == At(s, p)
    ensures Owned(s')
  {
    forall b | b in s'.bufs && b !in s'.pool ensures Placed(s', b) {
      var p :| At(s, p) == Some(b);
      assert At(s', p) == Some(b);
    }
  }

  /** One write attempt on the active buffer, with its effect on the history. */
  ghost function Attempt<B>(st: State<B>, item: BufferItem): State<B> {
    var (s', res) := WriteActive(st.sys, item);
    State(s', if res == Accepted then st.hist.(accepted := st.hist.accepted + [item]) else st.hist)
  }

  ghost function Rotated<B>(st: State<B>, spare: B): State<B> {
    State(Rotate(st.sys, spare),
          st.hist.(batches := st.hist.batches + [RingOf(st.sys, st.sys.active).items]))
  }

  /** The numbers in hand, and the buffers they stand for, do not change. */
  ghost predicate SameHands<B>(s: System<B>, s': System<B>) {
    && (forall n :: Carried(s', n) <==> Carried(s, n))
    && (forall n :: Carried(s, n) ==> Carrier(s', n) == Carrier(s, n))
  }

  lemma AttemptRoles<B>(s: System<B>, item: BufferItem)
    requires Owned(s) && Rings(s) && Queueable(item)
    ensures Owned(WriteActive(s, item).0) && Rings(WriteActive(s, item).0)
  {
    var s' := WriteActive(s, item).0;
    assert At(s, ActivePlace) == Some(s.active);
    assert RingFits(s, ActivePlace);
    forall p ensures At(s', p) == At(s, p) {}
    SameRoles(s, s');
    forall p ensures RingFits(s', p) {
      assert RingFits(s, p);
      if p != ActivePlace && At(s, p).Some? {
        assert At(s, p).value != s.active;
      }
    }
  }

  lemma AttemptHands<B>(s: System<B>, item: BufferItem)
    requires Owned(s) && Window(s)
    ensures var s' := WriteActive(s, item).0;
            && SameHands(s, s') && Window(s') && Rest(s') == Rest(s)
            && (forall g :: g in s.waiting ==> RingOf(s', s.waiting[g]) == RingOf(s, s.waiting[g]))
            && (forall n :: Carried(s, n) ==> RingOf(s', Carrier(s, n)) == RingOf(s, Carrier(s, n)))
  {
    assert At(s, ActivePlace) == Some(s.active);
    SameCarriers(s, WriteActive(s, item).0, s.active, ActivePlace);
    assert s.current.Some? ==> At(s, CurrentPlace) == Some(s.current.value);
  }

  lemma AttemptSystem<B>(s: System<B>, item: BufferItem)
    requires SystemInv(s) && Queueable(item)
    ensures SystemInv(WriteActive(s, item).0)
  {
    AttemptRoles(s, item);
    AttemptHands(s, item);
  }

  lemma WriteActiveInv<B>(st: State<B>, item: BufferItem)
    requires Inv(st) && Queueable(item)
    ensures Inv(Attempt(st, item))
  {
    AttemptRoles(st.sys, item);
    AttemptHands(st.sys, item);
  }

  /** A buffer outside the waiting goroutines and the numbered ones may change freely. */
  lemma SameCarriers<B>(s: System<B>, s': System<B>, b: B, at: Place)
    requires Owned(s) && At(s, at) == Some(b) && (at == ActivePlace || at == CurrentPlace)
    requires s'.waiting == s.waiting && s'.numbered == s.numbered && s'.heap == s.heap
    requires s'.reader.Holding? == s.reader.Holding? && (s.reader.Holding? ==> s'.reader == s.reader)
    requires forall c :: c != b ==> RingOf(s', c) == RingOf(s, c)
    ensures forall g :: g in s.waiting ==> RingOf(s', s'.waiting[g]) == RingOf(s, s.waiting[g])
    ensures forall n :: Carried(s, n) <==> Carried(s', n)
    ensures forall n :: Carried(s, n) ==> RingOf(s', Carrier(s', n)) == RingOf(s, Carrier(s, n))
  {
    forall g | g in s.waiting ensures s.waiting[g] != b {
      assert At(s, WaitingPlace(g)) == Some(s.waiting[g]);
    }
    forall n | Carried(s, n) ensures Carrier(s, n) != b {
      if n in s.numbered {
        assert At(s, NumberedPlace(n)) == Some(s.numbered[n]);
      } else if n in s.heap {
        assert At(s, HeapPlace(n)) == Some(s.heap[n]);
      } else {
        assert At(s, HeldPlace) == Some(s.reader.buf);
      }
    }
  }

  lemma RotateOwned<B>(s: System<B>, spare: B)
    requires Owned(s) && CanGet(s, spare) && s.spawned !in s.waiting
    ensures Owned(Rotate(s, spare))
  {
    var s' := Rotate(s, spare);
    forall b | b in s'.bufs && b !in s'.pool ensures Placed(s', b) {
      if b == spare {
        assert At(s', PassivePlace) == Some(b);
      } else {
        var p :| At(s, p) == Some(b);
        var p' := match p
          case ActivePlace => WaitingPlace(s.spawned)
          case PassivePlace => ActivePlace
          case _ => p;
        assert At(s', p') == Some(b);
      }
    }
    forall p | At(s', p).Some?
      ensures At(s', p).value in s'.bufs && At(s', p).value !in s'.pool
    {
      assert At(s, RotatedFrom(s, p)).Some? || p == PassivePlace;
    }
    forall p, q | At(s', p).Some? && At(s', p) == At(s', q) ensures p == q {
      RotatedAt(s, spare, p);
      RotatedAt(s, spare, q);
    }
  }

  /** The place a buffer comes from when it is found at `p` after a rotation. */
  ghost function RotatedFrom<B>(s: System<B>, p: Place): Place {
    if p == WaitingPlace(s.spawned) then ActivePlace
    else if p == ActivePlace then PassivePlace
    else p
  }

  lemma RotatedAt<B>(s: System<B>, spare: B, p: Place)
    requires Owned(s) && CanGet(s, spare) && s.spawned !in s.waiting
    ensures At(Rotate(s, spare), p) == if p == PassivePlace then Some(spare) else At(s, RotatedFrom(s, p))
    ensures p != PassivePlace && At(s, RotatedFrom(s, p)).Some? ==> At(s, RotatedFrom(s, p)).value != spare
  {
  }

  lemma RotateRings<B>(s: System<B>, spare: B)
    requires Owned(s) && Rings(s) && CanGet(s, spare) && s.spawned !in s.waiting
    ensures Rings(Rotate(s, spare))
  {
    var s' := Rotate(s, spare);
    assert At(s, ActivePlace) == Some(s.active) && At(s, PassivePlace) == Some(s.passive);
    forall p ensures RingFits(s', p) {
      RotatedAt(s, spare, p);
      assert RingFits(s, RotatedFrom(s, p));
      if p != PassivePlace && p != WaitingPlace(s.spawned) && At(s', p).Some? {
        assert RotatedFrom(s, p) != ActivePlace;
        assert At(s', p).value != s.active;
      }
    }
    assert RingFits(s, PassivePlace);
  }

  lemma RotateInv<B>(st: State<B>, spare: B)
    requires Inv(st) && CanGet(st.sys, spare)
    ensures Inv(Rotated(st, spare))
  {
    var s, h := st.sys, st.hist;
    var items := RingOf(s, s.active).items;
    var s', h' := Rotate(s, spare), h.(batches := h.batches + [items]);
    RotateOwned(s, spare);
    RotateRings(s, spare);
    assert h'.batches[..|h.batches|] == h.batches;
    assert Ordered(h'.batches, h.order[..s.currentSequence - 1]) == Ordered(h.batches, h.order[..s.currentSequence - 1]);
    assert At(s, ActivePlace) == Some(s.active) && At(s, PassivePlace) == Some(s.passive);
    assert RingFits(s, PassivePlace);
    RotateFrozen(st, spare);
    if s.current.Some? {
      assert At(s, CurrentPlace) == Some(s.current.value);
    }
  }

  lemma RotateFrozen<B>(st: State<B>, spare: B)
    requires Inv(st) && CanGet(st.sys, spare)
    ensures var s', h' := Rotate(st.sys, spare), Rotated(st, spare).hist;
            Window(s') && Numbering(s', h') && Frozen(s', h')
  {
    var s := st.sys;
    RotateHands(s, spare);
    assert At(s, ActivePlace) == Some(s.active);
    assert Rotate(s, spare).waiting[s.spawned] == s.active;
  }

  lemma RotateHands<B>(s: System<B>, spare: B)
    requires Owned(s) && Window(s) && CanGet(s, spare) && s.spawned !in s.waiting
    ensures var s' := Rotate(s, spare);
            && SameHands(s, s') && Window(s')
            && (forall g :: g in s.waiting ==> RingOf(s', s.waiting[g]) == RingOf(s, s.waiting[g]))
            && (forall n :: Carried(s, n) ==> RingOf(s', Carrier(s, n)) == RingOf(s, Carrier(s, n)))
            && RingOf(s', s.active).items == RingOf(s, s.active).items
  {
    var s' := Rotate(s, spare);
    assert At(s, ActivePlace) == Some(s.active);
    assert SameHands(s, s');
    forall g | g in s.waiting ensures s.waiting[g] != s.active && s.waiting[g] != spare {
      assert At(s, WaitingPlace(g)) == Some(s.waiting[g]);
    }
    forall n | Carried(s, n) ensures Carrier(s, n) != s.active && Carrier(s, n) != spare {
      if n in s.numbered {
        assert At(s, NumberedPlace(n)) == Some(s.numbered[n]);
      } else if n in s.heap {
        assert At(s, HeapPlace(n)) == Some(s.heap[n]);
      } else {
        assert At(s, HeldPlace) == Some(s.reader.buf);
      }
    }
  }

  lemma RotateSystem<B>(s: System<B>, spare: B)
    requires SystemInv(s) && CanGet(s, spare)
    ensures SystemInv(Rotate(s, spare))
  {
    RotateOwned(s, spare);
    RotateRings(s, spare);
    RotateHands(s, spare);
  }

  /** A write is one attempt, or an attempt, a rotation if the buffer is read-only, and a second attempt. */
  lemma WriteInPieces<B>(st: State<B>, item: BufferItem, spare: B)
    requires Queueable(item) && CanGet(st.sys, spare)
    ensures var st1 := Attempt(st, item);
            Next(st, WriteEvent(item, spare)) ==
            if WriteActive(st.sys, item).1 == Accepted then st1
            else Attempt(if RingOf(st1.sys, st1.sys.active).state == READ_ONLY then Rotated(st1, spare) else st1, item)
  {
    var s := st.sys;
    var (s1, res) := WriteActive(s, item);
    if res != Accepted {
      assert RingOf(s1, s1.active).items == RingOf(s, s.active).items;
    }
  }

  lemma WriteInv<B>(st: State<B>, item: BufferItem, spare: B)
    requires Inv(st) && Queueable(item) && CanGet(st.sys, spare)
    ensures Inv(Next(st, WriteEvent(item, spare)))
  {
    WriteInPieces(st, item, spare);
    WriteActiveInv(st, item);
    var st1 := Attempt(st, item);
    if WriteActive(st.sys, item).1 != Accepted {
      if RingOf(st1.sys, st1.sys.active).state == READ_ONLY {
        AttemptKeepsKeys(st, item);
        RotateInv(st1, spare);
        WriteActiveInv(Rotated(st1, spare), item);
      } else {
        WriteActiveInv(st1, item);
      }
    }
  }

  lemma AttemptKeepsKeys<B>(st: State<B>, item: BufferItem)
    requires Inv(st)
    ensures Attempt(st, item).sys.bufs.Keys == st.sys.bufs.Keys
    ensures Attempt(st, item).sys.pool == st.sys.pool
  {
    assert At(st.sys, ActivePlace) == Some(st.sys.active);
  }

  // ---------------------------------------------------------------- roles and histories that stay

  /** One buffer changes its role and nothing else moves. */
  ghost predicate Moves<B>(s: System<B>, s': System<B>, from: Place, to: Place) {
    && from != to && from != ActivePlace && to != ActivePlace
    && s'.bufs == s.bufs && s'.pool == s.pool && s'.capacity == s.capacity && s'.count == s.count
    && At(s, from).Some? && At(s, to).None? && At(s', to) == At(s, from) && At(s', from).None?
    && (forall p :: p != from && p != to ==> At(s', p) == At(s, p))
  }

  lemma MovedOwned<B>(s: System<B>, s': System<B>, from: Place, to: Place)
    requires Owned(s) && Moves(s, s', from, to)
    ensures Owned(s')
  {
    forall b | b in s'.bufs && b !in s'.pool ensures Placed(s', b) {
      var p :| At(s, p) == Some(b);
      assert At(s', if p == from then to else p) == Some(b);
    }
    forall p, q | At(s', p).Some? && At(s', p) == At(s', q) ensures p == q {
      var p0, q0 := if p == to then from else p, if q == to then from else q;
      assert At(s, p0) == At(s', p) && At(s, q0) == At(s', q);
    }
  }

  lemma MovedRings<B>(s: System<B>, s': System<B>, from: Place, to: Place)
    requires Rings(s) && Moves(s, s', from, to) && RingFits(s', to)
    requires s'.reader.Ready? ==> s'.current.Some?
    requires s'.reader.Looking? || s'.reader.Holding? ==> s'.current.None?
    ensures Rings(s')
  {
    forall p ensures RingFits(s', p) {
      if p != to && p != from {
        assert RingFits(s, p) && At(s', p) == At(s, p);
      }
    }
    assert At(s', ActivePlace) == At(s, ActivePlace);
  }

  lemma HistoryKept<B>(s: System<B>, s': System<B>, h: History)
    requires Window(s) && Window(s') && Numbering(s, h) && Frozen(s, h) && Streamed(s, h)
    requires s'.spawned == s.spawned && s'.sequence == s.sequence && s'.currentSequence == s.currentSequence
    requires s'.waiting == s.waiting
    requires forall g :: g in s.waiting ==> RingOf(s', s.waiting[g]) == RingOf(s, s.waiting[g])
    requires forall n :: Carried(s, n) ==> Carried(s', n) && RingOf(s', Carrier(s', n)) == RingOf(s, Carrier(s, n))
    requires RingOf(s', s'.active).items == RingOf(s, s.active).items && Rest(s') == Rest(s)
    ensures Numbering(s', h) && Frozen(s', h) && Streamed(s', h)
  {
  }

  // ---------------------------------------------------------------- goroutines preserve the invariant

  lemma NumberWindow<B>(s: System<B>, g: nat)
    requires Window(s) && g in s.waiting
    ensures var s', n := Number(s, g), s.sequence + 1;
            && Window(s') && !Carried(s, n) && Carried(s', n) && Carrier(s', n) == s.waiting[g]
            && forall m :: Carried(s, m) ==> Carried(s', m) && Carrier(s', m) == Carrier(s, m)
  {
    var s', n := Number(s, g), s.sequence + 1;
    assert !Carried(s, n);
    forall m ensures Carried(s', m) <==> Carried(s, m) || m == n {}
  }

  lemma NumberDrawn<B>(s: System<B>, h: History, g: nat)
    requires g in s.waiting && Numbering(s, h)
    ensures Numbering(Number(s, g), h.(order := h.order + [g]))
  {
  }

  lemma NumberFrozen<B>(s: System<B>, h: History, g: nat)
    requires g in s.waiting && Window(s) && Window(Number(s, g)) && Numbering(s, h) && Frozen(s, h)
    requires Numbering(Number(s, g), h.(order := h.order + [g]))
    ensures Frozen(Number(s, g), h.(order := h.order + [g]))
  {
    NumberWindow(s, g);
    var s', h' := Number(s, g), h.(order := h.order + [g]);
    forall m | Carried(s', m)
      ensures RingOf(s', Carrier(s', m)).items == h'.batches[h'.order[m - 1]]
    {
      if m != s.sequence + 1 {
        assert Carried(s, m);
      }
    }
  }

  lemma NumberStreamed<B>(s: System<B>, h: History, g: nat)
    requires g in s.waiting && Window(s) && Window(Number(s, g)) && Numbering(s, h) && Streamed(s, h)
    requires Numbering(Number(s, g), h.(order := h.order + [g]))
    ensures Streamed(Number(s, g), h.(order := h.order + [g]))
  {
    assert (h.order + [g])[..s.currentSequence - 1] == h.order[..s.currentSequence - 1];
  }

  lemma NumberRoles<B>(s: System<B>, g: nat)
    requires Owned(s) && Rings(s) && Window(s) && g in s.waiting
    ensures Owned(Number(s, g)) && Rings(Number(s, g))
  {
    var from, to := WaitingPlace(g), NumberedPlace(s.sequence + 1);
    assert !Carried(s, s.sequence + 1);
    assert RingFits(s, from);
    assert Moves(s, Number(s, g), from, to);
    MovedOwned(s, Number(s, g), from, to);
    MovedRings(s, Number(s, g), from, to);
  }

  lemma NumberSystem<B>(s: System<B>, g: nat)
    requires SystemInv(s) && g in s.waiting
    ensures SystemInv(Number(s, g))
  {
    NumberWindow(s, g);
    NumberRoles(s, g);
  }

  lemma NumberInv<B>(st: State<B>, g: nat)
    requires Inv(st) && g in st.sys.waiting
    ensures Inv(Next(st, NumberEvent(g)))
  {
    NumberWindow(st.sys, g);
    NumberRoles(st.sys, g);
    NumberDrawn(st.sys, st.hist, g);
    NumberFrozen(st.sys, st.hist, g);
    NumberStreamed(st.sys, st.hist, g);
  }

  lemma PublishRoles<B>(s: System<B>, n: int)
    requires Owned(s) && Rings(s) && Window(s) && n in s.numbered
    ensures Owned(Publish(s, n)) && Rings(Publish(s, n))
  {
    assert RingFits(s, NumberedPlace(n));
    assert Moves(s, Publish(s, n), NumberedPlace(n), HeapPlace(n));
    MovedOwned(s, Publish(s, n), NumberedPlace(n), HeapPlace(n));
    MovedRings(s, Publish(s, n), NumberedPlace(n), HeapPlace(n));
  }

  lemma PublishHands<B>(s: System<B>, n: int)
    requires Window(s) && n in s.numbered
    ensures SameHands(s, Publish(s, n)) && Window(Publish(s, n))
  {
    assert SameHands(s, Publish(s, n));
  }

  lemma PublishSystem<B>(s: System<B>, n: int)
    requires SystemInv(s) && n in s.numbered
    ensures SystemInv(Publish(s, n))
  {
    PublishRoles(s, n);
    PublishHands(s, n);
  }

  lemma PublishInv<B>(st: State<B>, n: int)
    requires Inv(st) && n in st.sys.numbered
    ensures Inv(Next(st, PublishEvent(n)))
  {
    PublishRoles(st.sys, n);
    PublishHands(st.sys, n);
    HistoryKept(st.sys, Publish(st.sys, n), st.hist);
  }

  // ---------------------------------------------------------------- the reader preserves the invariant

  lemma PickInv<B>(st: State<B>)
    requires Inv(st) && st.sys.reader.Looking?
    ensures Inv(Next(st, PickEvent))
  {
    hide Owned, Rings, Numbering, Frozen, Streamed;
    PickRoles(st.sys);
    PickHands(st.sys);
    HistoryKept(st.sys, Pick(st.sys), st.hist);
  }

  lemma PickRoles<B>(s: System<B>)
    requires Owned(s) && Rings(s) && s.reader.Looking?
    ensures Owned(Pick(s)) && Rings(Pick(s))
  {
    var s' := Pick(s);
    if forall n :: n !in s.heap {
      OnlyReaderMoves(s, s');
    } else {
      var n := s'.reader.number;
      assert RingFits(s, HeapPlace(n));
      assert Moves(s, s', HeapPlace(n), HeldPlace);
      MovedOwned(s, s', HeapPlace(n), HeldPlace);
      MovedRings(s, s', HeapPlace(n), HeldPlace);
    }
  }

  lemma PickHands<B>(s: System<B>)
    requires Window(s) && s.reader.Looking?
    ensures SameHands(s, Pick(s)) && Window(Pick(s))
  {
    var s' := Pick(s);
    assert SameHands(s, s');
  }

  lemma OnlyReaderMoves<B>(s: System<B>, s': System<B>)
    requires Owned(s) && Rings(s) && !s.reader.Holding? && !s'.reader.Holding?
    requires s' == s.(reader := s'.reader)
    requires s'.reader.Ready? ==> s'.current.Some?
    requires s'.reader.Looking? ==> s'.current.None?
    ensures Owned(s') && Rings(s') && SameHands(s, s')
  {
    forall p ensures At(s', p) == At(s, p) && RingFits(s', p) {
      assert RingFits(s, p);
    }
    SameRoles(s, s');
  }

  lemma PushBackRoles<B>(s: System<B>)
    requires Owned(s) && Rings(s) && Window(s) && s.reader.Holding? && s.reader.number != s.currentSequence
    ensures Owned(Decide(s)) && Rings(Decide(s))
  {
    var s', to := Decide(s), HeapPlace(s.reader.number);
    assert RingFits(s, HeldPlace);
    assert Moves(s, s', HeldPlace, to);
    MovedOwned(s, s', HeldPlace, to);
    MovedRings(s, s', HeldPlace, to);
  }

  lemma PushBackHands<B>(s: System<B>)
    requires Window(s) && s.reader.Holding? && s.reader.number != s.currentSequence
    ensures SameHands(s, Decide(s)) && Window(Decide(s))
  {
    assert SameHands(s, Decide(s));
  }

  lemma PushBackInv<B>(st: State<B>)
    requires Inv(st) && st.sys.reader.Holding? && st.sys.reader.number != st.sys.currentSequence
    ensures Inv(Next(st, DecideEvent))
  {
    PushBackRoles(st.sys);
    PushBackHands(st.sys);
    HistoryKept(st.sys, Decide(st.sys), st.hist);
  }

  lemma AdoptWindow<B>(s: System<B>)
    requires Window(s) && s.reader.Holding? && s.reader.number == s.currentSequence
    ensures var s', n := Decide(s), s.reader.number;
            && Window(s') && Carried(s, n) && Carrier(s, n) == s.reader.buf
            && forall m :: Carried(s', m) ==> Carried(s, m) && Carrier(s', m) == Carrier(s, m)
  {
    var s', n := Decide(s), s.reader.number;
    forall m ensures Carried(s', m) <==> Carried(s, m) && m != n {}
    assert Carried(s, n);
  }

  lemma AdoptFrozen<B>(s: System<B>, h: History)
    requires s.reader.Holding? && s.reader.number == s.currentSequence && Window(s) && Window(Decide(s))
    requires Numbering(s, h) && Frozen(s, h)
    ensures Numbering(Decide(s), h) && Frozen(Decide(s), h)
  {
    AdoptWindow(s);
  }

  lemma NextBatch(batches: seq<seq<BufferItem>>, order: seq<nat>, n: nat)
    requires 0 < n <= |order| && forall i :: 0 <= i < |order| ==> order[i] < |batches|
    ensures Flatten(Ordered(batches, order[..n])) ==
            Flatten(Ordered(batches, order[..n - 1])) + batches[order[n - 1]]
  {
    var before, after := Ordered(batches, order[..n - 1]), Ordered(batches, order[..n]);
    assert after[..n - 1] == before;
  }

  lemma AdoptStreamed<B>(s: System<B>, h: History)
    requires s.reader.Holding? && s.reader.number == s.currentSequence && Window(s) && Window(Decide(s))
    requires Numbering(s, h) && Frozen(s, h) && Streamed(s, h) && s.current.None?
    requires Numbering(Decide(s), h)
    ensures Streamed(Decide(s), h)
  {
    var n := s.reader.number;
    assert RingOf(s, s.reader.buf).items == h.batches[h.order[n - 1]] by {
      AdoptWindow(s);
    }
    NextBatch(h.batches, h.order, n);
    assert h.delivered + [] == h.delivered;
  }

  lemma AdoptRoles<B>(s: System<B>)
    requires Owned(s) && Rings(s) && s.reader.Holding? && s.reader.number == s.currentSequence
    ensures Owned(Decide(s)) && Rings(Decide(s))
  {
    assert RingFits(s, HeldPlace);
    assert Moves(s, Decide(s), HeldPlace, CurrentPlace);
    MovedOwned(s, Decide(s), HeldPlace, CurrentPlace);
    MovedRings(s, Decide(s), HeldPlace, CurrentPlace);
  }

  lemma AdoptInv<B>(st: State<B>)
    requires Inv(st) && st.sys.reader.Holding? && st.sys.reader.number == st.sys.currentSequence
    ensures Inv(Next(st, DecideEvent))
  {
    AdoptWindow(st.sys);
    AdoptRoles(st.sys);
    AdoptFrozen(st.sys, st.hist);
    AdoptStreamed(st.sys, st.hist);
  }

  lemma BeginInv<B>(st: State<B>)
    requires Inv(st) && st.sys.reader.Idle?
    ensures Inv(Next(st, BeginEvent))
  {
    if Begin(st.sys).current == st.sys.current {
      StayInv(st);
    } else {
      RecycleInv(st);
    }
  }

  lemma StayInv<B>(st: State<B>)
    requires Inv(st) && st.sys.reader.Idle? && Begin(st.sys).current == st.sys.current
    ensures Inv(State(Begin(st.sys), st.hist))
  {
    OnlyReaderMoves(st.sys, Begin(st.sys));
    HistoryKept(st.sys, Begin(st.sys), st.hist);
  }

  lemma RecycleInv<B>(st: State<B>)
    requires Inv(st) && st.sys.reader.Idle? && Begin(st.sys).current != st.sys.current
    ensures Inv(State(Begin(st.sys), st.hist))
  {
    var s := st.sys;
    RecycleOwned(s);
    RecycleRings(s);
    RecycleHands(s);
    HistoryKept(s, Begin(s), st.hist);
  }

  lemma RecycleHands<B>(s: System<B>)
    requires Owned(s) && Window(s) && s.reader.Idle? && Begin(s).current != s.current
    ensures var s' := Begin(s);
            && SameHands(s, s') && Window(s')
            && (forall g :: g in s.waiting ==> RingOf(s', s.waiting[g]) == RingOf(s, s.waiting[g]))
            && (forall n :: Carried(s, n) ==> RingOf(s', Carrier(s, n)) == RingOf(s, Carrier(s, n)))
            && RingOf(s', s'.active) == RingOf(s, s.active)
  {
    assert At(s, CurrentPlace) == Some(s.current.value);
    SameCarriers(s, Begin(s), s.current.value, CurrentPlace);
    assert At(s, ActivePlace) == Some(s.active);
  }

  lemma RecycleOwned<B>(s: System<B>)
    requires Owned(s) && s.reader.Idle? && Begin(s).current != s.current
    ensures Owned(Begin(s))
  {
    var s', b := Begin(s), s.current.value;
    assert At(s, CurrentPlace) == Some(b);
    forall p | p != CurrentPlace ensures At(s', p) == At(s, p) {}
    forall c | c in s'.bufs && c !in s'.pool ensures Placed(s', c) {
      var p :| At(s, p) == Some(c);
      assert At(s', p) == Some(c);
    }
  }

  lemma RecycleRings<B>(s: System<B>)
    requires Owned(s) && Rings(s) && s.reader.Idle? && Begin(s).current != s.current
    ensures Rings(Begin(s))
  {
    var s', b := Begin(s), s.current.value;
    assert At(s, CurrentPlace) == Some(b) && At(s, ActivePlace) == Some(s.active);
    forall p ensures RingFits(s', p) {
      assert RingFits(s, p);
      if p != CurrentPlace && At(s, p).Some? {
        assert At(s', p) == At(s, p) && At(s, p).value != b;
      }
    }
  }

  lemma TakeRings<B>(s: System<B>)
    requires Owned(s) && Rings(s) && s.reader.Ready? && s.current.Some?
    ensures Owned(Take(s).0) && Rings(Take(s).0)
  {
    var s', b := Take(s).0, s.current.value;
    assert At(s, CurrentPlace) == Some(b) && At(s, ActivePlace) == Some(s.active);
    forall p ensures At(s', p) == At(s, p) {}
    SameRoles(s, s');
    forall p ensures RingFits(s', p) {
      assert RingFits(s, p);
      if p != CurrentPlace && At(s, p).Some? {
        assert At(s, p).value != b;
      }
    }
  }

  lemma TakeHands<B>(s: System<B>)
    requires Owned(s) && Window(s) && s.reader.Ready? && s.current.Some?
    ensures var s' := Take(s).0;
            && SameHands(s, s') && Window(s')
            && (forall g :: g in s.waiting ==> RingOf(s', s.waiting[g]) == RingOf(s, s.waiting[g]))
            && (forall n :: Carried(s, n) ==> RingOf(s', Carrier(s, n)) == RingOf(s, Carrier(s, n)))
            && RingOf(s', s'.active) == RingOf(s, s.active)
  {
    assert At(s, CurrentPlace) == Some(s.current.value) && At(s, ActivePlace) == Some(s.active);
    SameCarriers(s, Take(s).0, s.current.value, CurrentPlace);
  }

  lemma TakeInv<B>(st: State<B>)
    requires Inv(st) && st.sys.reader.Ready? && st.sys.current.Some?
    ensures Inv(Next(st, TakeEvent))
  {
    var s, h := st.sys, st.hist;
    TakeRings(s);
    TakeHands(s);
    var items := RingOf(s, s.current.value).items;
    if items != [] {
      assert items == [items[0]] + items[1..];
      assert (h.delivered + [items[0]]) + items[1..] == h.delivered + items;
    }
  }

  lemma CollectRings<B>(s: System<B>, b: B)
    requires Owned(s) && Rings(s) && b in s.pool
    ensures Owned(Apply(s, CollectEvent(b))) && Rings(Apply(s, CollectEvent(b)))
  {
    var s' := Apply(s, CollectEvent(b));
    forall p ensures At(s', p) == At(s, p) {}
    forall c | c in s'.bufs && c !in s'.pool ensures Placed(s', c) {
      var p :| At(s, p) == Some(c);
      assert At(s', p) == Some(c);
    }
    forall p ensures RingFits(s', p) {
      assert RingFits(s, p);
    }
    assert At(s, ActivePlace) == Some(s.active);
  }

  lemma CollectHands<B>(s: System<B>, b: B)
    requires Owned(s) && Window(s) && b in s.pool
    ensures var s' := Apply(s, CollectEvent(b));
            && SameHands(s, s') && Window(s')
            && (forall g :: g in s.waiting ==> RingOf(s', s.waiting[g]) == RingOf(s, s.waiting[g]))
            && (forall n :: Carried(s, n) ==> RingOf(s', Carrier(s', n)) == RingOf(s, Carrier(s, n)))
            && RingOf(s', s'.active) == RingOf(s, s.active) && Rest(s') == Rest(s)
  {
    NotPooled(s);
    assert SameHands(s, Apply(s, CollectEvent(b)));
  }

  lemma CollectInv<B>(st: State<B>, b: B)
    requires Inv(st) && b in st.sys.pool
    ensures Inv(Next(st, CollectEvent(b)))
  {
    CollectRings(st.sys, b);
    CollectHands(st.sys, b);
    HistoryKept(st.sys, Apply(st.sys, CollectEvent(b)), st.hist);
  }

  lemma NotPooled<B>(s: System<B>)
    requires Owned(s)
    ensures forall g :: g in s.waiting ==> s.waiting[g] !in s.pool
    ensures forall n :: Carried(s, n) ==> Carrier(s, n) !in s.pool
    ensures s.active !in s.pool && s.passive !in s.pool
    ensures s.current.Some? ==> s.current.value !in s.pool
  {
    forall g | g in s.waiting ensures s.waiting[g] !in s.pool {
      assert At(s, WaitingPlace(g)) == Some(s.waiting[g]);
    }
    forall n | Carried(s, n) ensures Carrier(s, n) !in s.pool {
      assert n in s.numbered ==> At(s, NumberedPlace(n)) == Some(s.numbered[n]);
      assert n in s.heap ==> At(s, HeapPlace(n)) == Some(s.heap[n]);
      assert s.reader.Holding? ==> At(s, HeldPlace) == Some(s.reader.buf);
    }
    assert At(s, ActivePlace) == Some(s.active) && At(s, PassivePlace) == Some(s.passive);
    assert s.current.Some? ==> At(s, CurrentPlace) == Some(s.current.value);
  }

  // ---------------------------------------------------------------- every run

  lemma StepInv<B>(st: State<B>, e: Event<B>)
    requires Inv(st) && Enabled(st.sys, e)
    ensures Inv(Next(st, e))
  {
    match e
    case WriteEvent(item, spare) => WriteInv(st, item, spare);
    case SwitchEvent(spare) => RotateInv(st, spare);
    case NumberEvent(g) => NumberInv(st, g);
    case PublishEvent(n) => PublishInv(st, n);
    case BeginEvent => BeginInv(st);
    case PickEvent => PickInv(st);
    case DecideEvent =>
      if st.sys.reader.number == st.sys.currentSequence {
        AdoptInv(st);
      } else {
        PushBackInv(st);
      }
    case TakeEvent => TakeInv(st);
    case CollectEvent(b) => CollectInv(st, b);
  }

  /** Safety over whole runs: whatever is scheduled, from the first state on. */
  lemma {:induction false} RunInv<B>(st: State<B>, es: seq<Event<B>>)
    requires Inv(st) && Possible(st, es)
    ensures Inv(Exec(st, es))
    decreases |es|
  {
    if es != [] {
      StepInv(st, es[0]);
      RunInv(Next(st, es[0]), es[1..]);
    }
  }
}
