/** The DoubleBuffer object: rings, heap and pool as references, each method proved to make
    the step that Stream gives for it. Methods run one at a time; the goroutines a method
    spawns are kept as pending work and run by RunNumber and RunPublish. */
module DoubleBuffers {
  import opened Ring
  import opened SmartBuffers
  import opened MinHeaps
  import Stream
  import StreamSafety
  import StreamProgress

  /** A rotation of a system whose active buffer is already read-only. */
  ghost function Replaced<B>(s: Stream.System<B>, spare: B): Stream.System<B> {
    s.(bufs := s.bufs[spare := Stream.RingOf(s, spare)],
       active := s.passive, passive := spare, pool := s.pool - {spare},
       waiting := s.waiting[s.spawned := s.active], spawned := s.spawned + 1, count := 0)
  }

  lemma RotateInTwo<B>(s: Stream.System<B>, s1: Stream.System<B>, spare: B)
    requires s.active in s.bufs && s.active !in s.pool && Stream.CanGet(s, spare)
    requires s1 == s.(bufs := s.bufs[s.active := s.bufs[s.active].(state := READ_ONLY)])
    ensures Replaced(s1, spare) == Stream.Rotate(s, spare)
  {
  }

  /** The buffers a map refers to. */
  ghost function Held<B>(m: map<int, B>): set<B> {
    set n | n in m :: m[n]
  }

  lemma HeldWithout<B>(m: map<int, B>, n: int)
    requires n in m
    ensures Held(m) == Held(m - {n}) + {m[n]} && |m - {n}| < |m|
  {
    assert (m - {n}).Keys == m.Keys - {n};
    forall b | b in Held(m) ensures b in Held(m - {n}) + {m[n]} {
      var k :| k in m && m[k] == b;
      assert k != n ==> k in m - {n} && (m - {n})[k] == b;
    }
  }

  datatype ReadMode = SafeRead | ZeroCopyRead

  /** safeRead gives up on a length of 0, zeroCopyRead on a nil address; Write queues neither. */
  function Reported(mode: ReadMode, res: Stream.ReadResult): Stream.ReadResult {
    if res.Chunk? && (if mode == SafeRead then res.item.size == 0 else res.item.ptr == 0) then Stream.ErrRead else res
  }

  datatype PickOutcome = HeapEmpty | Adopted | PushedBack

  ghost function NonNull(b: SmartBuffer?): Option<SmartBuffer> {
    if b == null then None else Some(b)
  }

  class DoubleBuffer {
    const size: int
    const pendingHeap: WrapHeap<SmartBuffer>
    var active: SmartBuffer
    var passive: SmartBuffer
    var currentBuffer: SmartBuffer?
    var pool: set<SmartBuffer>
    var state: int
    var count: int
    var sequence: int
    var currentSequence: int
    /** Goroutines that have not drawn a number yet, by spawn order, and those that have. */
    var waiting: map<nat, SmartBuffer>
    var numbered: map<int, SmartBuffer>
    var spawned: nat
    /** All buffers in use; the items of the heap, and their buffers, by sequence number. */
    ghost var bufs: set<SmartBuffer>
    ghost var pending: map<int, MinHeapItem<SmartBuffer>>
    ghost var filed: map<int, SmartBuffer>

    ghost function Arrays(): set<array<BufferItem>>
      reads `bufs, bufs
    {
      set b | b in bufs :: b.buf
    }

    /** Each ring is well formed, uses an array of its own and has not been pushed more than `size` times. */
    ghost predicate RingsValid()
      reads `bufs, bufs
    {
      && 0 <= size <= MAX_INT32
      && (forall b :: b in bufs ==> b.Valid() && b.capacity == size && b.pushed <= size)
      && (forall b, c :: b in bufs && c in bufs && b != c ==> b.buf != c.buf)
    }

    /** The heap holds exactly the pending items, filed under their sequence numbers. */
    ghost predicate HeapValid()
      reads `pending, `filed, pendingHeap, pendingHeap.Items()
    {
      && pendingHeap.Valid() && filed.Keys == pending.Keys
      && (forall n :: n in pending ==>
          pending[n] in pendingHeap.heap && pending[n].sequence == n && pending[n].buf == filed[n])
      && (forall x :: x in pendingHeap.heap ==> x.sequence in pending && pending[x.sequence] == x)
    }

    ghost function Values(): map<SmartBuffer, RingValue>
      requires RingsValid()
      reads `bufs, bufs, Arrays()
    {
      map b | b in bufs :: b.Value()
    }

    /** The object as a state of the transition system. */
    ghost function Snapshot(): Stream.System<SmartBuffer>
      requires RingsValid()
      reads this, bufs, Arrays()
    {
      Stream.System(size, Values(), active, passive, NonNull(currentBuffer), pool, waiting, numbered, filed,
                    sequence, currentSequence, count, spawned, Stream.Idle)
    }

    ghost predicate Valid()
      reads this, bufs, Arrays(), pendingHeap, pendingHeap.Items()
    {
      && RingsValid() && HeapValid() && state == WRITING_STATE
      && StreamSafety.SystemInv(Snapshot())
    }

    constructor (size: int)
      requires 0 <= size <= MAX_INT32
      ensures Valid() && active != passive && Snapshot() == Stream.Initial(size, active, passive)
      ensures fresh(bufs) && fresh(Arrays()) && fresh(pendingHeap) && pendingHeap.heap == []
    {
      hide StreamSafety.SystemInv, SmartBuffer.Valid, SmartBuffer.Value, SmartBuffer.Contents, SmartBuffer.SlotReady;
      this.size := size;
      pendingHeap := new WrapHeap<SmartBuffer>();
      var a := new SmartBuffer(size);
      var p := new SmartBuffer(size);
      active, passive, currentBuffer := a, p, null;
      pool, waiting, numbered, spawned := {}, map[], map[], 0;
      state, count, sequence, currentSequence := WRITING_STATE, 0, 0, 1;
      bufs, pending, filed := {a, p}, map[], map[];
      new;
      StreamSafety.InitialSystem(size, active, passive);
      assert Snapshot() == Stream.Initial(size, active, passive);
    }

    // -------------------------------------------------------------- writing

    /** The heap stays as it is when neither it nor its items are touched. */
    twostate lemma HeapKept()
      requires old(HeapValid()) && unchanged(`pending) && unchanged(`filed) && unchanged(pendingHeap)
      requires forall x :: x in old(pendingHeap.heap) ==> unchanged(x)
      ensures HeapValid()
    {
      forall i | 0 <= i < |pendingHeap.heap| ensures pendingHeap.heap[i].index == old(pendingHeap.heap[i].index) {
        assert pendingHeap.heap[i] in old(pendingHeap.heap);
      }
      assert pendingHeap.Indexed();
    }

    /** Nothing but plain fields of the object has changed. */
    twostate lemma FieldsOnly()
      requires old(RingsValid() && HeapValid()) && unchanged(`pending) && unchanged(`filed) && bufs == old(bufs)
      requires unchanged(pendingHeap) && forall x :: x in old(pendingHeap.heap) ==> unchanged(x)
      requires forall b :: b in bufs ==> unchanged(b) && unchanged(b.buf)
      ensures RingsValid() && HeapValid() && Values() == old(Values())
    {
      HeapKept();
    }

    /** Working on one ring leaves every other ring as it was. */
    twostate lemma OneRingChanged(b: SmartBuffer)
      requires old(RingsValid()) && b in old(bufs) && bufs == old(bufs)
      requires b.Valid() && b.pushed <= size
      requires forall c :: c in bufs && c != b ==> unchanged(c) && unchanged(c.buf)
      ensures RingsValid() && Values() == old(Values())[b := b.Value()]
    {
      hide SmartBuffer.Valid, SmartBuffer.Value, SmartBuffer.Contents, SmartBuffer.SlotReady, HeapValid;
      forall c | c in bufs && c != b ensures c.Valid() && c.Value() == old(c.Value()) {}
    }

    /** Every reference the object holds is one of its buffers. */
    lemma InUse()
      requires Valid()
      ensures active in bufs && passive in bufs && pool <= bufs && active !in pool
      ensures currentBuffer != null ==> currentBuffer in bufs
      ensures forall n :: n in numbered ==> numbered[n] in bufs
      ensures spawned !in waiting
    {
      var s := Snapshot();
      assert StreamSafety.At(s, StreamSafety.ActivePlace) == Some(active);
      assert StreamSafety.At(s, StreamSafety.PassivePlace) == Some(passive);
      assert StreamSafety.At(s, StreamSafety.CurrentPlace) == s.current;
      forall n | n in numbered ensures numbered[n] in bufs {
        assert StreamSafety.At(s, StreamSafety.NumberedPlace(n)) == Some(numbered[n]);
      }
    }

    /** The active ring has never been popped, so the slot of the next push is free. */
    lemma ActiveRoom(item: BufferItem)
      requires Valid()
      ensures active in bufs && active.SlotReady()
      ensures Stream.RingOf(Snapshot(), active) == active.Value()
      ensures WriteValue(active.Value(), size, item).1 == Accepted ==> active.pushed < size
    {
      var s := Snapshot();
      assert StreamSafety.At(s, StreamSafety.ActivePlace) == Some(active);
      assert StreamSafety.RingFits(s, StreamSafety.ActivePlace);
      if active.count < size {
        SafeNextSlot(active.popped, active.pushed, size);
      }
    }

    method WriteActive(item: BufferItem) returns (res: PushResult)
      requires Valid() && Stream.Queueable(item)
      modifies `count, active, active.buf
      ensures Valid() && (Snapshot(), res) == Stream.WriteActive(old(Snapshot()), item)
    {
      hide StreamSafety.SystemInv, HeapValid;
      hide SmartBuffer.Valid, SmartBuffer.Value, SmartBuffer.Contents, SmartBuffer.SlotReady;
      ghost var s := Snapshot();
      ActiveRoom(item);
      res := active.Write(item);
      if res == Accepted {
        count := count + 1;
      }
      OneRingChanged(active);
      HeapKept();
      StreamSafety.AttemptSystem(s, item);
    }

    /** What the pool hands out is one of the buffers in use or a pristine one with an array of its own. */
    ghost predicate Comes(b: SmartBuffer)
      reads `bufs, bufs, b, b.buf
    {
      b in bufs || (b.Valid() && b.capacity == size && b.Value() == PRISTINE && b.pushed == 0 && b.buf !in Arrays())
    }

    /** sync.Pool: some pooled buffer, or a new one. */
    method PoolGet() returns (b: SmartBuffer)
      requires RingsValid() && HeapValid() && pool <= bufs
      modifies `pool
      ensures RingsValid() && HeapValid() && pool == old(pool) - {b}
      ensures Snapshot() == old(Snapshot()).(pool := pool)
      ensures Comes(b) && (b in old(pool) || b !in bufs)
      ensures b in old(pool) || (fresh(b) && fresh(b.buf))
    {
      hide SmartBuffer.Valid, SmartBuffer.Value, SmartBuffer.Contents, SmartBuffer.SlotReady, HeapValid;
      var reuse: bool := *;
      if c: SmartBuffer :| reuse && c in pool {
        b := c;
        pool := pool - {b};
      } else {
        b := new SmartBuffer(size);
      }
      HeapKept();
      assert Values() == old(Values());
    }

    method SwapChannels(newBuf: SmartBuffer) returns (oldActive: SmartBuffer)
      modifies `active, `passive
      ensures oldActive == old(active) && active == old(passive) && passive == newBuf
    {
      oldActive := active;
      active, passive := passive, newBuf;
    }

    /** A buffer from the pool changes nothing; a new one comes in pristine, with its own array. */
    twostate lemma Installed(new b: SmartBuffer)
      requires old(RingsValid()) && bufs == old(bufs) + {b}
      requires forall c :: c in old(bufs) ==> unchanged(c) && unchanged(c.buf)
      requires b !in old(bufs) ==>
        b.Valid() && b.capacity == size && b.Value() == PRISTINE && b.pushed == 0 && b.buf !in old(Arrays())
      ensures RingsValid()
      ensures Values() == old(Values())[b := if b in old(bufs) then old(Values())[b] else PRISTINE]
    {
      hide SmartBuffer.Valid, SmartBuffer.Value, SmartBuffer.Contents, SmartBuffer.SlotReady, HeapValid;
      forall c | c in old(bufs) ensures c.Valid() && c.Value() == old(c.Value()) && c.buf in old(Arrays()) {}
    }

    ghost method Admit(b: SmartBuffer)
      requires RingsValid() && HeapValid() && Comes(b)
      modifies `bufs
      ensures RingsValid() && HeapValid() && bufs == old(bufs) + {b}
      ensures Snapshot() == old(Snapshot()).(bufs := old(Snapshot()).bufs[b := Stream.RingOf(old(Snapshot()), b)])
    {
      hide SmartBuffer.Valid, SmartBuffer.Value, SmartBuffer.Contents, SmartBuffer.SlotReady, HeapValid;
      bufs := bufs + {b};
      Installed(b);
      HeapKept();
      assert Values() == old(Snapshot()).bufs[b := Stream.RingOf(old(Snapshot()), b)];
    }

    /** The end of switchChannel: swap the roles and start the goroutine that will publish. */
    method Spawn(newBuf: SmartBuffer)
      requires RingsValid() && HeapValid()
      modifies `state, `active, `passive, `count, `waiting, `spawned
      ensures RingsValid() && HeapValid() && state == WRITING_STATE
      ensures var s := old(Snapshot());
              Snapshot() == s.(active := s.passive, passive := newBuf, count := 0,
                               waiting := s.waiting[s.spawned := s.active], spawned := s.spawned + 1)
    {
      hide SmartBuffer.Valid, SmartBuffer.Value, SmartBuffer.Contents, SmartBuffer.SlotReady, HeapValid;
      var buf := SwapChannels(newBuf);
      count := 0;
      waiting := waiting[spawned := buf];
      spawned := spawned + 1;
      state := WRITING_STATE;
      FieldsOnly();
    }

    /** The beginning of switchChannel: claim the switch and make the active buffer read-only. */
    method Retire()
      requires RingsValid() && HeapValid() && active in bufs
      modifies `state, active
      ensures RingsValid() && HeapValid() && state == SWITCHING_STATE
      ensures var s := old(Snapshot());
              Snapshot() == s.(bufs := s.bufs[s.active := s.bufs[s.active].(state := READ_ONLY)])
    {
      hide SmartBuffer.Valid, SmartBuffer.Value, SmartBuffer.Contents, SmartBuffer.SlotReady, HeapValid;
      state := SWITCHING_STATE;
      active.SetState(READ_ONLY);
      OneRingChanged(active);
      HeapKept();
    }

    /** switchChannel; the goroutine it starts joins the waiting ones. */
    method SwitchChannel() returns (ghost spare: SmartBuffer)
      requires Valid()
      modifies `state, `pool, `active, `passive, `count, `waiting, `spawned, `bufs, active
      ensures Valid() && Stream.CanGet(old(Snapshot()), spare)
      ensures Snapshot() == Stream.Rotate(old(Snapshot()), spare)
      ensures bufs == old(bufs) + {spare}
      ensures spare !in old(bufs) ==> fresh(spare) && fresh(spare.buf)
    {
      hide StreamSafety.SystemInv, HeapValid;
      hide SmartBuffer.Valid, SmartBuffer.Value, SmartBuffer.Contents, SmartBuffer.SlotReady;
      InUse();
      Retire();
      ghost var retired := Snapshot();
      var newBuf := PoolGet();
      spare := newBuf;
      Admit(newBuf);
      Spawn(newBuf);
      RotateInTwo(old(Snapshot()), retired, spare);
      StreamSafety.RotateSystem(old(Snapshot()), spare);
    }

    /** The slow path of Write: rotate if the active buffer is read-only, then try again. */
    method WriteSlowly(item: BufferItem) returns (res: PushResult, ghost spare: SmartBuffer)
      requires Valid() && Stream.Queueable(item)
      modifies this, active, active.buf, passive, passive.buf
      ensures Valid()
      ensures var s := old(Snapshot());
              (Snapshot(), res) ==
              Stream.WriteActive(if Stream.RingOf(s, s.active).state == READ_ONLY then Stream.Rotate(s, spare) else s, item)
      ensures Stream.RingOf(old(Snapshot()), old(active)).state == READ_ONLY ==> Stream.CanGet(old(Snapshot()), spare)
    {
      hide StreamSafety.SystemInv, SmartBuffer.Valid, SmartBuffer.Contents, SmartBuffer.SlotReady, HeapValid;
      InUse();
      spare := passive;
      if active.GetState() == READ_ONLY {
        spare := SwitchChannel();
      }
      res := WriteActive(item);
    }

    /** Write of an item whose payload has been filed: the fast path, and if the active buffer
        is full a rotation and a second attempt. */
    method Write(item: BufferItem) returns (res: PushResult, ghost spare: SmartBuffer)
      requires state == CLOSED_STATE || (Valid() && Stream.Queueable(item))
      modifies this, active, active.buf, passive, passive.buf
      ensures old(state) == CLOSED_STATE ==> res == RejectedClosed && unchanged(this)
      ensures old(state) != CLOSED_STATE ==>
        && Valid() && (Snapshot(), res) == Stream.Write(old(Snapshot()), item, spare)
        && (spawned != old(spawned) ==> Stream.CanGet(old(Snapshot()), spare))
    {
      hide StreamSafety.SystemInv, HeapValid;
      hide SmartBuffer.Valid, SmartBuffer.Value, SmartBuffer.Contents, SmartBuffer.SlotReady;
      spare := passive;
      if state == CLOSED_STATE {
        return RejectedClosed, spare;
      }
      res := WriteActive(item);
      if res != Accepted {
        res, spare := WriteSlowly(item);
      }
    }

    // -------------------------------------------------------------- publishing goroutines

    /** The first half of the publishing goroutine spawned as number `g`: draw a sequence number. */
    method RunNumber(g: nat)
      requires Valid() && g in waiting
      modifies `waiting, `numbered, `sequence
      ensures Valid() && Snapshot() == Stream.Number(old(Snapshot()), g)
    {
      hide StreamSafety.SystemInv, HeapValid;
      hide SmartBuffer.Valid, SmartBuffer.Value, SmartBuffer.Contents, SmartBuffer.SlotReady;
      ghost var s := Snapshot();
      sequence := sequence + 1;
      numbered := numbered[sequence := waiting[g]];
      waiting := waiting - {g};
      FieldsOnly();
      StreamSafety.NumberSystem(s, g);
    }

    /** The second half: push the buffer into the heap. */
    method RunPublish(n: int)
      requires Valid() && n in numbered
      modifies `numbered, `pending, `filed, pendingHeap, pendingHeap.Items()
      ensures Valid() && Snapshot() == Stream.Publish(old(Snapshot()), n)
    {
      hide StreamSafety.SystemInv, HeapValid;
      hide SmartBuffer.Valid, SmartBuffer.Value, SmartBuffer.Contents, SmartBuffer.SlotReady;
      ghost var s := Snapshot();
      NumberedNotFiled(n);
      var item := new MinHeapItem(n, numbered[n]);
      numbered := numbered - {n};
      RingsKept();
      File(item);
      StreamSafety.PublishSystem(s, n);
    }

    lemma NumberedNotFiled(n: int)
      requires Valid() && n in numbered
      ensures n !in filed
    {
    }

    /** Rings and buffers are as they were. */
    twostate lemma RingsKept()
      requires old(RingsValid()) && bufs == old(bufs)
      requires forall b :: b in bufs ==> unchanged(b) && unchanged(b.buf)
      ensures RingsValid() && Values() == old(Values())
    {
    }

    /** `d.pendingHeap.Push`. */
    method File(item: MinHeapItem<SmartBuffer>)
      requires RingsValid() && HeapValid() && item !in pendingHeap.heap && item.sequence !in filed
      modifies `pending, `filed, pendingHeap, item, pendingHeap.Items()
      ensures RingsValid() && HeapValid()
      ensures pending == old(pending)[item.sequence := item] && filed == old(filed)[item.sequence := item.buf]
      ensures Values() == old(Values()) && pendingHeap.Items() == old(pendingHeap.Items()) + {item}
    {
      hide SmartBuffer.Valid, SmartBuffer.Value, SmartBuffer.Contents, SmartBuffer.SlotReady;
      pendingHeap.Push(item);
      pending := pending[item.sequence := item];
      filed := filed[item.sequence := item.buf];
      RingsKept();
    }

    // -------------------------------------------------------------- reading

    /** `d.pendingHeap.Pick`: the item with the least number, None from an empty heap. */
    method Unfile() returns (picked: Option<MinHeapItem<SmartBuffer>>)
      requires RingsValid() && HeapValid()
      modifies `pending, `filed, pendingHeap, pendingHeap.Items()
      ensures RingsValid() && HeapValid() && Values() == old(Values())
      ensures picked == None ==>
        && (forall n :: n !in filed) && filed == old(filed) && pending == old(pending)
        && pendingHeap.Items() == old(pendingHeap.Items())
      ensures picked.Some? ==>
        && var n := picked.value.sequence;
        && n in old(filed) && (forall m :: m in old(filed) ==> n <= m) && old(pending)[n] == picked.value
        && picked.value.buf == old(filed)[n] && picked.value !in pendingHeap.heap
        && pending == old(pending) - {n} && filed == old(filed) - {n}
        && picked.value in old(pendingHeap.Items()) && pendingHeap.Items() <= old(pendingHeap.Items())
    {
      hide SmartBuffer.Valid, SmartBuffer.Value, SmartBuffer.Contents, SmartBuffer.SlotReady;
      picked := pendingHeap.Pick();
      if picked.Some? {
        var n := picked.value.sequence;
        pending := pending - {n};
        filed := filed - {n};
      } else {
        forall n ensures n !in filed {}
      }
      RingsKept();
    }

    method Adopt(buf: SmartBuffer)
      requires RingsValid() && HeapValid()
      modifies `currentBuffer, `currentSequence
      ensures RingsValid() && HeapValid() && currentBuffer == buf
      ensures Snapshot() == old(Snapshot()).(current := Some(buf), currentSequence := old(currentSequence) + 1)
    {
      hide SmartBuffer.Valid, SmartBuffer.Value, SmartBuffer.Contents, SmartBuffer.SlotReady, HeapValid, RingsValid;
      currentBuffer := buf;
      currentSequence := currentSequence + 1;
      FieldsOnly();
    }

    /** One round of the retry loop: the heap is empty, or its least item is the buffer whose
        turn it is and is adopted, or the item goes back. */
    method PickOnce() returns (outcome: PickOutcome)
      requires RingsValid() && HeapValid() && currentBuffer == null
      modifies `currentBuffer, `currentSequence, `pending, `filed, pendingHeap, pendingHeap.Items()
      ensures RingsValid() && HeapValid() && pendingHeap.Items() <= old(pendingHeap.Items())
      ensures outcome == HeapEmpty ==> (forall n :: n !in filed) && currentBuffer == null && Snapshot() == old(Snapshot())
      ensures outcome == Adopted ==>
        && old(currentSequence) in old(filed) && currentBuffer != null
        && Snapshot() == StreamProgress.Adopted(old(Snapshot())).(reader := Stream.Idle)
      ensures outcome == PushedBack ==>
        && Snapshot() == old(Snapshot()) && currentBuffer == null
        && exists n :: n in filed && n != currentSequence && forall m :: m in filed ==> n <= m
    {
      hide SmartBuffer.Valid, SmartBuffer.Value, SmartBuffer.Contents, SmartBuffer.SlotReady,
        HeapValid, RingsValid, NonNull;
      var bufferItem := Unfile();
      if bufferItem == None {
        return HeapEmpty;
      }
      if bufferItem.value.sequence == currentSequence {
        Adopt(bufferItem.value.buf);
        return Adopted;
      }
      File(bufferItem.value);
      assert Values() == old(Values()) && filed == old(filed);
      return PushedBack;
    }

    /** The retry loop: it succeeds exactly when the buffer whose turn it is has reached the
        heap, and otherwise leaves everything as it was. */
    method PickBufferFromHeap() returns (ok: bool)
      requires Valid() && currentBuffer == null
      modifies `currentBuffer, `currentSequence, `pending, `filed, pendingHeap, pendingHeap.Items()
      ensures Valid() && ok == (old(currentSequence) in old(filed)) && ok == (currentBuffer != null)
      ensures Snapshot() == if ok then StreamProgress.Adopted(old(Snapshot())).(reader := Stream.Idle) else old(Snapshot())
    {
      hide StreamSafety.SystemInv, SmartBuffer.Valid, SmartBuffer.Value, SmartBuffer.Contents, SmartBuffer.SlotReady,
        HeapValid, RingsValid;
      ghost var s := Snapshot();
      CurrentIsLeast();
      var counter := 0;
      while counter < Stream.MAX_RETRIES
        invariant RingsValid() && HeapValid() && pendingHeap.Items() <= old(pendingHeap.Items())
        invariant Snapshot() == s && currentBuffer == null
        invariant 0 < counter ==> s.currentSequence !in s.heap
        decreases Stream.MAX_RETRIES - counter
      {
        var outcome := PickOnce();
        match outcome
        case HeapEmpty => return false;
        case Adopted =>
          StreamProgress.AdoptedSystem(s);
          return true;
        case PushedBack =>
          counter := counter + 1;
      }
      ok := currentBuffer != null;
    }

    /** The awaited number is below every other number in the heap. */
    lemma CurrentIsLeast()
      requires Valid()
      ensures forall n :: n in filed ==> currentSequence <= n
    {
      forall n | n in filed ensures currentSequence <= n {
        assert StreamSafety.Carried(Snapshot(), n);
      }
    }

    /** The head of tryRead: an exhausted current buffer is reset and pooled. */
    method Recycle()
      requires Valid() && currentBuffer != null && currentBuffer.Len() == 0
      modifies `currentBuffer, `pool, currentBuffer
      ensures Valid() && currentBuffer == null
      ensures Snapshot() == Stream.Begin(old(Snapshot())).(reader := Stream.Idle)
    {
      hide StreamSafety.SystemInv, HeapValid;
      hide SmartBuffer.Valid, SmartBuffer.Value, SmartBuffer.Contents, SmartBuffer.SlotReady;
      ghost var s := Snapshot();
      InUse();
      CurrentLength();
      var uselessBuffer: SmartBuffer := currentBuffer;
      uselessBuffer.Reset();
      OneRingChanged(uselessBuffer);
      currentBuffer := null;
      pool := pool + {uselessBuffer};
      assert Snapshot() == Stream.Begin(s).(reader := Stream.Idle);
      HeapKept();
      StreamProgress.RecycledSystem(s);
    }

    lemma CurrentLength()
      requires Valid() && currentBuffer != null
      ensures currentBuffer in bufs && Snapshot().current == Some(currentBuffer)
      ensures Stream.RingOf(Snapshot(), currentBuffer).items == [] <==> currentBuffer.Len() == 0
    {
      InUse();
    }

    /** Neither reading mode ever gives up on an item: Write queues none without length or address. */
    lemma CurrentQueueable()
      requires Valid() && currentBuffer != null
      ensures StreamSafety.AllQueueable(Stream.RingOf(Snapshot(), currentBuffer).items)
    {
      assert StreamSafety.RingFits(Snapshot(), StreamSafety.CurrentPlace);
    }

    /** The pop that ends tryRead. */
    method TakeItem(mode: ReadMode) returns (res: Stream.ReadResult)
      requires Valid() && currentBuffer != null
      modifies currentBuffer, currentBuffer.buf
      ensures Valid()
      ensures var (s', r) := Stream.Take(old(Snapshot()).(reader := Stream.Ready));
              Snapshot() == s' && res == r
    {
      hide StreamSafety.SystemInv, HeapValid;
      hide SmartBuffer.Valid, SmartBuffer.Value, SmartBuffer.Contents, SmartBuffer.SlotReady;
      ghost var s := Snapshot();
      CurrentLength();
      CurrentQueueable();
      var empty := currentBuffer.Len() == 0;
      var item := currentBuffer.Pop();
      OneRingChanged(currentBuffer);
      HeapKept();
      StreamProgress.TakenSystem(s);
      if empty {
        return Stream.ErrRead;
      }
      res := Reported(mode, Stream.Chunk(item));
    }

    /** The branch of tryRead that looks for the next buffer. */
    method Refill() returns (found: bool)
      requires Valid() && (currentBuffer == null || currentBuffer.Len() == 0)
      modifies `currentBuffer, `currentSequence, `pool, currentBuffer
      modifies `pending, `filed, pendingHeap, pendingHeap.Items()
      ensures Valid() && found == (old(currentSequence) in old(filed)) && found == (currentBuffer != null)
      ensures var s1 := Stream.Begin(old(Snapshot()));
              Snapshot() == (if found then StreamProgress.Adopted(s1) else s1).(reader := Stream.Idle)
    {
      hide StreamSafety.SystemInv, SmartBuffer.Valid, SmartBuffer.Value, SmartBuffer.Contents, SmartBuffer.SlotReady,
        HeapValid, RingsValid;
      Cases();
      if currentBuffer != null {
        Recycle();
      }
      found := PickBufferFromHeap();
    }

    /** tryRead, run alone. */
    method TryRead(mode: ReadMode) returns (res: Stream.ReadResult)
      requires Valid()
      modifies this, bufs, Arrays(), pendingHeap, pendingHeap.Items()
      ensures Valid()
      ensures var (s', r) := Stream.TryRead(old(Snapshot()));
              Snapshot() == s' && res == r
    {
      hide StreamSafety.SystemInv, SmartBuffer.Valid, SmartBuffer.Value, SmartBuffer.Contents, SmartBuffer.SlotReady,
        HeapValid, RingsValid;
      Cases();
      InUse();
      if currentBuffer == null || currentBuffer.Len() == 0 {
        var found := Refill();
        if !found {
          return Stream.ErrNoBuffer;
        }
        InUse();
      }
      res := TakeItem(mode);
    }

    lemma Cases()
      requires Valid()
      ensures var s := Snapshot();
              && (currentBuffer == null <==> s.current == None)
              && (currentBuffer != null ==>
                    && s.current == Some(currentBuffer)
                    && (Stream.RingOf(s, currentBuffer).items == [] <==> currentBuffer.Len() == 0))
      ensures var s, s1 := Snapshot(), Stream.Begin(Snapshot());
              Stream.TryRead(s) ==
              if s1.reader.Ready? then Stream.Take(s1)
              else if s.currentSequence in s.heap then Stream.Take(StreamProgress.Adopted(s1))
              else (s1.(reader := Stream.Idle), Stream.ErrNoBuffer)
    {
      if currentBuffer != null {
        CurrentLength();
      }
      StreamProgress.TryReadCases(Snapshot());
    }

    // -------------------------------------------------------------- closing

    /** drainProcessor: every published buffer goes to the pool, whatever it still holds. */
    method DrainProcessor()
      requires RingsValid() && HeapValid()
      modifies `pool, `pending, `filed, pendingHeap, pendingHeap.Items()
      ensures RingsValid() && HeapValid() && Values() == old(Values())
      ensures (forall n :: n !in filed) && pool == old(pool) + old(Held(filed))
    {
      hide SmartBuffer.Valid, SmartBuffer.Value, SmartBuffer.Contents, SmartBuffer.SlotReady, HeapValid, RingsValid;
      ghost var all := pool + Held(filed);
      var more := true;
      while more
        invariant RingsValid() && HeapValid() && Values() == old(Values())
        invariant pendingHeap.Items() <= old(pendingHeap.Items())
        invariant pool + Held(filed) == all
        invariant !more ==> forall n :: n !in filed
        decreases more, |filed|
      {
        more := DrainOne();
      }
    }

    method PoolPut(b: SmartBuffer)
      requires RingsValid() && HeapValid()
      modifies `pool
      ensures RingsValid() && HeapValid() && Values() == old(Values()) && pool == old(pool) + {b}
    {
      hide SmartBuffer.Valid, SmartBuffer.Value, SmartBuffer.Contents, SmartBuffer.SlotReady, HeapValid, RingsValid;
      pool := pool + {b};
      FieldsOnly();
    }

    method DrainOne() returns (more: bool)
      requires RingsValid() && HeapValid()
      modifies `pool, `pending, `filed, pendingHeap, pendingHeap.Items()
      ensures RingsValid() && HeapValid() && Values() == old(Values())
      ensures pendingHeap.Items() <= old(pendingHeap.Items())
      ensures pool + Held(filed) == old(pool) + old(Held(filed))
      ensures if more then |filed| < old(|filed|) else filed == old(filed) && forall n :: n !in filed
    {
      hide SmartBuffer.Valid, SmartBuffer.Value, SmartBuffer.Contents, SmartBuffer.SlotReady, HeapValid, RingsValid;
      var item := Unfile();
      if item == None {
        return false;
      }
      HeldWithout(old(filed), item.value.sequence);
      PoolPut(item.value.buf);
      more := true;
    }

    /** Close of a double buffer that is writing: closed for good, its two buffers and all
        published ones pooled with their contents. During a switch, and a second time, it does
        nothing. */
    method Close()
      requires state == WRITING_STATE ==> Valid()
      modifies this, pendingHeap, pendingHeap.Items()
      ensures old(state) != WRITING_STATE ==> unchanged(this) && unchanged(pendingHeap)
      ensures old(state) == WRITING_STATE ==>
        && state == CLOSED_STATE
        && pool == old(pool) + {active, passive} + old(Held(filed))
        && (forall n :: n !in filed) && RingsValid() && Values() == old(Values())
        && active == old(active) && passive == old(passive) && currentBuffer == old(currentBuffer)
        && waiting == old(waiting) && numbered == old(numbered)
    {
      hide SmartBuffer.Valid, SmartBuffer.Value, SmartBuffer.Contents, SmartBuffer.SlotReady, HeapValid, RingsValid;
      if state != WRITING_STATE {
        return;
      }
      state := CLOSED_STATE;
      pool := pool + {active};
      pool := pool + {passive};
      FieldsOnly();
      DrainProcessor();
    }
  }
}
