/** What bytes a reader gets: those in the queue at the time of the read, and those written if the
    callers keep their hands off the payload until then. */
module PayloadReads {
  import opened Payloads

  // ---------------------------------------------------------------- one write

  /** A write queues what the payload reads at that moment: in place from 1024 bytes on, and below
      that in a buffer that is neither the caller's nor pooled. An empty payload is not queued. */
  lemma WriteQueues<B>(m: Memory<B>, p: Slice<B>, got: B, bigger: B)
    requires Inv(m) && Enabled(m, Write(p, got, bigger))
    ensures var m' := Next(m, Write(p, got, bigger));
            && m'.handed == m.handed && m'.theirs == m.theirs
            && (p.len == 0 ==> m'.queue == m.queue && m'.accepted == m.accepted)
            && (p.len > 0 ==>
                  && |m'.queue| == |m.queue| + 1 && m'.queue[..|m.queue|] == m.queue
                  && m'.accepted == m.accepted + [m.heap[p.buf][..p.len]]
                  && var s := m'.queue[|m.queue|];
                     s.len == p.len && Bytes(m', s) == m.heap[p.buf][..p.len])
            && (p.len >= 1024 ==> m'.queue[|m.queue|] == p && m'.heap == m.heap)
            && (0 < p.len < 1024 ==> m'.queue[|m.queue|].buf !in m'.pool && m'.queue[|m.queue|].buf !in m.theirs)
  {
    if Small(p.len) && p.len > 0 {
      CopyInv(m, p, got, bigger);
    }
  }

  // ---------------------------------------------------------------- one read

  /** Any read can be made as long as something is queued. */
  lemma ReadsEnabled<B>(m: Memory<B>, mediumValid: bool, got: B, bigger: B)
    requires m.queue != [] && got !in m.heap && bigger !in m.heap && got != bigger
    ensures Enabled(m, ZeroCopyRead) && Enabled(m, SafeRead(mediumValid, got, bigger))
  {
  }

  /** A read in either mode, of a payload of any length, takes the oldest one out of the queue and
      hands out a chunk that reads as that payload did in the queue. */
  lemma ReadDelivers<B>(m: Memory<B>, e: Event<B>)
    requires Inv(m) && Enabled(m, e) && (e.SafeRead? || e.ZeroCopyRead?)
    ensures var m' := Next(m, e);
            && m'.queue == m.queue[1..] && m'.accepted == m.accepted && m'.theirs == m.theirs
            && |m'.handed| == |m.handed| + 1 && m'.handed[..|m.handed|] == m.handed
            && var data := m'.handed[|m.handed|].data;
               data.len == m.queue[0].len && Bytes(m', data) == Bytes(m, m.queue[0])
  {
    var item := m.queue[0];
    assert SliceOf(m, |m.handed|) == item && Fits(m, |m.handed|);
    if e.SafeRead? && Small(item.len) {
      CopyInv(m, item, e.got, e.bigger);
    }
  }

  /** Where the chunk lies. The copying read takes a small buffer for a payload below 1024 bytes, a
      new one for an expired payload of up to 32768 bytes, and hands out all others, like the other
      read, where they are. */
  lemma ReadPlaces<B>(m: Memory<B>, e: Event<B>)
    requires Inv(m) && Enabled(m, e) && (e.SafeRead? || e.ZeroCopyRead?)
    ensures var item, chunk := m.queue[0], Next(m, e).handed[|m.handed|];
            && (e.ZeroCopyRead? || item.len > 32768 || (item.len >= 1024 && e.mediumValid) ==>
                  chunk == Chunk(item, Untrack))
            && (e.SafeRead? && item.len < 1024 ==>
                  chunk.free == PutBack(chunk.data.buf) && (chunk.data.buf in m.pool || chunk.data.buf !in m.heap))
            && (e.SafeRead? && 1024 <= item.len <= 32768 && !e.mediumValid ==>
                  chunk.free == Untrack && chunk.data.buf !in m.heap)
  {
    var item := m.queue[0];
    assert SliceOf(m, |m.handed|) == item && Fits(m, |m.handed|);
    if e.SafeRead? && Small(item.len) {
      CopyInv(m, item, e.got, e.bigger);
    }
  }

  /** The release of a small chunk returns its buffer to the pool; the next one does nothing. */
  lemma ReleaseReturns<B>(m: Memory<B>, k: nat)
    requires k < |m.handed|
    ensures var m' := Next(m, Release(k));
            && m'.pool == m.pool + (if m.handed[k].free.PutBack? then {m.handed[k].free.buf} else {})
            && m'.heap == m.heap && m'.queue == m.queue && m'.handed[k].data == m.handed[k].data
            && Next(m', Release(k)) == m'
  {
    var m' := Next(m, Release(k));
    assert m'.handed[k := m'.handed[k].(free := Nothing)] == m'.handed;
  }

  // ---------------------------------------------------------------- payloads nobody touches until they are read

  /** No buffer of 1024 bytes or more is ever pooled. */
  ghost predicate PoolSmall<B>(m: Memory<B>) {
    && (forall b :: b in m.pool && b in m.heap ==> |m.heap[b]| < 1024)
    && (forall n: nat :: n < |m.handed| && m.handed[n].free.PutBack? ==>
          m.handed[n].free.buf in m.heap && |m.heap[m.handed[n].free.buf]| < 1024)
  }

  /** What is queued reads as it was written. */
  ghost predicate QueueIntact<B>(m: Memory<B>)
    requires |m.handed| + |m.queue| == |m.accepted|
  {
    forall k :: 0 <= k < |m.queue| ==> Bytes(m, m.queue[k]) == m.accepted[|m.handed| + k]
  }

  ghost predicate Kept<B>(m: Memory<B>) {
    Inv(m) && PoolSmall(m) && |m.handed| + |m.queue| == |m.accepted| && QueueIntact(m)
  }

  /** The step is not a store of a caller into a payload on its way. */
  ghost predicate HandsOff<B>(m: Memory<B>, e: Event<B>) {
    e.CallerStores? ==> forall k :: 0 <= k < |m.queue| ==> m.queue[k].buf != e.a
  }

  ghost predicate AllHandsOff<B>(m: Memory<B>, es: seq<Event<B>>)
    requires Possible(m, es)
    decreases |es|
  {
    es == [] || (HandsOff(m, es[0]) && AllHandsOff(Next(m, es[0]), es[1..]))
  }

  /** Queued payloads do not lie in pooled buffers. */
  lemma QueuedNotPooled<B>(m: Memory<B>, k: nat)
    requires Inv(m) && PoolSmall(m) && k < |m.queue|
    ensures m.queue[k].buf in m.heap && m.queue[k].len <= |m.heap[m.queue[k].buf]| && m.queue[k].buf !in m.pool
  {
    assert SliceOf(m, |m.handed| + k) == m.queue[k] && Fits(m, |m.handed| + k);
    assert Small(m.queue[k].len) ==> Live(m, |m.handed| + k);
  }

  /** The same payloads are queued, in buffers that have not changed. */
  lemma QueueSame<B>(m: Memory<B>, m': Memory<B>)
    requires Kept(m) && m'.queue == m.queue && |m'.handed| == |m.handed| && m'.accepted == m.accepted
    requires forall k :: 0 <= k < |m.queue| ==>
                (var b := m.queue[k].buf; b in m.heap && b in m'.heap && m'.heap[b] == m.heap[b])
    ensures |m'.handed| + |m'.queue| == |m'.accepted| && QueueIntact(m')
    ensures forall k :: 0 <= k < |m.queue| ==> Bytes(m', m.queue[k]) == Bytes(m, m.queue[k])
  {
    hide Inv, PoolSmall;
  }

  /** No buffer has changed its size, and none has come into the pool. */
  lemma PoolSame<B>(m: Memory<B>, m': Memory<B>)
    requires PoolSmall(m) && m'.pool <= m.pool && m'.handed == m.handed
    requires forall b :: b in m.heap ==> b in m'.heap && |m'.heap[b]| == |m.heap[b]|
    requires m.pool <= m.heap.Keys
    ensures PoolSmall(m')
  {
  }

  /** The buffer in which a copy is made, and what the copy does to the others. */
  lemma CopyAside<B>(m: Memory<B>, s: Slice<B>, got: B, bigger: B)
    requires Kept(m) && CanGrab(m, got, bigger, s.len) && s.buf in m.heap && s.len <= |m.heap[s.buf]| && s.len < 1024
    ensures var m' := CopySmall(m, s, got, bigger);
            && m'.queue == m.queue && m'.handed == m.handed && m'.accepted == m.accepted && PoolSmall(m')
            && |m'.handed| + |m'.queue| == |m'.accepted| && QueueIntact(m')
            && (forall k :: 0 <= k < |m.queue| ==> Bytes(m', m.queue[k]) == Bytes(m, m.queue[k]))
            && var b := Grabbed(m, got, bigger, s.len); b in m'.heap && |m'.heap[b]| < 1024
  {
    var m', b := CopySmall(m, s, got, bigger), Grabbed(m, got, bigger, s.len);
    forall k: nat | k < |m.queue| ensures m.queue[k].buf in m.heap && m.queue[k].buf !in m.pool {
      QueuedNotPooled(m, k);
    }
    CopyHeap(m, s, got, bigger);
    hide CopySmall, Inv, PoolSmall, QueueIntact, Grabbed;
    QueueSame(m, m');
    PoolSame(m, m');
  }

  /** The copy touches one buffer that is pooled or new, and leaves all sizes as they are. */
  lemma CopyHeap<B>(m: Memory<B>, s: Slice<B>, got: B, bigger: B)
    requires Kept(m) && CanGrab(m, got, bigger, s.len) && s.buf in m.heap && s.len <= |m.heap[s.buf]| && s.len < 1024
    ensures var m', b := CopySmall(m, s, got, bigger), Grabbed(m, got, bigger, s.len);
            && m'.queue == m.queue && m'.handed == m.handed && m'.accepted == m.accepted
            && m'.pool <= m.pool <= m.heap.Keys
            && (forall c :: c in m.heap ==> c in m'.heap && |m'.heap[c]| == |m.heap[c]|)
            && (forall c :: c in m.heap && c !in m.pool ==> m'.heap[c] == m.heap[c])
            && b in m'.heap && |m'.heap[b]| < 1024
  {
    hide Intact, QueueIntact, Fits;
  }

  lemma WriteKeeps<B>(m: Memory<B>, p: Slice<B>, got: B, bigger: B)
    requires Kept(m) && Enabled(m, Write(p, got, bigger))
    ensures PoolSmall(Written(m, p, got, bigger))
    ensures var m' := Written(m, p, got, bigger); |m'.handed| + |m'.queue| == |m'.accepted| && QueueIntact(m')
  {
    hide Inv, CopySmall, Grab, PoolSmall, QueueIntact, Bytes, Untouched, Live;
    if p.len == 0 {
      GrabAside(m, got, bigger);
    } else if Small(p.len) {
      CopyAside(m, p, got, bigger);
      CopyInv(m, p, got, bigger);
      EnqueueKeeps(CopySmall(m, p, got, bigger), Slice(Grabbed(m, got, bigger, p.len), p.len), Bytes(m, p));
    } else {
      EnqueueKeeps(m, p, Bytes(m, p));
    }
  }

  lemma EnqueueKeeps<B>(m: Memory<B>, s: Slice<B>, bytes: seq<Byte>)
    requires PoolSmall(m) && |m.handed| + |m.queue| == |m.accepted| && QueueIntact(m) && Bytes(m, s) == bytes
    ensures var m' := m.(queue := m.queue + [s], accepted := m.accepted + [bytes]);
            PoolSmall(m') && |m'.handed| + |m'.queue| == |m'.accepted| && QueueIntact(m')
  {
  }

  lemma GrabAside<B>(m: Memory<B>, got: B, bigger: B)
    requires Kept(m)
    requires CanGrab(m, got, bigger, 0)
    ensures var m' := Grab(m, got, bigger, 0);
            PoolSmall(m') && |m'.handed| + |m'.queue| == |m'.accepted| && QueueIntact(m')
  {
    forall k: nat | k < |m.queue| ensures m.queue[k].buf in m.heap {
      QueuedNotPooled(m, k);
    }
  }

  /** The chunk handed out of a state whose queue reads as written. */
  lemma HandOutKeeps<B>(m: Memory<B>, chunk: Chunk<B>)
    requires PoolSmall(m) && |m.handed| + |m.queue| == |m.accepted| && QueueIntact(m) && m.queue != []
    requires chunk.free.PutBack? ==> chunk.free.buf in m.heap && |m.heap[chunk.free.buf]| < 1024
    ensures PoolSmall(HandOut(m, chunk))
    ensures var m' := HandOut(m, chunk); |m'.handed| + |m'.queue| == |m'.accepted| && QueueIntact(m')
  {
    forall k | 0 <= k < |m.queue[1..]| ensures m.queue[1..][k] == m.queue[k + 1] {}
  }

  lemma NewBufferKeeps<B>(m: Memory<B>, b: B, bytes: seq<Byte>)
    requires Kept(m) && b !in m.heap
    ensures PoolSmall(m.(heap := m.heap[b := bytes])) && QueueIntact(m.(heap := m.heap[b := bytes]))
  {
    forall k: nat | k < |m.queue| ensures m.queue[k].buf in m.heap {
      QueuedNotPooled(m, k);
    }
  }

  lemma ReadKeeps<B>(m: Memory<B>, e: Event<B>)
    requires Kept(m) && Enabled(m, e) && (e.SafeRead? || e.ZeroCopyRead?)
    ensures PoolSmall(Next(m, e))
    ensures var m' := Next(m, e); |m'.handed| + |m'.queue| == |m'.accepted| && QueueIntact(m')
  {
    var item := m.queue[0];
    QueuedNotPooled(m, 0);
    if e.ZeroCopyRead? || item.len > LARGE_DATA_THRESHOLD || (!Small(item.len) && e.mediumValid) {
      HandOutKeeps(m, Chunk(item, Untrack));
    } else if Small(item.len) {
      CopyAside(m, item, e.got, e.bigger);
      hide CopySmall, PoolSmall;
      var b := Grabbed(m, e.got, e.bigger, item.len);
      HandOutKeeps(CopySmall(m, item, e.got, e.bigger), Chunk(Slice(b, item.len), PutBack(b)));
    } else {
      NewBufferKeeps(m, e.bigger, Bytes(m, item));
      HandOutKeeps(m.(heap := m.heap[e.bigger := Bytes(m, item)]), Chunk(Slice(e.bigger, item.len), Untrack));
    }
  }

  lemma CallerKeeps<B>(m: Memory<B>, e: Event<B>)
    requires Kept(m) && Enabled(m, e) && HandsOff(m, e) && (e.CallerMakes? || e.CallerStores? || e.DropBuffer?)
    ensures PoolSmall(Next(m, e))
    ensures var m' := Next(m, e); |m'.handed| + |m'.queue| == |m'.accepted| && QueueIntact(m')
  {
    forall k: nat | k < |m.queue| ensures m.queue[k].buf in m.heap {
      QueuedNotPooled(m, k);
    }
    assert m.pool <= m.heap.Keys;
    hide Inv, PoolSmall, QueueIntact;
    QueueSame(m, Next(m, e));
    PoolSame(m, Next(m, e));
  }

  lemma ReleaseKeeps<B>(m: Memory<B>, k: nat)
    requires Kept(m) && k < |m.handed|
    ensures PoolSmall(Released(m, k))
    ensures var m' := Released(m, k); |m'.handed| + |m'.queue| == |m'.accepted| && QueueIntact(m')
  {
    forall n: nat | n < |m.queue| ensures m.queue[n].buf in m.heap {
      QueuedNotPooled(m, n);
    }
    hide Inv, QueueIntact;
    QueueSame(m, Released(m, k));
  }

  lemma StepKeeps<B>(m: Memory<B>, e: Event<B>)
    requires Kept(m) && Enabled(m, e) && HandsOff(m, e)
    ensures Kept(Next(m, e))
  {
    StepInv(m, e);
    hide Inv, PoolSmall, QueueIntact;
    match e
    case Write(p, got, bigger) => WriteKeeps(m, p, got, bigger);
    case SafeRead(_, _, _) => ReadKeeps(m, e);
    case ZeroCopyRead => ReadKeeps(m, e);
    case Release(k) => ReleaseKeeps(m, k);
    case _ => CallerKeeps(m, e);
  }

  lemma {:induction false} RunKeeps<B>(m: Memory<B>, es: seq<Event<B>>)
    requires Kept(m) && Possible(m, es) && AllHandsOff(m, es)
    ensures Kept(Exec(m, es))
    decreases |es|
  {
    if es != [] {
      hide Kept;
      StepKeeps(m, es[0]);
      RunKeeps(Next(m, es[0]), es[1..]);
    }
  }

  /** In every run whose callers store into no payload between its write and its read, each read, in
      either mode and of any length, hands out the oldest payload as it was written. */
  lemma DeliveredAsWritten<B>(es: seq<Event<B>>, e: Event<B>)
    requires Possible(Initial(), es) && AllHandsOff(Initial(), es)
    requires Enabled(Exec(Initial(), es), e) && (e.SafeRead? || e.ZeroCopyRead?)
    ensures var m := Exec(Initial(), es);
            var m' := Next(m, e);
            && |m'.handed| == |m.handed| + 1 && |m.handed| < |m.accepted|
            && Bytes(m', m'.handed[|m.handed|].data) == m.accepted[|m.handed|]
  {
    RunKeeps(Initial(), es);
    var m := Exec(Initial<B>(), es);
    ReadDelivers(m, e);
  }

  // ---------------------------------------------------------------- copies of expired payloads

  /** Nobody writes into the buffer any more: it is neither a caller's nor pooled, nor to be pooled. */
  ghost predicate OutOfReach<B>(m: Memory<B>, b: B) {
    && b in m.heap && b !in m.theirs && b !in m.pool
    && forall n: nat :: n < |m.handed| && m.handed[n].free.PutBack? ==> m.handed[n].free.buf != b
  }

  lemma StepOutOfReach<B>(m: Memory<B>, e: Event<B>, b: B)
    requires Inv(m) && Enabled(m, e) && OutOfReach(m, b)
    ensures OutOfReach(Next(m, e), b) && Next(m, e).heap[b] == m.heap[b]
  {
    if e.SafeRead? && Small(m.queue[0].len) {
      assert Grabbed(m, e.got, e.bigger, m.queue[0].len) != b;
    }
  }

  lemma {:induction false} RunOutOfReach<B>(m: Memory<B>, es: seq<Event<B>>, b: B)
    requires Inv(m) && Possible(m, es) && OutOfReach(m, b)
    ensures b in Exec(m, es).heap && Exec(m, es).heap[b] == m.heap[b]
    decreases |es|
  {
    if es != [] {
      hide Inv, OutOfReach;
      StepInv(m, es[0]);
      StepOutOfReach(m, es[0], b);
      RunOutOfReach(Next(m, es[0]), es[1..], b);
    }
  }

  /** The copy of an expired payload of 1024 to 32768 bytes keeps its bytes for ever, whatever the
      callers do to their memory afterwards. */
  lemma ExpiredCopyStays<B>(m: Memory<B>, got: B, bigger: B, es: seq<Event<B>>)
    requires Inv(m) && Enabled(m, SafeRead(false, got, bigger)) && 1024 <= m.queue[0].len <= 32768
    requires Possible(Next(m, SafeRead(false, got, bigger)), es)
    ensures var m' := Next(m, SafeRead(false, got, bigger));
            && |m'.handed| > |m.handed|
            && Bytes(Exec(m', es), m'.handed[|m.handed|].data) == Bytes(m, m.queue[0])
  {
    var e := SafeRead(false, got, bigger);
    var m' := Next(m, e);
    ReadDelivers(m, e);
    ReadPlaces(m, e);
    StepInv(m, e);
    assert m'.handed[..|m.handed|] == m.handed;
    forall n: nat | n < |m.handed| && m.handed[n].free.PutBack? ensures m.handed[n].free.buf in m.heap {
      assert Fits(m, n);
    }
    assert OutOfReach(m', bigger);
    RunOutOfReach(m', es, bigger);
  }
}
