/** The memory behind payloads as a transition system: callers with memory of their own, the pool
    of small buffers, payloads on their way, and chunks in the hands of readers. Byte buffers are
    identified by values of `B`; the class PayloadStore instantiates it with arrays. */
module Payloads {

  type Byte = x: int | 0 <= x < 256

  const SMALL_DATA_THRESHOLD := 1024
  const LARGE_DATA_THRESHOLD := 32 * 1024
  const INITIAL_BUF_SIZE := 512

  /** The first `len` bytes of a buffer. */
  datatype Slice<B> = Slice(buf: B, len: nat)

  /** What the closure in a chunk's `free` field does; `Nothing` once the chunk is released. */
  datatype Free<B> = Nothing | PutBack(buf: B) | Untrack

  datatype Chunk<B> = Chunk(data: Slice<B>, free: Free<B>)

  /** `accepted` is history: the payloads written so far, as they were then. The first of them have
      been handed out, in order, and the others are in the queue. */
  datatype Memory<B> = Memory(
    heap: map<B, seq<Byte>>,
    pool: set<B>,
    queue: seq<Slice<B>>,
    handed: seq<Chunk<B>>,
    theirs: set<B>,
    accepted: seq<seq<Byte>>)

  predicate Small(len: nat) {
    len < SMALL_DATA_THRESHOLD
  }

  ghost function Initial<B>(): Memory<B> {
    Memory(map[], {}, [], [], {}, [])
  }

  function Zeros(n: nat): seq<Byte> {
    seq(n, _ => 0)
  }

  ghost function Bytes<B>(m: Memory<B>, s: Slice<B>): seq<Byte> {
    if s.buf in m.heap && s.len <= |m.heap[s.buf]| then m.heap[s.buf][..s.len] else []
  }

  // ---------------------------------------------------------------- the pool of small buffers

  ghost function Capacity<B>(m: Memory<B>, b: B): nat {
    if b in m.heap then |m.heap[b]| else INITIAL_BUF_SIZE
  }

  /** The pool hands out `got`, a member or a new buffer, and if that is too small a `bigger` one is made. */
  ghost predicate CanGrab<B>(m: Memory<B>, got: B, bigger: B, size: nat) {
    && (got in m.pool || got !in m.heap)
    && (Capacity(m, got) < size ==> bigger !in m.heap && bigger != got)
  }

  ghost function Grabbed<B>(m: Memory<B>, got: B, bigger: B, size: nat): B {
    if Capacity(m, got) < size then bigger else got
  }

  ghost function Grab<B>(m: Memory<B>, got: B, bigger: B, size: nat): Memory<B> {
    var heap := if got in m.heap then m.heap else m.heap[got := Zeros(INITIAL_BUF_SIZE)];
    m.(pool := m.pool - {got}, heap := if Capacity(m, got) < size then heap[bigger := Zeros(size)] else heap)
  }

  /** `copy(buf, bytes)`. */
  ghost function Fill<B>(m: Memory<B>, b: B, bytes: seq<Byte>): Memory<B> {
    if b in m.heap && |bytes| <= |m.heap[b]| then m.(heap := m.heap[b := bytes + m.heap[b][|bytes|..]]) else m
  }

  /** A copy of the slice in a small buffer from the pool. */
  ghost function CopySmall<B>(m: Memory<B>, s: Slice<B>, got: B, bigger: B): Memory<B> {
    Fill(Grab(m, got, bigger, s.len), Grabbed(m, got, bigger, s.len), Bytes(m, s))
  }

  // ---------------------------------------------------------------- steps

  datatype Event<B> =
    | CallerMakes(a: B, bytes: seq<Byte>)
    | CallerStores(a: B, i: nat, x: Byte)
    | Write(p: Slice<B>, got: B, bigger: B)
    | SafeRead(mediumValid: bool, got: B, bigger: B)
    | ZeroCopyRead
    | Release(k: nat)
    | DropBuffer(b: B)

  ghost predicate Enabled<B>(m: Memory<B>, e: Event<B>) {
    match e
    case CallerMakes(a, _) => a !in m.heap
    case CallerStores(a, i, _) => a in m.theirs && a in m.heap && i < |m.heap[a]|
    case Write(p, got, bigger) =>
      && p.buf in m.heap && p.len <= |m.heap[p.buf]|
      && (Small(p.len) ==> CanGrab(m, got, bigger, p.len))
    case SafeRead(mediumValid, got, bigger) =>
      && m.queue != []
      && var len := m.queue[0].len;
         (Small(len) ==> CanGrab(m, got, bigger, len))
         && (SMALL_DATA_THRESHOLD <= len <= LARGE_DATA_THRESHOLD && !mediumValid ==> bigger !in m.heap)
    case ZeroCopyRead => m.queue != []
    case Release(k) => k < |m.handed|
    case DropBuffer(b) => b in m.pool
  }

  /** A small payload is copied into a buffer of its own, a bigger one stays where the caller has
      it; for an empty one the source panics after taking the buffer. */
  ghost function Written<B>(m: Memory<B>, p: Slice<B>, got: B, bigger: B): Memory<B> {
    if p.len == 0 then Grab(m, got, bigger, 0)
    else
      var m1 := if Small(p.len) then CopySmall(m, p, got, bigger) else m;
      m1.(queue := m.queue + [if Small(p.len) then Slice(Grabbed(m, got, bigger, p.len), p.len) else p],
          accepted := m.accepted + [Bytes(m, p)])
  }

  ghost function HandOut<B>(m: Memory<B>, chunk: Chunk<B>): Memory<B>
    requires m.queue != []
  {
    m.(queue := m.queue[1..], handed := m.handed + [chunk])
  }

  ghost function ReadSafely<B>(m: Memory<B>, mediumValid: bool, got: B, bigger: B): Memory<B>
    requires m.queue != []
  {
    var item := m.queue[0];
    if Small(item.len) then
      var b := Grabbed(m, got, bigger, item.len);
      HandOut(CopySmall(m, item, got, bigger), Chunk(Slice(b, item.len), PutBack(b)))
    else if item.len > LARGE_DATA_THRESHOLD || mediumValid then
      HandOut(m, Chunk(item, Untrack))
    else
      HandOut(m.(heap := m.heap[bigger := Bytes(m, item)]), Chunk(Slice(bigger, item.len), Untrack))
  }

  ghost function Released<B>(m: Memory<B>, k: nat): Memory<B>
    requires k < |m.handed|
  {
    var c := m.handed[k];
    m.(pool := if c.free.PutBack? then m.pool + {c.free.buf} else m.pool,
       handed := m.handed[k := c.(free := Nothing)])
  }

  ghost function Stored<B>(m: Memory<B>, a: B, i: nat, x: Byte): Memory<B>
    requires a in m.heap && i < |m.heap[a]|
  {
    var bytes: seq<Byte> := m.heap[a][..i] + [x] + m.heap[a][i + 1..];
    m.(heap := m.heap[a := bytes])
  }

  ghost function Next<B>(m: Memory<B>, e: Event<B>): Memory<B>
    requires Enabled(m, e)
  {
    match e
    case CallerMakes(a, bytes) => m.(heap := m.heap[a := bytes], theirs := m.theirs + {a})
    case CallerStores(a, i, x) => Stored(m, a, i, x)
    case Write(p, got, bigger) => Written(m, p, got, bigger)
    case SafeRead(mediumValid, got, bigger) => ReadSafely(m, mediumValid, got, bigger)
    case ZeroCopyRead => HandOut(m, Chunk(m.queue[0], Untrack))
    case Release(k) => Released(m, k)
    case DropBuffer(b) => m.(pool := m.pool - {b})
  }

  ghost predicate Possible<B>(m: Memory<B>, es: seq<Event<B>>)
    decreases |es|
  {
    es == [] || (Enabled(m, es[0]) && Possible(Next(m, es[0]), es[1..]))
  }

  ghost function Exec<B>(m: Memory<B>, es: seq<Event<B>>): Memory<B>
    requires Possible(m, es)
    decreases |es|
  {
    if es == [] then m else Exec(Next(m, es[0]), es[1..])
  }

  // ---------------------------------------------------------------- who owns which buffer

  /** Where the n-th payload is. */
  ghost function SliceOf<B>(m: Memory<B>, n: nat): Slice<B>
    requires n < |m.handed| + |m.queue|
  {
    if n < |m.handed| then m.handed[n].data else m.queue[n - |m.handed|]
  }

  /** A small payload that is queued, or handed out and not released. */
  ghost predicate Live<B>(m: Memory<B>, n: nat) {
    && n < |m.handed| + |m.queue| && (n < |m.handed| ==> m.handed[n].free != Nothing)
    && Small(SliceOf(m, n).len)
  }

  ghost predicate Fits<B>(m: Memory<B>, n: nat)
    requires n < |m.handed| + |m.queue| == |m.accepted|
  {
    var s := SliceOf(m, n);
    && 0 < s.len == |m.accepted[n]| && s.buf in m.heap && s.len <= |m.heap[s.buf]|
    && (n < |m.handed| && m.handed[n].free.PutBack? ==> m.handed[n].free.buf == s.buf && Small(s.len))
  }

  /** The pool, the callers and each small payload have their buffers for themselves. */
  ghost predicate Disjoint<B>(m: Memory<B>) {
    && m.pool <= m.heap.Keys && m.theirs <= m.heap.Keys && m.pool !! m.theirs
    && (forall n: nat :: Live(m, n) ==> SliceOf(m, n).buf !in m.pool && SliceOf(m, n).buf !in m.theirs)
    && (forall n: nat, k: nat :: Live(m, n) && Live(m, k) && n != k ==> SliceOf(m, n).buf != SliceOf(m, k).buf)
  }

  /** Small payloads read as they were written until they are released. */
  ghost predicate Intact<B>(m: Memory<B>)
    requires |m.handed| + |m.queue| == |m.accepted|
  {
    forall n: nat :: Live(m, n) ==> Bytes(m, SliceOf(m, n)) == m.accepted[n]
  }

  ghost predicate Inv<B>(m: Memory<B>) {
    && |m.handed| + |m.queue| == |m.accepted| && (forall n: nat :: n < |m.accepted| ==> Fits(m, n))
    && Disjoint(m) && Intact(m)
  }

  // ---------------------------------------------------------------- every step keeps this

  /** No payload moves, and no buffer of a small one changes. */
  ghost predicate Untouched<B>(m: Memory<B>, m': Memory<B>) {
    && m'.handed == m.handed && m'.queue == m.queue && m'.accepted == m.accepted
    && (forall b :: b in m.heap ==> b in m'.heap && |m'.heap[b]| == |m.heap[b]|)
    && (forall n: nat :: Live(m, n) && SliceOf(m, n).buf in m.heap ==>
          SliceOf(m, n).buf in m'.heap && m'.heap[SliceOf(m, n).buf] == m.heap[SliceOf(m, n).buf])
  }

  lemma UntouchedInv<B>(m: Memory<B>, m': Memory<B>)
    requires Inv(m) && Untouched(m, m')
    requires m'.pool <= m'.heap.Keys && m'.theirs <= m'.heap.Keys && m'.pool !! m'.theirs
    requires forall b :: b in m'.pool + m'.theirs ==> b in m.pool + m.theirs || b !in m.heap
    ensures Inv(m')
  {
    forall n: nat | n < |m.accepted| ensures SliceOf(m', n) == SliceOf(m, n) && Live(m', n) == Live(m, n) {}
    forall n: nat | n < |m'.accepted| ensures Fits(m', n) {
      assert Fits(m, n);
    }
    forall n: nat | Live(m', n)
      ensures Bytes(m', SliceOf(m', n)) == m'.accepted[n]
      ensures SliceOf(m', n).buf !in m'.pool && SliceOf(m', n).buf !in m'.theirs
    {
      assert Live(m, n) && Fits(m, n);
    }
  }

  /** A copy of a slice in a buffer that nobody has. */
  lemma CopyInv<B>(m: Memory<B>, s: Slice<B>, got: B, bigger: B)
    requires Inv(m) && CanGrab(m, got, bigger, s.len) && s.buf in m.heap && s.len <= |m.heap[s.buf]|
    ensures var m', b := CopySmall(m, s, got, bigger), Grabbed(m, got, bigger, s.len);
            && Inv(m') && Untouched(m, m')
            && b in m'.heap && s.len <= |m'.heap[b]| && Bytes(m', Slice(b, s.len)) == Bytes(m, s)
            && b !in m'.pool && b !in m'.theirs && (forall n: nat :: Live(m', n) ==> SliceOf(m', n).buf != b)
  {
    var m', b := CopySmall(m, s, got, bigger), Grabbed(m, got, bigger, s.len);
    forall n: nat | Live(m, n) ensures SliceOf(m, n).buf != b && SliceOf(m, n).buf in m.heap {
      assert Fits(m, n);
    }
    assert Untouched(m, m');
    UntouchedInv(m, m');
    forall n: nat ensures Live(m', n) == Live(m, n) {}
  }

  lemma GrabInv<B>(m: Memory<B>, got: B, bigger: B)
    requires Inv(m) && CanGrab(m, got, bigger, 0)
    ensures Inv(Grab(m, got, bigger, 0))
  {
    UntouchedInv(m, Grab(m, got, bigger, 0));
  }

  lemma CallerInv<B>(m: Memory<B>, e: Event<B>)
    requires Inv(m) && Enabled(m, e) && (e.CallerMakes? || e.CallerStores? || e.DropBuffer?)
    ensures Inv(Next(m, e))
  {
    forall n: nat | Live(m, n) ensures SliceOf(m, n).buf in m.heap {
      assert Fits(m, n);
    }
    UntouchedInv(m, Next(m, e));
  }

  /** A payload joins the queue, in a buffer that nobody has if it is small. */
  lemma EnqueueInv<B>(m: Memory<B>, s: Slice<B>, bytes: seq<Byte>)
    requires Inv(m) && 0 < s.len == |bytes| && s.buf in m.heap && s.len <= |m.heap[s.buf]|
    requires Small(s.len) ==>
      && s.buf !in m.pool && s.buf !in m.theirs && (forall n: nat :: Live(m, n) ==> SliceOf(m, n).buf != s.buf)
      && Bytes(m, s) == bytes
    ensures Inv(m.(queue := m.queue + [s], accepted := m.accepted + [bytes]))
  {
    var m' := m.(queue := m.queue + [s], accepted := m.accepted + [bytes]);
    forall n: nat ensures n < |m.accepted| ==> SliceOf(m', n) == SliceOf(m, n) {}
    forall n: nat ensures Live(m', n) == if n == |m.accepted| then Small(s.len) else Live(m, n) {}
    forall n: nat | n < |m'.accepted| ensures Fits(m', n) {
      assert n < |m.accepted| ==> Fits(m, n);
    }
  }

  lemma WriteInv<B>(m: Memory<B>, p: Slice<B>, got: B, bigger: B)
    requires Inv(m) && Enabled(m, Write(p, got, bigger))
    ensures Inv(Written(m, p, got, bigger))
  {
    if p.len == 0 {
      GrabInv(m, got, bigger);
    } else if Small(p.len) {
      CopyInv(m, p, got, bigger);
      EnqueueInv(CopySmall(m, p, got, bigger), Slice(Grabbed(m, got, bigger, p.len), p.len), Bytes(m, p));
    } else {
      EnqueueInv(m, p, Bytes(m, p));
    }
  }

  /** The oldest queued payload is handed out where it lies. */
  lemma HandOutInv<B>(m: Memory<B>, free: Free<B>)
    requires Inv(m) && m.queue != []
    requires free == Untrack || (free == PutBack(m.queue[0].buf) && Small(m.queue[0].len))
    ensures Inv(HandOut(m, Chunk(m.queue[0], free)))
  {
    var m' := HandOut(m, Chunk(m.queue[0], free));
    forall n: nat | n < |m.accepted| ensures SliceOf(m', n) == SliceOf(m, n) && Live(m', n) == Live(m, n) {}
    forall n: nat | n < |m'.accepted| ensures Fits(m', n) {
      assert Fits(m, n);
    }
  }

  /** The oldest queued payload moves to another buffer. */
  ghost function MovedTo<B>(m: Memory<B>, s: Slice<B>): Memory<B>
    requires m.queue != []
  {
    m.(queue := [s] + m.queue[1..])
  }

  lemma MoveInv<B>(m: Memory<B>, s: Slice<B>)
    requires Inv(m) && m.queue != [] && s.len == m.queue[0].len && s.buf in m.heap && s.len <= |m.heap[s.buf]|
    requires Small(s.len) ==>
      && s.buf !in m.pool && s.buf !in m.theirs && (forall n: nat :: Live(m, n) ==> SliceOf(m, n).buf != s.buf)
      && Bytes(m, s) == Bytes(m, m.queue[0])
    ensures Inv(MovedTo(m, s))
  {
    var m', first := MovedTo(m, s), |m.handed|;
    forall n: nat | n < |m.accepted|
      ensures SliceOf(m', n) == (if n == first then s else SliceOf(m, n)) && Live(m', n) == Live(m, n)
    {
    }
    assert SliceOf(m, first) == m.queue[0] && Fits(m, first);
    forall n: nat | n < |m'.accepted| ensures Fits(m', n) {
      assert Fits(m, n);
    }
  }

  lemma SafeReadInv<B>(m: Memory<B>, mediumValid: bool, got: B, bigger: B)
    requires Inv(m) && Enabled(m, SafeRead(mediumValid, got, bigger))
    ensures Inv(ReadSafely(m, mediumValid, got, bigger))
  {
    var item := m.queue[0];
    assert SliceOf(m, |m.handed|) == item && Fits(m, |m.handed|);
    if Small(item.len) {
      var m1, s := CopySmall(m, item, got, bigger), Slice(Grabbed(m, got, bigger, item.len), item.len);
      CopyInv(m, item, got, bigger);
      ReadUntouched(m, m1);
      MoveInv(m1, s);
      HandOutInv(MovedTo(m1, s), PutBack(s.buf));
    } else if item.len > LARGE_DATA_THRESHOLD || mediumValid {
      HandOutInv(m, Untrack);
    } else {
      var m1, s := m.(heap := m.heap[bigger := Bytes(m, item)]), Slice(bigger, item.len);
      NewBufferInv(m, bigger, Bytes(m, item));
      MoveInv(m1, s);
      HandOutInv(MovedTo(m1, s), Untrack);
    }
  }

  /** The first queued payload, if it is small, reads as before. */
  lemma ReadUntouched<B>(m: Memory<B>, m': Memory<B>)
    requires Inv(m) && Untouched(m, m') && m.queue != []
    ensures Small(m.queue[0].len) ==> Bytes(m', m.queue[0]) == Bytes(m, m.queue[0])
  {
    assert SliceOf(m, |m.handed|) == m.queue[0] && Fits(m, |m.handed|);
    assert Small(m.queue[0].len) ==> Live(m, |m.handed|);
  }

  lemma NewBufferInv<B>(m: Memory<B>, b: B, bytes: seq<Byte>)
    requires Inv(m) && b !in m.heap
    ensures Inv(m.(heap := m.heap[b := bytes]))
  {
    forall n: nat | Live(m, n) ensures SliceOf(m, n).buf in m.heap {
      assert Fits(m, n);
    }
    UntouchedInv(m, m.(heap := m.heap[b := bytes]));
  }

  lemma ReleaseInv<B>(m: Memory<B>, k: nat)
    requires Inv(m) && k < |m.handed|
    ensures Inv(Released(m, k))
  {
    var m' := Released(m, k);
    assert Fits(m, k);
    assert m.handed[k].free.PutBack? ==> Live(m, k) && m.handed[k].free.buf == SliceOf(m, k).buf;
    forall n: nat | n < |m.accepted|
      ensures SliceOf(m', n) == SliceOf(m, n) && Live(m', n) == (Live(m, n) && n != k)
    {
    }
    forall n: nat | n < |m'.accepted| ensures Fits(m', n) {
      assert Fits(m, n);
    }
  }

  lemma StepInv<B>(m: Memory<B>, e: Event<B>)
    requires Inv(m) && Enabled(m, e)
    ensures Inv(Next(m, e))
  {
    match e
    case Write(p, got, bigger) => WriteInv(m, p, got, bigger);
    case SafeRead(mediumValid, got, bigger) => SafeReadInv(m, mediumValid, got, bigger);
    case ZeroCopyRead => HandOutInv(m, Untrack);
    case Release(k) => ReleaseInv(m, k);
    case _ => CallerInv(m, e);
  }

  /** Every run keeps the invariant, and what has been accepted stays on record. */
  lemma {:induction false} RunInv<B>(m: Memory<B>, es: seq<Event<B>>)
    requires Inv(m) && Possible(m, es)
    ensures Inv(Exec(m, es)) && m.accepted <= Exec(m, es).accepted
    decreases |es|
  {
    if es != [] {
      StepInv(m, es[0]);
      RunInv(Next(m, es[0]), es[1..]);
    }
  }

  // ---------------------------------------------------------------- snapshots

  /** The n-th chunk has been handed out, is not released, and reads as its payload was written. */
  ghost predicate ReadsAsWritten<B>(m: Memory<B>, n: nat) {
    n < |m.handed| && n < |m.accepted| && m.handed[n].free != Nothing ==> Bytes(m, m.handed[n].data) == m.accepted[n]
  }

  /** In every run of writes, reads in both modes, releases and stores of the callers into memory of
      their own, each chunk of a small payload reads as the payload was written, until its release. */
  lemma SmallPayloadsAreSnapshots<B>(es: seq<Event<B>>, n: nat)
    requires Possible(Initial(), es)
    ensures var m := Exec(Initial(), es);
            && |m.handed| + |m.queue| == |m.accepted|
            && (n < |m.handed| ==> m.handed[n].data.len == |m.accepted[n]|)
            && (n < |m.handed| && |m.accepted[n]| < 1024 ==> ReadsAsWritten(m, n))
  {
    RunInv(Initial(), es);
    var m := Exec(Initial<B>(), es);
    if n < |m.handed| {
      assert Fits(m, n);
      if Small(m.handed[n].data.len) && m.handed[n].free != Nothing {
        assert Live(m, n);
      }
    }
  }

  /** The reads of the run are all in the one mode or all in the other. */
  ghost predicate ReadsOnlyIn<B>(es: seq<Event<B>>, safe: bool) {
    forall i :: 0 <= i < |es| ==> if safe then !es[i].ZeroCopyRead? else !es[i].SafeRead?
  }

  /** A payload that its writer changes before it is read. */
  lemma ChangedRun(len: nat, safe: bool) returns (es: seq<Event<nat>>)
    requires len >= 1024
    ensures Possible(Initial(), es) && ReadsOnlyIn(es, safe)
    ensures var m := Exec(Initial(), es);
            |m.handed| == 1 && m.handed[0].data.len == len && !ReadsAsWritten(m, 0)
  {
    var read: Event<nat> := if safe then SafeRead(true, 1, 2) else ZeroCopyRead;
    var m0 := Initial<nat>();
    var m1 := Next(m0, CallerMakes(0, Zeros(len)));
    var m2 := Next(m1, Write(Slice(0, len), 1, 2));
    assert Bytes(m1, Slice(0, len)) == Zeros(len);
    var m3 := Next(m2, CallerStores(0, 0, 1));
    var m4 := Next(m3, read);
    assert Bytes(m4, Slice(0, len))[0] == 1 && m4.accepted[0][0] == 0;
    Append(m0, [], CallerMakes(0, Zeros(len)));
    Append(m0, [] + [CallerMakes(0, Zeros(len))], Write(Slice(0, len), 1, 2));
    Append(m0, [] + [CallerMakes(0, Zeros(len))] + [Write(Slice(0, len), 1, 2)], CallerStores(0, 0, 1));
    es := [] + [CallerMakes(0, Zeros(len))] + [Write(Slice(0, len), 1, 2)] + [CallerStores(0, 0, 1)];
    Append(m0, es, read);
    es := es + [read];
  }

  lemma {:induction false} Append<B>(m: Memory<B>, es: seq<Event<B>>, e: Event<B>)
    requires Possible(m, es) && Enabled(Exec(m, es), e)
    ensures Possible(m, es + [e]) && Exec(m, es + [e]) == Next(Exec(m, es), e)
    decreases |es|
  {
    if es == [] {
      assert es + [e] == [e] && [e][1..] == [];
      assert Exec(Next(m, e), []) == Next(m, e);
    } else {
      assert (es + [e])[1..] == es[1..] + [e];
      Append(Next(m, es[0]), es[1..], e);
    }
  }

  /** In either mode of reading, what is delivered of payloads of a given length is what was written,
      whatever the callers do to their memory meanwhile, exactly when the length is below 1024. */
  lemma SnapshotIffSmall(len: nat, safe: bool)
    requires len > 0
    ensures (forall es: seq<Event<nat>>, n: nat :: Possible(Initial(), es) && ReadsOnlyIn(es, safe)
               && n < |Exec(Initial(), es).handed| && Exec(Initial(), es).handed[n].data.len == len
               ==> ReadsAsWritten(Exec(Initial(), es), n))
            <==> len < 1024
  {
    if Small(len) {
      forall es: seq<Event<nat>>, n: nat | Possible(Initial(), es) && ReadsOnlyIn(es, safe)
               && n < |Exec(Initial(), es).handed| && Exec(Initial(), es).handed[n].data.len == len
        ensures ReadsAsWritten(Exec(Initial(), es), n)
      {
        SmallPayloadsAreSnapshots(es, n);
      }
    } else {
      var es := ChangedRun(len, safe);
      assert !ReadsAsWritten(Exec(Initial(), es), 0);
    }
  }
}
