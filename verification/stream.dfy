/** The double buffer as a transition system. One step is one critical section of the source:
    a Write (with the rotation it may trigger), a rotation by the monitor, a publishing
    goroutine drawing its sequence number, the same goroutine pushing into the heap, and the
    pieces of tryRead between which other goroutines may run. Buffers are identified by
    values of `B`; the class DoubleBuffer instantiates it with object references. */
module Stream {
  import opened Ring
  import opened Minimum

  /** Where the reader stands inside tryRead; `attempt` counts the failed picks. */
  datatype Reader<B> =
    | Idle
    | Looking(attempt: nat)
    | Holding(attempt: nat, number: int, buf: B)
    | Ready

  datatype System<B> = System(
    capacity: int,
    bufs: map<B, RingValue>,     // every SmartBuffer in use
    active: B,
    passive: B,
    current: Option<B>,
    pool: set<B>,
    waiting: map<nat, B>,        // spawned goroutines without a number, by spawn order
    numbered: map<int, B>,       // goroutines that have drawn their number
    heap: map<int, B>,           // the pending heap, by sequence number
    sequence: int,
    currentSequence: int,
    count: int,
    spawned: nat,
    reader: Reader<B>)

  const MAX_RETRIES := 3

  ghost function RingOf<B>(s: System<B>, b: B): RingValue {
    if b in s.bufs then s.bufs[b] else PRISTINE
  }

  ghost function Initial<B>(capacity: int, active: B, passive: B): System<B> {
    System(capacity, map[active := PRISTINE, passive := PRISTINE], active, passive, None, {},
           map[], map[], map[], 0, 1, 0, 0, Idle)
  }

  // ---------------------------------------------------------------- writers

  /** switchChannel once its compare-and-swap has succeeded; `spare` is what the buffer pool hands out. */
  ghost function Rotate<B>(s: System<B>, spare: B): System<B> {
    s.(bufs := s.bufs[s.active := RingOf(s, s.active).(state := READ_ONLY)][spare := RingOf(s, spare)],
       active := s.passive,
       passive := spare,
       pool := s.pool - {spare},
       waiting := s.waiting[s.spawned := s.active],
       spawned := s.spawned + 1,
       count := 0)
  }

  /** `d.active.Write(item)`, counting it when it is accepted. */
  ghost function WriteActive<B>(s: System<B>, item: BufferItem): (System<B>, PushResult) {
    var (r, res) := WriteValue(RingOf(s, s.active), s.capacity, item);
    (s.(bufs := s.bufs[s.active := r], count := s.count + if res == Accepted then 1 else 0), res)
  }

  ghost function Write<B>(s: System<B>, item: BufferItem, spare: B): (System<B>, PushResult) {
    var (s1, res) := WriteActive(s, item);
    if res == Accepted then (s1, res)
    else WriteActive(if RingOf(s1, s1.active).state == READ_ONLY then Rotate(s1, spare) else s1, item)
  }

  // ---------------------------------------------------------------- publishing goroutines

  ghost function Number<B>(s: System<B>, g: nat): System<B>
    requires g in s.waiting
  {
    s.(waiting := s.waiting - {g},
       numbered := s.numbered[s.sequence + 1 := s.waiting[g]],
       sequence := s.sequence + 1)
  }

  ghost function Publish<B>(s: System<B>, n: int): System<B>
    requires n in s.numbered
  {
    s.(numbered := s.numbered - {n}, heap := s.heap[n := s.numbered[n]])
  }

  // ---------------------------------------------------------------- the reader

  datatype ReadResult = Chunk(item: BufferItem) | ErrRead | ErrNoBuffer

  /** The head of tryRead: an exhausted current buffer is reset and pooled. */
  ghost function Begin<B>(s: System<B>): System<B> {
    if s.current.Some? && RingOf(s, s.current.value).items != [] then s.(reader := Ready)
    else if s.current.None? then s.(reader := Looking(0))
    else
      s.(bufs := s.bufs[s.current.value := PRISTINE],
         pool := s.pool + {s.current.value},
         current := None,
         reader := Looking(0))
  }

  /** `d.pendingHeap.Pick()`; an empty heap ends the call. */
  ghost function Pick<B>(s: System<B>): System<B>
    requires s.reader.Looking?
  {
    if forall n :: n !in s.heap then s.(reader := Idle)
    else
      var n := Least(s.heap.Keys);
      s.(heap := s.heap - {n}, reader := Holding(s.reader.attempt, n, s.heap[n]))
  }

  /** Compares the picked number with currentSequence: take the buffer, or push it back. */
  ghost function Decide<B>(s: System<B>): System<B>
    requires s.reader.Holding?
  {
    var Holding(attempt, n, b) := s.reader;
    if n == s.currentSequence then
      s.(current := Some(b), currentSequence := s.currentSequence + 1, reader := Ready)
    else
      s.(heap := s.heap[n := b],
         reader := if attempt + 1 < MAX_RETRIES then Looking(attempt + 1) else Idle)
  }

  /** The pop that ends tryRead. */
  ghost function Take<B>(s: System<B>): (System<B>, ReadResult)
    requires s.reader.Ready? && s.current.Some?
  {
    var b := s.current.value;
    var (r, item) := PopValue(RingOf(s, b));
    (s.(bufs := s.bufs[b := r], reader := Idle),
     if RingOf(s, b).items == [] then ErrRead else Chunk(item))
  }

  // ---------------------------------------------------------------- runs

  /** What a run has done so far: the writes accepted, the items handed to the reader, the
      contents of each rotated buffer in rotation order, and which rotation drew each number. */
  datatype History = History(
    accepted: seq<BufferItem>,
    delivered: seq<BufferItem>,
    batches: seq<seq<BufferItem>>,
    order: seq<nat>)

  datatype State<B> = State(sys: System<B>, hist: History)

  datatype Event<B> =
    | WriteEvent(item: BufferItem, spare: B)
    | SwitchEvent(spare: B)
    | NumberEvent(g: nat)
    | PublishEvent(n: int)
    | BeginEvent
    | PickEvent
    | DecideEvent
    | TakeEvent
    | CollectEvent(b: B)         // the garbage collector empties part of the buffer pool

  /** What Write queues: an item with an address and a positive length. It panics on an empty payload. */
  predicate Queueable(item: BufferItem) {
    item.ptr != 0 && item.size > 0
  }

  /** The pool hands out one of its members or a newly made buffer. */
  ghost predicate CanGet<B>(s: System<B>, spare: B) {
    spare in s.pool || spare !in s.bufs
  }

  ghost predicate Enabled<B>(s: System<B>, e: Event<B>) {
    match e
    case WriteEvent(item, spare) => Queueable(item) && CanGet(s, spare)
    case SwitchEvent(spare) => CanGet(s, spare)
    case NumberEvent(g) => g in s.waiting
    case PublishEvent(n) => n in s.numbered
    case BeginEvent => s.reader.Idle?
    case PickEvent => s.reader.Looking?
    case DecideEvent => s.reader.Holding?
    case TakeEvent => s.reader.Ready? && s.current.Some?
    case CollectEvent(b) => b in s.pool
  }

  ghost function Apply<B>(s: System<B>, e: Event<B>): System<B>
    requires Enabled(s, e)
  {
    match e
    case WriteEvent(item, spare) => Write(s, item, spare).0
    case SwitchEvent(spare) => Rotate(s, spare)
    case NumberEvent(g) => Number(s, g)
    case PublishEvent(n) => Publish(s, n)
    case BeginEvent => Begin(s)
    case PickEvent => Pick(s)
    case DecideEvent => Decide(s)
    case TakeEvent => Take(s).0
    case CollectEvent(b) => s.(pool := s.pool - {b}, bufs := s.bufs - {b})
  }

  ghost function Record<B>(s: System<B>, h: History, e: Event<B>): History
    requires Enabled(s, e)
  {
    var retired := RingOf(s, s.active).items;
    match e
    case WriteEvent(item, spare) =>
      h.(accepted := if Write(s, item, spare).1 == Accepted then h.accepted + [item] else h.accepted,
         batches := if Write(s, item, spare).0.spawned == s.spawned then h.batches else h.batches + [retired])
    case SwitchEvent(_) => h.(batches := h.batches + [retired])
    case NumberEvent(g) => h.(order := h.order + [g])
    case TakeEvent =>
      var items := RingOf(s, s.current.value).items;
      h.(delivered := if items == [] then h.delivered else h.delivered + [items[0]])
    case _ => h
  }

  ghost function Next<B>(st: State<B>, e: Event<B>): State<B>
    requires Enabled(st.sys, e)
  {
    State(Apply(st.sys, e), Record(st.sys, st.hist, e))
  }

  ghost function Start<B>(capacity: int, active: B, passive: B): State<B> {
    State(Initial(capacity, active, passive), History([], [], [], []))
  }

  ghost predicate Possible<B>(st: State<B>, es: seq<Event<B>>)
    decreases |es|
  {
    es == [] || (Enabled(st.sys, es[0]) && Possible(Next(st, es[0]), es[1..]))
  }

  ghost function Exec<B>(st: State<B>, es: seq<Event<B>>): State<B>
    requires Possible(st, es)
    decreases |es|
  {
    if es == [] then st else Exec(Next(st, es[0]), es[1..])
  }

  // ---------------------------------------------------------------- tryRead as one uninterrupted call

  ghost function PickLoop<B>(s: System<B>): (System<B>, ReadResult)
    requires s.reader.Looking?
    decreases MAX_RETRIES - s.reader.attempt
  {
    var s1 := Pick(s);
    if s1.reader.Idle? then (s1, ErrNoBuffer)
    else
      var s2 := Decide(s1);
      match s2.reader
      case Ready => Take(s2)
      case Looking(_) => PickLoop(s2)
      case _ => (s2, ErrNoBuffer)
  }

  ghost function TryRead<B>(s: System<B>): (System<B>, ReadResult)
    requires s.reader.Idle?
  {
    var s1 := Begin(s);
    if s1.reader.Ready? then Take(s1) else PickLoop(s1)
  }
}
