/** What the reader gets out of the double buffer, compared with what was written. */
module StreamOrder {
  import opened Ring
  import opened Stream
  import opened StreamSafety

  // ---------------------------------------------------------------- nothing is lost or duplicated

  ghost function AnyOf<B>(bufs: map<B, RingValue>): (b: B)
    requires |bufs| > 0
    ensures b in bufs
  {
    var b :| b in bufs;
    b
  }

  /** All items stored in the buffers in use. */
  ghost function Total<B>(bufs: map<B, RingValue>): multiset<BufferItem>
    decreases |bufs|
  {
    if |bufs| == 0 then multiset{}
    else
      var b := AnyOf(bufs);
      multiset(bufs[b].items) + Total(bufs - {b})
  }

  lemma {:induction false} TotalWithout<B>(bufs: map<B, RingValue>, b: B)
    requires b in bufs
    ensures Total(bufs) == multiset(bufs[b].items) + Total(bufs - {b})
    decreases |bufs|
  {
    var c := AnyOf(bufs);
    if c != b {
      TotalWithout(bufs - {c}, b);
      TotalWithout(bufs - {b}, c);
      assert bufs - {c} - {b} == bufs - {b} - {c};
    }
  }

  /** Replacing one buffer; one that is not in use counts as empty. */
  lemma TotalReplace<B>(bufs: map<B, RingValue>, b: B, r: RingValue)
    ensures Total(bufs[b := r]) == multiset(r.items) + Total(bufs - {b})
    ensures Total(bufs) == (if b in bufs then multiset(bufs[b].items) else multiset{}) + Total(bufs - {b})
  {
    TotalWithout(bufs[b := r], b);
    assert bufs[b := r] - {b} == bufs - {b};
    if b in bufs {
      TotalWithout(bufs, b);
    } else {
      assert bufs - {b} == bufs;
    }
  }

  lemma TotalGains<B>(bufs: map<B, RingValue>, b: B, r: RingValue, extra: multiset<BufferItem>)
    requires multiset(r.items) == (if b in bufs then multiset(bufs[b].items) else multiset{}) + extra
    ensures Total(bufs[b := r]) == Total(bufs) + extra
  {
    TotalReplace(bufs, b, r);
  }

  /** Every accepted item has been delivered or sits in a buffer, as often as it was accepted. */
  ghost predicate Conserved<B>(st: State<B>) {
    multiset(st.hist.accepted) == multiset(st.hist.delivered) + Total(st.sys.bufs)
  }

  lemma AttemptGains(r: RingValue, capacity: int, item: BufferItem)
    ensures var (r', res) := WriteValue(r, capacity, item);
            multiset(r'.items) == multiset(r.items) + if res == Accepted then multiset{item} else multiset{}
  {
  }

  lemma AttemptTotal<B>(s: System<B>, item: BufferItem)
    requires s.active in s.bufs
    ensures var (s', res) := WriteActive(s, item);
            Total(s'.bufs) == Total(s.bufs) + if res == Accepted then multiset{item} else multiset{}
  {
    var (r, res) := WriteValue(RingOf(s, s.active), s.capacity, item);
    AttemptGains(RingOf(s, s.active), s.capacity, item);
    TotalGains(s.bufs, s.active, r, if res == Accepted then multiset{item} else multiset{});
  }

  lemma AttemptConserves<B>(st: State<B>, item: BufferItem)
    requires Conserved(st) && st.sys.active in st.sys.bufs
    ensures Conserved(Attempt(st, item))
  {
    AttemptTotal(st.sys, item);
    Balance(st.hist.accepted, st.hist.delivered, Total(st.sys.bufs), item);
  }

  /** Both sides of the account grow by one item, or one item moves to the delivered side. */
  lemma Balance(accepted: seq<BufferItem>, delivered: seq<BufferItem>, stored: multiset<BufferItem>, item: BufferItem)
    ensures multiset(accepted) == multiset(delivered) + stored ==>
              multiset(accepted + [item]) == multiset(delivered) + (stored + multiset{item})
    ensures multiset(accepted) == multiset(delivered) + (stored + multiset{item}) ==>
              multiset(accepted) == multiset(delivered + [item]) + stored
  {
  }

  lemma RotateConserves<B>(st: State<B>, spare: B)
    requires Conserved(st) && st.sys.active in st.sys.bufs
    ensures Conserved(Rotated(st, spare))
  {
    var s := st.sys;
    var r := RingOf(s, s.active).(state := READ_ONLY);
    TotalGains(s.bufs, s.active, r, multiset{});
    TotalGains(s.bufs[s.active := r], spare, RingOf(s, spare), multiset{});
  }

  lemma WriteConserves<B>(st: State<B>, item: BufferItem, spare: B)
    requires Inv(st) && Conserved(st) && Queueable(item) && CanGet(st.sys, spare)
    ensures Conserved(Next(st, WriteEvent(item, spare)))
  {
    CurrentInUse(st.sys);
    WriteInPieces(st, item, spare);
    AttemptConserves(st, item);
    var st1 := Attempt(st, item);
    if WriteActive(st.sys, item).1 != Accepted {
      if RingOf(st1.sys, st1.sys.active).state == READ_ONLY {
        RotateConserves(st1, spare);
        AttemptConserves(Rotated(st1, spare), item);
      } else {
        AttemptConserves(st1, item);
      }
    }
  }

  lemma TakeConserves<B>(st: State<B>)
    requires Inv(st) && Conserved(st) && Enabled(st.sys, TakeEvent)
    ensures Conserved(Next(st, TakeEvent))
  {
    var s := st.sys;
    CurrentInUse(s);
    TakeTotal(s);
    var items := RingOf(s, s.current.value).items;
    if items != [] {
      Balance(st.hist.accepted, st.hist.delivered, Total(Take(s).0.bufs), items[0]);
    }
  }

  lemma CurrentInUse<B>(s: System<B>)
    requires Owned(s)
    ensures s.current.Some? ==> s.current.value in s.bufs
    ensures s.active in s.bufs && s.passive in s.bufs
  {
    assert At(s, CurrentPlace) == s.current;
    assert At(s, ActivePlace) == Some(s.active) && At(s, PassivePlace) == Some(s.passive);
  }

  lemma TakeTotal<B>(s: System<B>)
    requires s.reader.Ready? && s.current.Some? && s.current.value in s.bufs
    ensures var items := RingOf(s, s.current.value).items;
            Total(s.bufs) == Total(Take(s).0.bufs) + if items == [] then multiset{} else multiset{items[0]}
  {
    var b := s.current.value;
    var items, r := RingOf(s, b).items, PopValue(RingOf(s, b)).0;
    TotalReplace(s.bufs, b, r);
    if items != [] {
      assert items == [items[0]] + items[1..];
    }
  }

  lemma RecycleConserves<B>(st: State<B>)
    requires Inv(st) && Conserved(st) && Enabled(st.sys, BeginEvent)
    ensures Conserved(Next(st, BeginEvent))
  {
    var s := st.sys;
    CurrentInUse(s);
    if s.current.Some? && RingOf(s, s.current.value).items == [] {
      TotalReplace(s.bufs, s.current.value, PRISTINE);
    }
  }

  lemma CollectConserves<B>(st: State<B>, b: B)
    requires Inv(st) && Conserved(st) && Enabled(st.sys, CollectEvent(b))
    ensures Conserved(Next(st, CollectEvent(b)))
  {
    hide Window, Numbering, Streamed, StreamSafety.Frozen, Total;
    assert b in st.sys.bufs && st.sys.bufs[b] == PRISTINE by {
      assert b in st.sys.pool && Owned(st.sys) && Rings(st.sys);
    }
    hide Inv, Owned, Rings;
    TotalReplace(st.sys.bufs, b, PRISTINE);
  }

  lemma StepConserves<B>(st: State<B>, e: Event<B>)
    requires Inv(st) && Conserved(st) && Enabled(st.sys, e)
    ensures Conserved(Next(st, e))
  {
    CurrentInUse(st.sys);
    hide Inv, Owned, Total, Write, Take;
    match e
    case WriteEvent(item, spare) => WriteConserves(st, item, spare);
    case SwitchEvent(spare) => RotateConserves(st, spare);
    case TakeEvent => TakeConserves(st);
    case BeginEvent => RecycleConserves(st);
    case CollectEvent(b) => CollectConserves(st, b);
    case _ =>
  }

  lemma {:induction false} RunConserves<B>(st: State<B>, es: seq<Event<B>>)
    requires Inv(st) && Conserved(st) && Possible(st, es)
    ensures Conserved(Exec(st, es))
    decreases |es|
  {
    if es != [] {
      StepInv(st, es[0]);
      StepConserves(st, es[0]);
      RunConserves(Next(st, es[0]), es[1..]);
    }
  }

  /** Conservation under every schedule: in every run the accepted writes are, as a multiset,
      what was delivered plus what the buffers hold; they are cut in order into the rotated
      batches; and the deliveries go through the batches in sequence-number order. */
  lemma ConservationInEveryRun<B>(capacity: int, active: B, passive: B, es: seq<Event<B>>)
    requires 0 <= capacity <= MAX_INT32 && active != passive
    requires Possible(Start(capacity, active, passive), es)
    ensures var State(s, h) := Exec(Start(capacity, active, passive), es);
            && multiset(h.accepted) == multiset(h.delivered) + Total(s.bufs)
            && Window(s) && Numbering(s, h)
            && h.accepted == Flatten(h.batches) + RingOf(s, s.active).items
            && h.delivered + Rest(s) == Flatten(Ordered(h.batches, h.order[..s.currentSequence - 1]))
  {
    var st := Start(capacity, active, passive);
    InitialInv(capacity, active, passive);
    InitialConserved(capacity, active, passive);
    RunInv(st, es);
    RunConserves(st, es);
  }

  lemma InitialConserved<B>(capacity: int, active: B, passive: B)
    ensures Conserved(Start(capacity, active, passive))
  {
    var none: map<B, RingValue> := map[];
    TotalGains(none, active, PRISTINE, multiset{});
    TotalGains(none[active := PRISTINE], passive, PRISTINE, multiset{});
    assert none[active := PRISTINE][passive := PRISTINE] == Initial(capacity, active, passive).bufs;
  }

  // ---------------------------------------------------------------- first in, first out

  /** Every goroutine that draws a number is the one spawned earliest among those still waiting. */
  ghost predicate SpawnOrder<B>(st: State<B>, es: seq<Event<B>>)
    requires Possible(st, es)
    decreases |es|
  {
    es == [] ||
    (&& (es[0].NumberEvent? ==> forall k :: k in st.sys.waiting ==> es[0].g <= k)
     && SpawnOrder(Next(st, es[0]), es[1..]))
  }

  ghost predicate Identity(order: seq<nat>) {
    forall i :: 0 <= i < |order| ==> order[i] == i
  }

  lemma WaitingAreLast<B>(st: State<B>)
    requires Inv(st) && Identity(st.hist.order)
    ensures st.sys.sequence <= st.sys.spawned
    ensures forall g: nat :: st.sys.sequence <= g < st.sys.spawned <==> g in st.sys.waiting
  {
    var order := st.hist.order;
    if order != [] {
      assert order[|order| - 1] == |order| - 1;
    }
    forall g: nat ensures g in order <==> g < |order| {
      if g < |order| {
        assert order[g] == g;
      }
    }
  }

  lemma StepKeepsSpawnOrder<B>(st: State<B>, e: Event<B>)
    requires Inv(st) && Identity(st.hist.order) && Enabled(st.sys, e)
    requires e.NumberEvent? ==> forall k :: k in st.sys.waiting ==> e.g <= k
    ensures Identity(Next(st, e).hist.order)
  {
    if e.NumberEvent? {
      WaitingAreLast(st);
      var least: nat := st.sys.sequence;
      assert least in st.sys.waiting;
    }
  }

  lemma {:induction false} RunKeepsSpawnOrder<B>(st: State<B>, es: seq<Event<B>>)
    requires Inv(st) && Identity(st.hist.order) && Possible(st, es) && SpawnOrder(st, es)
    ensures Identity(Exec(st, es).hist.order)
    decreases |es|
  {
    if es != [] {
      StepInv(st, es[0]);
      StepKeepsSpawnOrder(st, es[0]);
      RunKeepsSpawnOrder(Next(st, es[0]), es[1..]);
    }
  }

  /** The batches that carry a number, in the order of their numbers. */
  ghost function PublishedBatches<B>(s: System<B>): seq<seq<BufferItem>>
    requires Window(s)
  {
    seq(s.sequence - s.currentSequence + 1, i requires 0 <= i <= s.sequence - s.currentSequence =>
      RingOf(s, Carrier(s, s.currentSequence + i)).items)
  }

  /** The batches whose goroutine has no number yet, in spawn order, when numbers go by spawn order. */
  ghost function WaitingBatches<B>(s: System<B>): seq<seq<BufferItem>>
    requires 0 <= s.sequence <= s.spawned && forall g: nat :: s.sequence <= g < s.spawned ==> g in s.waiting
  {
    seq(s.spawned - s.sequence, i requires 0 <= i < s.spawned - s.sequence =>
      RingOf(s, s.waiting[s.sequence + i]).items)
  }

  lemma {:induction false} FlattenConcat(a: seq<seq<BufferItem>>, b: seq<seq<BufferItem>>)
    ensures Flatten(a + b) == Flatten(a) + Flatten(b)
    decreases |b|
  {
    if b == [] {
      assert a + b == a;
    } else {
      var b' := b[..|b| - 1];
      assert (a + b)[..|a + b| - 1] == a + b';
      FlattenConcat(a, b');
    }
  }

  lemma PublishedAre<B>(s: System<B>, h: History)
    requires Window(s) && Numbering(s, h) && Frozen(s, h) && Identity(h.order) && s.sequence <= |h.batches|
    ensures PublishedBatches(s) == h.batches[s.currentSequence - 1..s.sequence]
  {
  }

  lemma WaitingAre<B>(s: System<B>, h: History)
    requires Window(s) && Numbering(s, h) && Frozen(s, h) && s.sequence <= s.spawned
    requires forall g: nat :: s.sequence <= g < s.spawned ==> g in s.waiting
    ensures WaitingBatches(s) == h.batches[s.sequence..]
  {
  }

  lemma FlattenCut(batches: seq<seq<BufferItem>>, n: nat)
    requires n <= |batches|
    ensures Flatten(batches) == Flatten(batches[..n]) + Flatten(batches[n..])
  {
    assert batches[..n] + batches[n..] == batches;
    FlattenConcat(batches[..n], batches[n..]);
  }

  lemma FlattenInThree(batches: seq<seq<BufferItem>>, c: nat, n: nat)
    requires c <= n <= |batches|
    ensures Flatten(batches) == Flatten(batches[..c]) + Flatten(batches[c..n]) + Flatten(batches[n..])
  {
    FlattenCut(batches, n);
    assert batches[..n][..c] == batches[..c] && batches[..n][c..] == batches[c..n];
    FlattenCut(batches[..n], c);
  }

  /** The whole pipeline is one queue: deliveries, what is left of the current buffer, the
      numbered batches, the unnumbered ones and the active buffer, end to end. */
  lemma PipelineIsQueue<B>(st: State<B>)
    requires Inv(st) && Identity(st.hist.order)
    ensures st.sys.sequence <= st.sys.spawned
    ensures forall g: nat :: st.sys.sequence <= g < st.sys.spawned ==> g in st.sys.waiting
    ensures st.hist.accepted ==
              st.hist.delivered + Rest(st.sys) + Flatten(PublishedBatches(st.sys))
              + Flatten(WaitingBatches(st.sys)) + RingOf(st.sys, st.sys.active).items
  {
    hide Owned, Rings, Flatten;
    var s, h := st.sys, st.hist;
    WaitingAreLast(st);
    PublishedAre(s, h);
    WaitingAre(s, h);
    FlattenInThree(h.batches, s.currentSequence - 1, s.sequence);
    OrderedIdentity(h.batches, h.order[..s.currentSequence - 1]);
  }

  lemma OrderedIdentity(batches: seq<seq<BufferItem>>, order: seq<nat>)
    requires Identity(order) && |order| <= |batches|
    ensures Ordered(batches, order) == batches[..|order|]
  {
  }

  /** End-to-end FIFO: in every run whose goroutines draw their numbers in spawn order, the
      double buffer is a queue, so the deliveries are a prefix of the accepted writes. */
  lemma FifoInSpawnOrder<B>(capacity: int, active: B, passive: B, es: seq<Event<B>>)
    requires 0 <= capacity <= MAX_INT32 && active != passive
    requires Possible(Start(capacity, active, passive), es)
    requires SpawnOrder(Start(capacity, active, passive), es)
    ensures var State(s, h) := Exec(Start(capacity, active, passive), es);
            && Window(s) && s.sequence <= s.spawned
            && (forall g: nat :: s.sequence <= g < s.spawned ==> g in s.waiting)
            && h.accepted == h.delivered + Rest(s) + Flatten(PublishedBatches(s))
                             + Flatten(WaitingBatches(s)) + RingOf(s, s.active).items
            && h.delivered <= h.accepted
  {
    var st := Start(capacity, active, passive);
    InitialInv(capacity, active, passive);
    RunInv(st, es);
    RunKeepsSpawnOrder(st, es);
    PipelineIsQueue(Exec(st, es));
  }

  // ---------------------------------------------------------------- exactly when the order is kept

  ghost predicate NoDuplicates(items: seq<BufferItem>) {
    forall i, j :: 0 <= i < j < |items| ==> items[i] != items[j]
  }

  lemma {:induction false} FlattenGrows(batches: seq<seq<BufferItem>>, i: nat, j: nat)
    requires i <= j <= |batches| && forall k :: i <= k < j ==> batches[k] != []
    ensures Flatten(batches[..i]) <= Flatten(batches[..j])
    ensures i < j ==> |Flatten(batches[..i])| < |Flatten(batches[..j])|
    decreases j - i
  {
    if i < j {
      FlattenGrows(batches, i, j - 1);
      assert batches[..j][..j - 1] == batches[..j - 1];
    }
  }

  /** Where batch `k` starts in the accepted history. */
  lemma BatchStarts(batches: seq<seq<BufferItem>>, tail: seq<BufferItem>, k: nat)
    requires k < |batches|
    ensures var at, all := |Flatten(batches[..k])|, Flatten(batches) + tail;
            at + |batches[k]| <= |all| && all[at..at + |batches[k]|] == batches[k]
  {
    FlattenCut(batches, k + 1);
    assert batches[..k + 1][..k] == batches[..k];
  }

  /** Each rotated batch is a contiguous segment of the accepted writes, and they follow one another. */
  lemma BatchesAreSegments<B>(st: State<B>, k: nat)
    requires Inv(st) && k < |st.hist.batches|
    ensures var h := st.hist;
            var from, to := |Flatten(h.batches[..k])|, |Flatten(h.batches[..k + 1])|;
            from <= to <= |h.accepted| && h.accepted[from..to] == h.batches[k]
  {
    var h := st.hist;
    BatchStarts(h.batches, RingOf(st.sys, st.sys.active).items, k);
    assert h.batches[..k + 1][..k] == h.batches[..k];
  }

  lemma {:induction false} PrefixForcesIdentity(batches: seq<seq<BufferItem>>, tail: seq<BufferItem>, order: seq<nat>)
    requires forall k :: 0 <= k < |batches| ==> batches[k] != []
    requires NoDuplicates(Flatten(batches) + tail)
    requires forall i :: 0 <= i < |order| ==> order[i] < |batches|
    requires forall i, j :: 0 <= i < j < |order| ==> order[i] != order[j]
    requires Flatten(Ordered(batches, order)) <= Flatten(batches) + tail
    ensures Identity(order)
    decreases |order|
  {
    if order != [] {
      var m, all := |order| - 1, Flatten(batches) + tail;
      var j := order[m];
      assert order[..|order|] == order;
      NextBatch(batches, order, |order|);
      PrefixForcesIdentity(batches, tail, order[..m]);
      assert j !in order[..m];
      forall i: nat ensures i < m ==> i in order[..m] {
        if i < m {
          assert order[..m][i] == i;
        }
      }
      OrderedIdentity(batches, order[..m]);
      BatchStarts(batches, tail, j);
      var from, at := |Flatten(batches[..m])|, |Flatten(batches[..j])|;
      assert all[from] == batches[j][0] && all[at] == batches[j][0];
      FlattenGrows(batches, m, j);
    }
  }

  /** The members of `order` whose batches are not empty. */
  ghost function NonEmpty(batches: seq<seq<BufferItem>>, order: seq<nat>): (kept: seq<nat>)
    ensures forall x :: x in kept <==> x in order && x < |batches| && batches[x] != []
    decreases |order|
  {
    if order == [] then []
    else
      var k := |order| - 1;
      assert order == order[..k] + [order[k]];
      NonEmpty(batches, order[..k]) + if order[k] < |batches| && batches[order[k]] != [] then [order[k]] else []
  }

  /** 0, 1, 2, ...: the rotations in the order in which they happened. */
  ghost function Rotations(n: nat): seq<nat> {
    seq(n, i => i)
  }

  ghost predicate NoRepeats(order: seq<nat>) {
    forall i, j :: 0 <= i < j < |order| ==> order[i] != order[j]
  }

  lemma {:induction false} NonEmptyDistinct(batches: seq<seq<BufferItem>>, order: seq<nat>)
    requires NoRepeats(order)
    ensures NoRepeats(NonEmpty(batches, order))
    decreases |order|
  {
    if order != [] {
      var k := |order| - 1;
      var before := NonEmpty(batches, order[..k]);
      NonEmptyDistinct(batches, order[..k]);
      assert forall i :: 0 <= i < |before| ==> before[i] in before;
      assert order[k] !in order[..k];
      assert NoRepeats(before + [order[k]]);
    }
  }

  lemma OrderedAppend(batches: seq<seq<BufferItem>>, order: seq<nat>, x: nat)
    requires x < |batches| && forall i :: 0 <= i < |order| ==> order[i] < |batches|
    ensures Flatten(Ordered(batches, order + [x])) == Flatten(Ordered(batches, order)) + batches[x]
  {
    assert Ordered(batches, order + [x])[..|order|] == Ordered(batches, order);
  }

  lemma NonEmptyFits(batches: seq<seq<BufferItem>>, order: seq<nat>)
    ensures var kept := NonEmpty(batches, order); forall i :: 0 <= i < |kept| ==> kept[i] < |batches|
  {
    var kept := NonEmpty(batches, order);
    assert forall i :: 0 <= i < |kept| ==> kept[i] in kept;
  }

  /** Empty batches do not matter to what the reader gets. */
  lemma {:induction false} NonEmptyFlattens(batches: seq<seq<BufferItem>>, order: seq<nat>)
    requires forall i :: 0 <= i < |order| ==> order[i] < |batches|
    requires var kept := NonEmpty(batches, order); forall i :: 0 <= i < |kept| ==> kept[i] < |batches|
    ensures Flatten(Ordered(batches, order)) == Flatten(Ordered(batches, NonEmpty(batches, order)))
    decreases |order|
  {
    hide Flatten, Ordered;
    if order != [] {
      var k := |order| - 1;
      var before, x := order[..k], order[k];
      assert order == before + [x];
      NonEmptyFits(batches, before);
      NonEmptyFlattens(batches, before);
      OrderedAppend(batches, before, x);
      assert NonEmpty(batches, order) == NonEmpty(batches, before) + if batches[x] != [] then [x] else [];
      if batches[x] != [] {
        OrderedAppend(batches, NonEmpty(batches, before), x);
      } else {
        var items := Flatten(Ordered(batches, before));
        assert items + batches[x] == items && NonEmpty(batches, order) == NonEmpty(batches, before);
      }
    }
  }

  /** The batches the reader has followed so far are, leaving out empty ones, the first ones. */
  ghost predicate FirstInOrder(batches: seq<seq<BufferItem>>, order: seq<nat>) {
    NonEmpty(batches, order) <= NonEmpty(batches, Rotations(|batches|))
  }

  lemma FirstKeepsPrefix(batches: seq<seq<BufferItem>>, first: seq<nat>, all: seq<nat>)
    requires first <= all && forall i :: 0 <= i < |all| ==> all[i] < |batches|
    ensures Flatten(Ordered(batches, first)) <= Flatten(Ordered(batches, all))
  {
    FlattenCut(Ordered(batches, all), |first|);
    assert Ordered(batches, all)[..|first|] == Ordered(batches, first);
  }

  ghost function Position(all: seq<nat>, x: nat): (at: nat)
    requires x in all
    ensures at < |all| && all[at] == x
  {
    var at :| 0 <= at < |all| && all[at] == x;
    at
  }

  /** Some of the non-empty batches yield a prefix of all of them only if they are the first. */
  lemma PrefixForcesFirst(batches: seq<seq<BufferItem>>, tail: seq<BufferItem>, some: seq<nat>, all: seq<nat>)
    requires forall i :: 0 <= i < |all| ==> all[i] < |batches| && batches[all[i]] != []
    requires forall i :: 0 <= i < |some| ==> some[i] in all && some[i] < |batches|
    requires NoRepeats(some)
    requires NoDuplicates(Flatten(Ordered(batches, all)) + tail)
    requires Flatten(Ordered(batches, some)) <= Flatten(Ordered(batches, all)) + tail
    ensures some <= all
  {
    hide Flatten, NoDuplicates;
    var inOrder := Ordered(batches, all);
    var ranks := seq(|some|, i requires 0 <= i < |some| => Position(all, some[i]));
    assert Ordered(inOrder, ranks) == Ordered(batches, some);
    PrefixForcesIdentity(inOrder, tail, ranks);
    IdentityFits(ranks, |all|);
    forall i | 0 <= i < |some| ensures some[i] == all[i] {
      assert ranks[i] == i && all[ranks[i]] == some[i];
    }
    assert all[..|some|] == some;
  }

  /** When no two accepted items are equal, the reader sees the accepted order exactly when the
      rotations it has followed so far are, leaving out those of an empty buffer, the first ones
      in their order: numbers that go against spawn order matter only between batches with items. */
  lemma OrderKeptIffSpawnOrder<B>(st: State<B>)
    requires Inv(st) && NoDuplicates(st.hist.accepted)
    ensures st.hist.delivered + Rest(st.sys) <= st.hist.accepted
            <==> FirstInOrder(st.hist.batches, st.hist.order[..st.sys.currentSequence - 1])
  {
    KeptIffFirst(st.hist.batches, RingOf(st.sys, st.sys.active).items, st.hist.order[..st.sys.currentSequence - 1]);
  }

  lemma KeptIffFirst(batches: seq<seq<BufferItem>>, tail: seq<BufferItem>, order: seq<nat>)
    requires forall i :: 0 <= i < |order| ==> order[i] < |batches|
    requires NoRepeats(order)
    requires NoDuplicates(Flatten(batches) + tail)
    ensures Flatten(Ordered(batches, order)) <= Flatten(batches) + tail <==> FirstInOrder(batches, order)
  {
    hide Flatten, NoDuplicates;
    var rotations := Rotations(|batches|);
    var some, all := NonEmpty(batches, order), NonEmpty(batches, rotations);
    NonEmptyFits(batches, order);
    NonEmptyFits(batches, rotations);
    NonEmptyFlattens(batches, order);
    NonEmptyFlattens(batches, rotations);
    NonEmptyDistinct(batches, order);
    assert Ordered(batches, rotations) == batches;
    AllAmong(batches, order);
    if some <= all {
      FirstKeepsPrefix(batches, some, all);
    }
    if Flatten(Ordered(batches, order)) <= Flatten(batches) + tail {
      PrefixForcesFirst(batches, tail, some, all);
    }
  }

  lemma AllAmong(batches: seq<seq<BufferItem>>, order: seq<nat>)
    ensures var some, all := NonEmpty(batches, order), NonEmpty(batches, Rotations(|batches|));
            && (forall i :: 0 <= i < |some| ==> some[i] in all)
            && (forall i :: 0 <= i < |all| ==> all[i] < |batches| && batches[all[i]] != [])
  {
    var some, all := NonEmpty(batches, order), NonEmpty(batches, Rotations(|batches|));
    forall i | 0 <= i < |some| ensures some[i] in all {
      assert some[i] in some && Rotations(|batches|)[some[i]] == some[i];
    }
    forall i | 0 <= i < |all| ensures all[i] < |batches| && batches[all[i]] != [] {
      assert all[i] in all;
    }
  }

  lemma IdentityFits(order: seq<nat>, n: nat)
    requires Identity(order) && forall i :: 0 <= i < |order| ==> order[i] < n
    ensures |order| <= n
  {
    if order != [] {
      assert order[|order| - 1] == |order| - 1;
    }
  }

  /** Two writes, each into a buffer of its own, and both buffers retired. */
  ghost function TwoRetired(x: BufferItem, y: BufferItem): (st: State<nat>)
    requires Queueable(x) && Queueable(y)
    ensures st.hist.accepted == [x, y] && st.hist.delivered == [] && st.sys.reader.Idle? && st.sys.current.None?
    ensures st.sys.waiting == map[0 := 0, 1 := 1] && st.sys.numbered == st.sys.heap == map[]
    ensures st.sys.sequence == 0 && st.sys.currentSequence == 1 && RingOf(st.sys, 1).items == [y]
  {
    Next(Next(Next(Next(Start(4, 0, 1), WriteEvent(x, 2)), SwitchEvent(2)), WriteEvent(y, 3)), SwitchEvent(3))
  }

  /** The ordering claim of the documentation fails when two goroutines draw their numbers
      against spawn order: here the second write is delivered and the first is not. */
  lemma OutOfOrderRun(x: BufferItem, y: BufferItem) returns (es: seq<Event<nat>>)
    requires x != y && Queueable(x) && Queueable(y)
    ensures Possible(Start(4, 0, 1), es)
    ensures Exec(Start(4, 0, 1), es).hist.accepted == [x, y]
    ensures Exec(Start(4, 0, 1), es).hist.delivered == [y]
  {
    var st4 := TwoRetired(x, y);
    var tail := SecondDelivered(st4, y);
    var st2 := Next(Next(Start<nat>(4, 0, 1), WriteEvent(x, 2)), SwitchEvent(2));
    ExecTwo(st2, WriteEvent(y, 3), SwitchEvent(3), tail);
    es := [WriteEvent(x, 2), SwitchEvent(2)] + ([WriteEvent(y, 3), SwitchEvent(3)] + tail);
    ExecTwo(Start<nat>(4, 0, 1), WriteEvent(x, 2), SwitchEvent(2), [WriteEvent(y, 3), SwitchEvent(3)] + tail);
  }

  /** The second goroutine draws the first number, and the reader takes its item. */
  lemma SecondDelivered(st: State<nat>, y: BufferItem) returns (es: seq<Event<nat>>)
    requires st.hist.delivered == [] && st.sys.reader.Idle? && st.sys.current.None?
    requires st.sys.waiting == map[0 := 0, 1 := 1] && st.sys.numbered == st.sys.heap == map[]
    requires st.sys.sequence == 0 && st.sys.currentSequence == 1 && RingOf(st.sys, 1).items == [y]
    ensures Possible(st, es)
    ensures Exec(st, es).hist == st.hist.(order := st.hist.order + [1], delivered := [y])
  {
    var st5 := Next(st, NumberEvent(1));
    var st6 := Next(st5, PublishEvent(1));
    var st7 := Next(st6, BeginEvent);
    var st8 := Next(st7, PickEvent);
    var st9 := Next(st8, DecideEvent);
    assert st9.sys.current == Some(1);
    var tail := [BeginEvent, PickEvent, DecideEvent, TakeEvent];
    ExecFour(st6, BeginEvent, PickEvent, DecideEvent, TakeEvent);
    ExecTwo(st, NumberEvent(1), PublishEvent(1), tail);
    es := [NumberEvent(1), PublishEvent(1)] + tail;
  }

  lemma ExecTwo<B>(st: State<B>, a: Event<B>, b: Event<B>, es: seq<Event<B>>)
    requires Enabled(st.sys, a) && Enabled(Next(st, a).sys, b) && Possible(Next(Next(st, a), b), es)
    ensures Possible(st, [a, b] + es) && Exec(st, [a, b] + es) == Exec(Next(Next(st, a), b), es)
  {
  }

  lemma ExecFour<B>(st: State<B>, a: Event<B>, b: Event<B>, c: Event<B>, d: Event<B>)
    requires Enabled(st.sys, a) && Enabled(Next(st, a).sys, b) && Enabled(Next(Next(st, a), b).sys, c)
    requires Enabled(Next(Next(Next(st, a), b), c).sys, d)
    ensures Possible(st, [a, b, c, d])
    ensures Exec(st, [a, b, c, d]) == Next(Next(Next(Next(st, a), b), c), d)
  {
    var st2 := Next(Next(st, a), b);
    assert Exec(Next(Next(st2, c), d), []) == Next(Next(st2, c), d);
    ExecTwo(st2, c, d, []);
    assert [c, d] + [] == [c, d] && [a, b] + [c, d] == [a, b, c, d];
    ExecTwo(st, a, b, [c, d]);
  }
}
