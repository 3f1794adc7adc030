/** Values and index arithmetic of the ring behind a SmartBuffer: 32-bit counters, the
    slot a counter selects, and the bounded queue the ring stands for. */
module Ring {

  datatype Option<+T> = None | Some(value: T)

  /** What is queued: the address of a payload (0 is the nil pointer) and its length. */
  datatype BufferItem = BufferItem(ptr: nat, size: int)

  const NIL_ITEM := BufferItem(0, 0)

  const WRITE_ONLY := 0
  const READ_ONLY := 1
  const SWITCHING := 2

  // States of the double buffer; its closed state has the value of a ring's SWITCHING.
  const WRITING_STATE := 0
  const SWITCHING_STATE := 1
  const CLOSED_STATE := 2

  const MAX_INT32: int := 0x7fff_ffff
  const WORD: int := 0x1_0000_0000

  /** Conversion to a signed 32-bit integer, as `head + 1` wraps in Go. */
  function Int32(x: int): (r: int)
    ensures -MAX_INT32 - 1 <= r <= MAX_INT32
    ensures r % WORD == x % WORD
    ensures -MAX_INT32 - 1 <= x <= MAX_INT32 ==> r == x
  {
    (x + MAX_INT32 + 1) % WORD - MAX_INT32 - 1
  }

  /** Go's `%` for a positive divisor: the result has the sign of the dividend. */
  function GoMod(a: int, b: int): int
    requires b > 0
  {
    if a >= 0 then a % b else -((-a) % b)
  }

  function CalcPos(index: int, capacity: int): int {
    if capacity <= 0 then 0
    else
      var pos := GoMod(index, capacity);
      var pos' := if pos < 0 then pos + capacity else pos;
      GoMod(pos', capacity)
  }

  /** The slot used by the k-th push, and by the k-th pop, counted from 0 since the last Reset. */
  function Slot(k: nat, capacity: int): (slot: int)
    ensures capacity > 0 ==> 0 <= slot < capacity
  {
    var slot := CalcPos(Int32(k - 1), capacity);
    assert capacity > 0 ==> 0 <= slot < capacity by {
      if capacity > 0 {
        CalcPosIsEuclidean(Int32(k - 1), capacity);
      }
    }
    slot
  }

  lemma MulSign(d: int, b: int)
    requires b > 0
    ensures d >= 1 ==> d * b >= b
    ensures d <= 0 ==> d * b <= 0
    ensures d <= -1 ==> d * b <= -b
  {
  }

  lemma DivModUnique(a: int, b: int, q: int, r: int)
    requires b > 0 && 0 <= r < b && a == q * b + r
    ensures a % b == r && a / b == q
  {
    var d := a / b - q;
    assert d * b == r - a % b;
    MulSign(d, b);
  }

  lemma CalcPosIsEuclidean(index: int, capacity: int)
    requires capacity > 0
    ensures CalcPos(index, capacity) == index % capacity
  {
    if index < 0 {
      NegatedResidue(index, capacity);
    }
    DivModUnique(index % capacity, capacity, 0, index % capacity);
  }

  lemma NegatedResidue(index: int, capacity: int)
    requires capacity > 0
    ensures var m := (-index) % capacity;
            index % capacity == if m == 0 then 0 else capacity - m
  {
    var m, q := (-index) % capacity, (-index) / capacity;
    assert -index == q * capacity + m;
    if m == 0 {
      assert index == (-q) * capacity + 0;
      DivModUnique(index, capacity, -q, 0);
    } else {
      assert index == (-q - 1) * capacity + (capacity - m);
      DivModUnique(index, capacity, -q - 1, capacity - m);
    }
  }

  /** Indices less than a capacity apart have different residues. */
  lemma ResiduesDiffer(i: int, j: int, capacity: int)
    requires capacity > 0 && i < j < i + capacity
    ensures i % capacity != j % capacity
  {
    var d := j / capacity - i / capacity;
    assert j - i == d * capacity + (j % capacity - i % capacity);
    MulSign(d, capacity);
  }

  lemma ResidueShift(x: int, m: int, capacity: int)
    requires capacity > 0
    ensures (x + m * capacity) % capacity == x % capacity
  {
    assert x + m * capacity == (x / capacity + m) * capacity + x % capacity;
    DivModUnique(x + m * capacity, capacity, x / capacity + m, x % capacity);
  }

  /** Some index of the window is mapped to `slot`. */
  ghost predicate Hit(start: int, capacity: int, slot: int) {
    exists i :: start <= i < start + capacity && CalcPos(i, capacity) == slot
  }

  /** A window of `capacity` consecutive indices, wherever it starts (the first one starts
      at -1), is mapped one-to-one onto the slots. */
  lemma CalcPosIsBijective(start: int, capacity: int)
    requires capacity > 0
    ensures forall i :: start <= i < start + capacity ==> 0 <= CalcPos(i, capacity) < capacity
    ensures forall i, j :: start <= i < j < start + capacity ==> CalcPos(i, capacity) != CalcPos(j, capacity)
    ensures forall slot :: 0 <= slot < capacity ==> Hit(start, capacity, slot)
  {
    forall i | start <= i < start + capacity ensures 0 <= CalcPos(i, capacity) < capacity {
      CalcPosIsEuclidean(i, capacity);
    }
    forall i, j | start <= i < j < start + capacity
      ensures CalcPos(i, capacity) != CalcPos(j, capacity)
    {
      CalcPosIsEuclidean(i, capacity);
      CalcPosIsEuclidean(j, capacity);
      ResiduesDiffer(i, j, capacity);
    }
    forall slot | 0 <= slot < capacity ensures Hit(start, capacity, slot) {
      CalcPosHits(start, capacity, slot);
    }
  }

  lemma CalcPosHits(start: int, capacity: int, slot: int)
    requires 0 <= slot < capacity
    ensures Hit(start, capacity, slot)
  {
    var m := (slot - start) / capacity;
    var i := start + (slot - start) % capacity;
    assert i == slot + (-m) * capacity;
    ResidueShift(slot, -m, capacity);
    DivModUnique(slot, capacity, 0, slot);
    CalcPosIsEuclidean(i, capacity);
  }

  // ---------------------------------------------------------------- 32-bit wrap-around

  /** The slots that hold unread items are pairwise different. */
  ghost predicate SlotsDistinct(popped: nat, pushed: nat, capacity: int) {
    forall j, k :: popped <= j < k < pushed ==> Slot(j, capacity) != Slot(k, capacity)
  }

  /** The next push does not land on a slot that still holds an unread item. */
  ghost predicate NextSlotFree(popped: nat, pushed: nat, capacity: int) {
    forall j :: popped <= j < pushed ==> Slot(j, capacity) != Slot(pushed, capacity)
  }

  /** Either the counters have not wrapped yet, or wrapping is harmless for this capacity. */
  predicate IndexSafe(pushed: nat, capacity: int) {
    pushed - 1 <= MAX_INT32 || (capacity > 0 && WORD % capacity == 0)
  }

  lemma WrapIsShift(x: int)
    ensures var m := Int32(x) / WORD - x / WORD; Int32(x) == x + m * WORD
  {
    assert x == WORD * (x / WORD) + x % WORD;
    assert Int32(x) == WORD * (Int32(x) / WORD) + Int32(x) % WORD;
  }

  lemma Int32Sum(x: int, y: int)
    ensures Int32(Int32(x) + y) == Int32(x + y)
  {
    var m := Int32(x) / WORD - x / WORD;
    WrapIsShift(x);
    ResidueShift(x + y + MAX_INT32 + 1, m, WORD);
    assert Int32(x) + y + MAX_INT32 + 1 == x + y + MAX_INT32 + 1 + m * WORD;
  }

  lemma SlotValue(k: nat, capacity: int)
    requires capacity > 0 && IndexSafe(k, capacity)
    ensures Slot(k, capacity) == (k - 1) % capacity
  {
    CalcPosIsEuclidean(Int32(k - 1), capacity);
    if k - 1 > MAX_INT32 {
      hide Int32;
      var c, m := WORD / capacity, Int32(k - 1) / WORD - (k - 1) / WORD;
      WrapIsShift(k - 1);
      assert m * WORD == m * (c * capacity) == (m * c) * capacity;
      ResidueShift(k - 1, m * c, capacity);
    }
  }

  lemma SafeNextSlot(popped: nat, pushed: nat, capacity: int)
    requires capacity > 0 && popped <= pushed < popped + capacity && IndexSafe(pushed, capacity)
    ensures NextSlotFree(popped, pushed, capacity)
  {
    SlotValue(pushed, capacity);
    forall j | popped <= j < pushed ensures Slot(j, capacity) != Slot(pushed, capacity) {
      SlotValue(j, capacity);
      ResiduesDiffer(j - 1, pushed - 1, capacity);
    }
  }

  /** A capacity that does not divide 2^32 makes the push that follows index 2^31 - 1
      overwrite an unread item of a ring that is not full. */
  lemma WrapCollides(capacity: int) returns (popped: nat, pushed: nat)
    requires 0 < capacity <= MAX_INT32 && WORD % capacity != 0
    ensures pushed == MAX_INT32 + 2
    ensures popped <= pushed < popped + capacity && !NextSlotFree(popped, pushed, capacity)
  {
    pushed := MAX_INT32 + 2;
    popped := pushed - capacity + 1;
    var d := (-WORD) % capacity;
    NegatedResidue(-WORD, capacity);
    var j := pushed - capacity + d;
    var f := (-WORD) / capacity;
    assert j - 1 == (-MAX_INT32 - 1) + (-f - 1) * capacity by {
      assert -WORD == f * capacity + d;
      assert (-f - 1) * capacity == -(f * capacity) - capacity;
    }
    ResidueShift(-MAX_INT32 - 1, -f - 1, capacity);
    assert Slot(j, capacity) == Slot(pushed, capacity) by {
      CalcPosIsEuclidean(Int32(j - 1), capacity);
      CalcPosIsEuclidean(Int32(pushed - 1), capacity);
    }
  }

  /** A ring that may be pushed for ever keeps its unread items apart exactly when its
      capacity divides 2^32, i.e. is a power of two. */
  lemma RingSoundForeverIffCapacityDividesWord(capacity: int)
    requires 0 < capacity <= MAX_INT32
    ensures (forall popped: nat, pushed: nat :: popped <= pushed < popped + capacity ==>
               NextSlotFree(popped, pushed, capacity))
            <==> WORD % capacity == 0
  {
    if WORD % capacity == 0 {
      forall popped: nat, pushed: nat | popped <= pushed < popped + capacity
        ensures NextSlotFree(popped, pushed, capacity)
      {
        SafeNextSlot(popped, pushed, capacity);
      }
    } else {
      var popped, pushed := WrapCollides(capacity);
    }
  }

  // ---------------------------------------------------------------- slots and the items they hold

  /** The `n` items from the `popped`-th on, read off the slots. */
  ghost function Unread(slots: seq<BufferItem>, popped: nat, n: nat): seq<BufferItem>
    requires n <= |slots|
  {
    seq(n, i requires 0 <= i < n && n <= |slots| => slots[Slot(popped + i, |slots|)])
  }

  lemma UnreadPushed(slots: seq<BufferItem>, popped: nat, n: nat, item: BufferItem)
    requires n < |slots| && NextSlotFree(popped, popped + n, |slots|)
    requires SlotsDistinct(popped, popped + n, |slots|)
    ensures Unread(slots[Slot(popped + n, |slots|) := item], popped, n + 1) == Unread(slots, popped, n) + [item]
    ensures SlotsDistinct(popped, popped + n + 1, |slots|)
  {
  }

  lemma UnreadPopped(slots: seq<BufferItem>, popped: nat, n: nat, item: BufferItem)
    requires 0 < n <= |slots| && SlotsDistinct(popped, popped + n, |slots|)
    ensures slots[Slot(popped, |slots|)] == Unread(slots, popped, n)[0]
    ensures Unread(slots[Slot(popped, |slots|) := item], popped + 1, n - 1) == Unread(slots, popped, n)[1..]
  {
  }

  // ---------------------------------------------------------------- the queue a ring stands for

  /** `items` are the unread items, oldest first; the counters are those of the struct. */
  datatype RingValue = RingValue(items: seq<BufferItem>, state: int, head: int, tail: int)

  const PRISTINE := RingValue([], WRITE_ONLY, -1, -1)

  datatype PushResult = Accepted | RejectedReadOnly | RejectedClosed

  function PushValue(r: RingValue, capacity: int, item: BufferItem): (RingValue, PushResult) {
    if r.state == READ_ONLY then
      (r, RejectedReadOnly)
    else if |r.items| >= capacity then
      (r.(state := if r.state == WRITE_ONLY then READ_ONLY else r.state), RejectedReadOnly)
    else
      (r.(items := r.items + [item], head := Int32(r.head + 1)), Accepted)
  }

  function WriteValue(r: RingValue, capacity: int, item: BufferItem): (RingValue, PushResult) {
    if r.state == CLOSED_STATE then (r, RejectedClosed) else PushValue(r, capacity, item)
  }

  function PopValue(r: RingValue): (RingValue, BufferItem) {
    if r.items == [] then (r, NIL_ITEM)
    else (r.(items := r.items[1..], tail := Int32(r.tail + 1)), r.items[0])
  }

  /** A ring in state 2 refuses every write with an error of its own, though a push would find room. */
  lemma ClosedRefuses(r: RingValue, capacity: int, item: BufferItem)
    requires r.state == 2 && |r.items| < capacity
    ensures WriteValue(r, capacity, item) == (r, RejectedClosed)
    ensures PushValue(r, capacity, item).1 == Accepted && PushValue(r, capacity, item).0.items == r.items + [item]
  {
  }

  /** Pushing one after the other, the results of the single pushes. */
  function PushAll(r: RingValue, capacity: int, xs: seq<BufferItem>): (RingValue, seq<PushResult>)
    decreases |xs|
  {
    if xs == [] then (r, [])
    else
      var (r1, res) := PushValue(r, capacity, xs[0]);
      var (r2, rest) := PushAll(r1, capacity, xs[1..]);
      (r2, [res] + rest)
  }

  /** A ring filled from pristine takes exactly `capacity` items, keeps them in order, and
      the first push beyond latches it read-only, whatever is pushed later. */
  lemma {:induction false} PushAllLatches(r: RingValue, capacity: nat, xs: seq<BufferItem>)
    requires r.state == WRITE_ONLY && |r.items| <= capacity
    ensures var (r', res) := PushAll(r, capacity, xs);
            var room := capacity - |r.items|;
            && r'.items == r.items + xs[..if |xs| <= room then |xs| else room]
            && (r'.state == READ_ONLY <==> |xs| > room)
            && |res| == |xs|
            && forall i :: 0 <= i < |xs| ==> (res[i] == Accepted <==> i < room)
    decreases |xs|
  {
    if xs == [] {
    } else if |r.items| < capacity {
      var (r1, r1res) := PushValue(r, capacity, xs[0]);
      PushAllLatches(r1, capacity, xs[1..]);
      var room := capacity - |r.items|;
      var n := if |xs| <= room then |xs| else room;
      assert xs[..n] == [xs[0]] + xs[1..][..n - 1];
    } else {
      var r1 := r.(state := READ_ONLY);
      LatchedRejects(r1, capacity, xs[1..]);
    }
  }

  lemma {:induction false} LatchedRejects(r: RingValue, capacity: nat, xs: seq<BufferItem>)
    requires r.state == READ_ONLY
    ensures PushAll(r, capacity, xs).0 == r
    ensures |PushAll(r, capacity, xs).1| == |xs|
    ensures forall i :: 0 <= i < |xs| ==> PushAll(r, capacity, xs).1[i] == RejectedReadOnly
  {
    if xs != [] {
      LatchedRejects(r, capacity, xs[1..]);
    }
  }
}
