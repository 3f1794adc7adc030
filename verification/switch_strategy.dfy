/** When to rotate: the three switching strategies, with the floating-point factors as reals. */
module SwitchStrategy {

  const MIN_BUFFER_SIZE := 1
  const SIZE_WEIGHT: real := 0.6
  const TIME_WEIGHT: real := 0.4
  const FULL_CAPACITY: real := 0.85

  function NeedSwitchBySize(currentCount: int, bufferSize: int): bool {
    currentCount >= bufferSize
  }

  function NeedSwitchByTime(elapsed: int, interval: int): bool {
    elapsed >= interval
  }

  function AtLeastOne(bufferSize: int): int {
    if bufferSize < MIN_BUFFER_SIZE then MIN_BUFFER_SIZE else bufferSize
  }

  /** The weighted sum of the two factors. */
  function Combined(currentCount: int, bufferSize: int, elapsed: int, interval: int): real
    requires bufferSize > 0 && interval != 0
  {
    TIME_WEIGHT * (elapsed as real / interval as real) + SIZE_WEIGHT * (currentCount as real / bufferSize as real)
  }

  /** The default strategy. For an interval of 0 that has not elapsed yet the source divides a
      negative number by zero, and minus infinity is below any threshold. */
  function NeedSwitch(currentCount: int, bufferSize: int, elapsed: int, interval: int): bool {
    var size := AtLeastOne(bufferSize);
    if currentCount >= size then true
    else if elapsed >= interval then true
    else if interval == 0 then false
    else Combined(currentCount, size, elapsed, interval) >= FULL_CAPACITY
  }

  // ---------------------------------------------------------------- without division

  /** The early-switch condition, cross-multiplied: exact in integers. */
  lemma CombinedExact(count: int, size: int, elapsed: int, interval: int)
    requires size > 0 && interval > 0
    ensures Combined(count, size, elapsed, interval) >= FULL_CAPACITY
            <==> 8 * elapsed * size + 12 * count * interval >= 17 * size * interval
  {
  }

  /** The whole decision in integers; a buffer size below 1 counts as 1. */
  lemma NeedSwitchExact(count: int, bufferSize: int, elapsed: int, interval: int)
    requires interval >= 0
    ensures var size := if bufferSize < 1 then 1 else bufferSize;
            NeedSwitch(count, bufferSize, elapsed, interval)
            <==> count >= size || elapsed >= interval
                 || (interval > 0 && 8 * elapsed * size + 12 * count * interval >= 17 * size * interval)
  {
    if interval > 0 {
      CombinedExact(count, if bufferSize < 1 then 1 else bufferSize, elapsed, interval);
    }
  }

  // ---------------------------------------------------------------- the default strategy compared

  lemma FractionGrows(a: int, b: int, a': int, b': int)
    requires 0 <= a <= a' && 0 < b' <= b
    ensures a as real / b as real <= a' as real / b' as real
  {
  }

  /** More items, more time, a smaller buffer or a shorter interval never cancel a switch, across
      all branches of the decision. */
  lemma NeedSwitchMonotone(
    count: int, size: int, elapsed: int, interval: int, count': int, size': int, elapsed': int, interval': int)
    requires 0 <= count <= count' && 0 <= elapsed <= elapsed' && 1 <= size' <= size && 0 < interval' <= interval
    requires NeedSwitch(count, size, elapsed, interval)
    ensures NeedSwitch(count', size', elapsed', interval')
  {
    FractionGrows(count, size, count', size');
    FractionGrows(elapsed, interval, elapsed', interval');
  }

  /** A switch before the buffer is full and before the interval has passed takes more than three
      quarters of the capacity and more than five eighths of the interval. */
  lemma EarlySwitch(count: int, size: int, elapsed: int, interval: int)
    requires size >= 1 && interval > 0 && count < size && elapsed < interval
    requires NeedSwitch(count, size, elapsed, interval)
    ensures 4 * count > 3 * size && 8 * elapsed > 5 * interval
  {
    CombinedExact(count, size, elapsed, interval);
    assert 8 * elapsed * size < 8 * (interval * size);
    assert 12 * count * interval < 12 * (size * interval);
    assert (4 * count - 3 * size) * interval > 0;
    assert (8 * elapsed - 5 * interval) * size > 0;
  }

  lemma TimeImpliesDefault(count: int, bufferSize: int, elapsed: int, interval: int)
    ensures NeedSwitchByTime(elapsed, interval) ==> NeedSwitch(count, bufferSize, elapsed, interval)
  {
  }

  /** The other two strategies are the default one seen from one side: on an empty buffer it goes by
      time alone, and right after a switch by size alone. */
  lemma DefaultOfOneFactor(count: int, size: int, elapsed: int, interval: int)
    requires size >= 1 && interval > 0 && count >= 0 && elapsed >= 0
    ensures NeedSwitch(0, size, elapsed, interval) <==> NeedSwitchByTime(elapsed, interval)
    ensures NeedSwitch(count, size, 0, interval) <==> NeedSwitchBySize(count, size)
  {
    NeedSwitchExact(0, size, elapsed, interval);
    NeedSwitchExact(count, size, 0, interval);
    if elapsed < interval {
      assert 8 * elapsed * size <= 8 * (interval * size);
    }
    if count < size {
      assert 12 * count * interval <= 12 * (size * interval);
    }
    assert size * interval > 0;
  }

  /** The size-only strategy implies the default one exactly for buffers that hold something: for
      a size below 1 the default strategy waits for one item, the other one does not. */
  lemma SizeImpliesDefaultIffSizePositive(bufferSize: int)
    ensures (forall count: nat, elapsed: nat, interval: nat ::
               NeedSwitchBySize(count, bufferSize) ==> NeedSwitch(count, bufferSize, elapsed, interval))
            <==> bufferSize >= 1
  {
    if bufferSize < 1 {
      assert NeedSwitchBySize(0, bufferSize) && !NeedSwitch(0, bufferSize, 0, 1);
    }
  }
}
