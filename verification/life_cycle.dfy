/** The pools that track medium and big payloads by address, and their periodic cleaning. */
module LifeCycle {
  import opened Sets

  const MAX_CLEAN_COUNTS := 200

  // Times and durations in nanoseconds.
  const MINUTE := 60_000_000_000
  const MEDIUM_POOL_TTL := 2 * MINUTE

  /** One run of a cleaning loop, whatever the map order: of the `victims` it removes 201, or all
      if there are fewer, and nothing else. */
  ghost predicate Removes<V>(before: map<int, V>, after: map<int, V>, victims: set<int>, removed: set<int>) {
    && removed <= victims && after == before - removed
    && |removed| == if |victims| <= MAX_CLEAN_COUNTS then |victims| else MAX_CLEAN_COUNTS + 1
  }

  // ---------------------------------------------------------------- big payloads

  datatype BigDataEntry = BigDataEntry(owner: int, size: int, ref: int)

  ghost function SumOf(pool: map<int, BigDataEntry>): int
    decreases |pool|
  {
    if |pool| == 0 then 0
    else
      var ptr := SomeKey(pool);
      pool[ptr].size + SumOf(pool - {ptr})
  }

  ghost function SomeKey(pool: map<int, BigDataEntry>): (ptr: int)
    requires |pool| > 0
    ensures ptr in pool
  {
    EmptyIff(pool.Keys);
    var ptr :| ptr in pool;
    ptr
  }

  lemma {:induction false} SumWithout(pool: map<int, BigDataEntry>, ptr: int)
    requires ptr in pool
    ensures SumOf(pool) == pool[ptr].size + SumOf(pool - {ptr})
    decreases |pool|
  {
    var first := SomeKey(pool);
    if first != ptr {
      SumWithout(pool - {first}, ptr);
      SumWithout(pool - {ptr}, first);
      assert pool - {first} - {ptr} == pool - {ptr} - {first};
    }
  }

  lemma SumReplace(pool: map<int, BigDataEntry>, ptr: int, entry: BigDataEntry)
    ensures SumOf(pool[ptr := entry]) == SumOf(pool - {ptr}) + entry.size
    ensures SumOf(pool) == SumOf(pool - {ptr}) + if ptr in pool then pool[ptr].size else 0
  {
    SumWithout(pool[ptr := entry], ptr);
    assert pool[ptr := entry] - {ptr} == pool - {ptr};
    if ptr in pool {
      SumWithout(pool, ptr);
    } else {
      assert pool - {ptr} == pool;
    }
  }

  /** The entries a cleanup may remove. One whose counter has gone below 0 is not among them. */
  ghost function Unreferenced(pool: map<int, BigDataEntry>): (victims: set<int>)
    ensures victims <= pool.Keys
  {
    set ptr | ptr in pool && pool[ptr].ref == 0
  }

  /** The pool as a value. The last three are history: the sizes of entries that Put replaced, of
      entries that cleanup removed, and what the sizes given to Free fell short of those recorded. */
  datatype Account = Account(
    pool: map<int, BigDataEntry>, currentSize: int, overwritten: int, cleaned: int, shortfall: int)

  datatype Operation =
    | Put(ptr: int, size: int)
    | Release(ptr: int)
    | Free(ptr: int, size: int)
    | Cleanup(removed: set<int>)

  function SizeAt(pool: map<int, BigDataEntry>, ptr: int): int {
    if ptr in pool then pool[ptr].size else 0
  }

  ghost function Perform(a: Account, op: Operation): Account {
    match op
    case Put(ptr, size) =>
      a.(pool := a.pool[ptr := BigDataEntry(ptr, size, 1)], currentSize := a.currentSize + size,
         overwritten := a.overwritten + SizeAt(a.pool, ptr))
    case Release(ptr) =>
      // the counter may go below 0
      if ptr in a.pool then a.(pool := a.pool[ptr := a.pool[ptr].(ref := a.pool[ptr].ref - 1)]) else a
    case Free(ptr, size) =>
      if ptr in a.pool then
        a.(pool := a.pool - {ptr}, currentSize := a.currentSize - size,
           shortfall := a.shortfall + SizeAt(a.pool, ptr) - size)
      else a
    case Cleanup(removed) =>
      a.(pool := a.pool - removed, cleaned := a.cleaned + SumOf(a.pool) - SumOf(a.pool - removed))
  }

  /** The size count is the sum of the recorded sizes, plus what was never subtracted from it. */
  ghost predicate Balanced(a: Account) {
    a.currentSize == SumOf(a.pool) + a.overwritten + a.cleaned + a.shortfall
  }

  lemma PerformBalances(a: Account, op: Operation)
    requires Balanced(a)
    ensures Balanced(Perform(a, op))
  {
    hide SumOf;
    match op
    case Put(ptr, size) => SumReplace(a.pool, ptr, BigDataEntry(ptr, size, 1));
    case Release(ptr) =>
      if ptr in a.pool {
        SumReplace(a.pool, ptr, a.pool[ptr].(ref := a.pool[ptr].ref - 1));
      }
    case Free(ptr, size) => SumReplace(a.pool, ptr, BigDataEntry(ptr, size, 1));
    case Cleanup(_) =>
  }

  class BigDataPool {
    var pool: map<int, BigDataEntry>
    var currentSize: int
    const maxSize: int
    ghost var overwritten: int
    ghost var cleaned: int
    ghost var shortfall: int

    ghost function Value(): Account
      reads this
    {
      Account(pool, currentSize, overwritten, cleaned, shortfall)
    }

    ghost predicate Valid()
      reads this
    {
      Balanced(Value())
    }

    constructor (maxSize: int)
      ensures Valid() && Value() == Account(map[], 0, 0, 0, 0)
    {
      pool, currentSize, this.maxSize := map[], 0, maxSize;
      overwritten, cleaned, shortfall := 0, 0, 0;
    }

    method Put(ptr: int, size: int)
      requires Valid()
      modifies this
      ensures Valid() && Value() == Perform(old(Value()), Operation.Put(ptr, size))
      ensures pool == old(pool)[ptr := BigDataEntry(ptr, size, 1)] && currentSize == old(currentSize) + size
    {
      PerformBalances(Value(), Operation.Put(ptr, size));
      overwritten := overwritten + SizeAt(pool, ptr);
      currentSize := currentSize + size;
      pool := pool[ptr := BigDataEntry(ptr, size, 1)];
    }

    method Release(ptr: int)
      requires Valid()
      modifies this
      ensures Valid() && Value() == Perform(old(Value()), Operation.Release(ptr)) && currentSize == old(currentSize)
      ensures ptr in old(pool) ==>
        pool == old(pool)[ptr := BigDataEntry(old(pool)[ptr].owner, old(pool)[ptr].size, old(pool)[ptr].ref - 1)]
      ensures ptr !in old(pool) ==> pool == old(pool)
    {
      PerformBalances(Value(), Operation.Release(ptr));
      if ptr !in pool {
        return;
      }
      var entry := pool[ptr];
      entry := entry.(ref := entry.ref - 1);
      pool := pool[ptr := entry];
    }

    method Free(ptr: int, size: int)
      requires Valid()
      modifies this
      ensures Valid() && Value() == Perform(old(Value()), Operation.Free(ptr, size))
      ensures ptr !in pool && pool.Keys == old(pool).Keys - {ptr} && forall p :: p in pool ==> pool[p] == old(pool)[p]
      ensures currentSize == old(currentSize) - if ptr in old(pool) then size else 0
    {
      PerformBalances(Value(), Operation.Free(ptr, size));
      if ptr in pool {
        shortfall := shortfall + pool[ptr].size - size;
        currentSize := currentSize - size;
        pool := pool - {ptr};
      }
    }

    /** Removes unreferenced entries, at most 201, in map order; the size count is not adjusted. */
    method Cleanup() returns (ghost removed: set<int>)
      requires Valid()
      modifies this
      ensures Valid() && Removes(old(pool), pool, Unreferenced(old(pool)), removed)
      ensures Value() == Perform(old(Value()), Operation.Cleanup(removed))
      ensures pool == old(pool) - removed && currentSize == old(currentSize)
      ensures forall ptr :: ptr in removed ==> ptr in old(pool) && old(pool)[ptr].ref == 0
      ensures |removed| <= 200 ==> forall ptr :: ptr in pool ==> pool[ptr].ref != 0
      ensures |removed| <= 201
    {
      hide Unreferenced, SumOf, Removes, InProgress;
      ghost var victims := Unreferenced(pool);
      Started(pool, victims);
      removed := {};
      if |pool| == 0 {
        RanThrough(pool, pool, pool.Keys, victims, removed);
        OnlyUnreferenced(pool, pool, removed);
        return;
      }
      var count := 0;
      var todo := pool.Keys;
      while |todo| > 0
        invariant InProgress(old(pool), todo, removed, victims) && pool == old(pool) - removed
        invariant Valid() && count == |removed| <= MAX_CLEAN_COUNTS
        invariant currentSize == old(currentSize) && overwritten == old(overwritten) && shortfall == old(shortfall)
        decreases |todo|
      {
        EmptyIff(todo);
        var ptr :| ptr in todo;
        Looked(old(pool), todo, removed, victims, ptr);
        IsVictim(old(pool), ptr);
        todo := todo - {ptr};
        if pool[ptr].ref != 0 {
          continue;
        }
        Discard(ptr);
        removed := removed + {ptr};
        count := count + 1;
        if count > MAX_CLEAN_COUNTS {
          StoppedEarly(old(pool), pool, todo, victims, removed);
          OnlyUnreferenced(old(pool), pool, removed);
          return;
        }
      }
      RanThrough(old(pool), pool, todo, victims, removed);
      OnlyUnreferenced(old(pool), pool, removed);
    }

    method Discard(ptr: int)
      requires Valid() && ptr in pool
      modifies `pool, `cleaned
      ensures Valid() && pool == old(pool) - {ptr}
    {
      SumReplace(pool, ptr, pool[ptr]);
      cleaned := cleaned + pool[ptr].size;
      pool := pool - {ptr};
    }
  }

  /** What a cleaning loop has removed, and what it has left unless it stopped after 201 entries. */
  lemma OnlyUnreferenced(before: map<int, BigDataEntry>, after: map<int, BigDataEntry>, removed: set<int>)
    requires Removes(before, after, Unreferenced(before), removed)
    ensures after == before - removed && |removed| <= 201
    ensures forall ptr :: ptr in removed ==> ptr in before && before[ptr].ref == 0
    ensures |removed| <= 200 ==> forall ptr :: ptr in after ==> after[ptr].ref != 0
  {
    var victims := Unreferenced(before);
    if |removed| <= 200 {
      assert victims == removed + (victims - removed) && |victims - removed| == 0;
      EmptyIff(victims - removed);
    }
  }

  lemma IsVictim(pool: map<int, BigDataEntry>, ptr: int)
    requires ptr in pool
    ensures ptr in Unreferenced(pool) <==> pool[ptr].ref == 0
  {
  }

  /** A cleaning loop that still has to look at `todo`. */
  ghost predicate InProgress<V>(before: map<int, V>, todo: set<int>, removed: set<int>, victims: set<int>) {
    todo <= before.Keys && removed <= victims && removed !! todo && victims <= todo + removed
  }

  lemma Started<V>(pool: map<int, V>, victims: set<int>)
    requires victims <= pool.Keys
    ensures InProgress(pool, pool.Keys, {}, victims) && pool - {} == pool
  {
  }

  /** The next entry is still there; it is left alone or, if it is a victim, removed. */
  lemma Looked<V>(before: map<int, V>, todo: set<int>, removed: set<int>, victims: set<int>, ptr: int)
    requires InProgress(before, todo, removed, victims) && ptr in todo
    ensures ptr in before && ptr in before - removed && (before - removed)[ptr] == before[ptr]
    ensures if ptr in victims then
              InProgress(before, todo - {ptr}, removed + {ptr}, victims)
              && |removed + {ptr}| == |removed| + 1
              && before - removed - {ptr} == before - (removed + {ptr})
            else InProgress(before, todo - {ptr}, removed, victims)
  {
  }

  lemma StoppedEarly<V>(before: map<int, V>, after: map<int, V>, todo: set<int>, victims: set<int>, removed: set<int>)
    requires InProgress(before, todo, removed, victims)
    requires |removed| == MAX_CLEAN_COUNTS + 1 && after == before - removed
    ensures Removes(before, after, victims, removed)
  {
    assert |victims| == |removed| + |victims - removed| by {
      assert victims == removed + (victims - removed);
    }
  }

  lemma RanThrough<V>(before: map<int, V>, after: map<int, V>, todo: set<int>, victims: set<int>, removed: set<int>)
    requires InProgress(before, todo, removed, victims) && |todo| == 0
    requires |removed| <= MAX_CLEAN_COUNTS && after == before - removed
    ensures Removes(before, after, victims, removed)
  {
    assert removed == victims;
  }

  // ---------------------------------------------------------------- accounting over whole runs

  /** Puts of something, frees of what was recorded or of an address that is not, cleanups as
      BigDataPool.Cleanup does them. */
  ghost predicate Proper(a: Account, op: Operation) {
    match op
    case Put(_, size) => size > 0
    case Release(_) => true
    case Free(ptr, size) => ptr in a.pool ==> size == a.pool[ptr].size
    case Cleanup(removed) => removed <= Unreferenced(a.pool)
  }

  ghost predicate ProperRun(a: Account, ops: seq<Operation>)
    decreases |ops|
  {
    ops == [] || (Proper(a, ops[0]) && ProperRun(Perform(a, ops[0]), ops[1..]))
  }

  ghost function PerformAll(a: Account, ops: seq<Operation>): Account
    decreases |ops|
  {
    if ops == [] then a else PerformAll(Perform(a, ops[0]), ops[1..])
  }

  /** The operation drops an entry without subtracting its size. */
  ghost predicate Leaks(a: Account, op: Operation) {
    (op.Put? && op.ptr in a.pool) || (op.Cleanup? && exists ptr :: ptr in op.removed)
  }

  ghost predicate LeakFree(a: Account, ops: seq<Operation>)
    decreases |ops|
  {
    ops == [] || (!Leaks(a, ops[0]) && LeakFree(Perform(a, ops[0]), ops[1..]))
  }

  ghost predicate Positive(pool: map<int, BigDataEntry>) {
    forall ptr :: ptr in pool ==> pool[ptr].size > 0
  }

  /** What has been replaced and cleaned. */
  ghost function Leaked(a: Account): int {
    a.overwritten + a.cleaned
  }

  lemma {:induction false} SumOfPart(pool: map<int, BigDataEntry>, removed: set<int>)
    requires Positive(pool) && removed <= pool.Keys
    ensures SumOf(pool - removed) <= SumOf(pool)
    ensures SumOf(pool - removed) == SumOf(pool) <==> forall ptr :: ptr !in removed
    decreases |removed|
  {
    hide SumOf;
    EmptyIff(removed);
    if |removed| == 0 {
      assert pool - removed == pool;
    } else {
      var ptr :| ptr in removed;
      SumWithout(pool, ptr);
      assert pool - removed == pool - {ptr} - (removed - {ptr});
      SumOfPart(pool - {ptr}, removed - {ptr});
    }
  }

  lemma LeaksShow(a: Account, op: Operation)
    requires Positive(a.pool) && Proper(a, op)
    ensures var a' := Perform(a, op);
            && Positive(a'.pool) && a'.shortfall == a.shortfall
            && (if Leaks(a, op) then Leaked(a') > Leaked(a) else Leaked(a') == Leaked(a))
  {
    if op.Cleanup? {
      SumOfPart(a.pool, op.removed);
    }
  }

  lemma {:induction false} LeaksAddUp(a: Account, ops: seq<Operation>)
    requires Positive(a.pool) && ProperRun(a, ops) && Balanced(a)
    ensures var a' := PerformAll(a, ops);
            && Balanced(a') && a'.shortfall == a.shortfall
            && (if LeakFree(a, ops) then Leaked(a') == Leaked(a) else Leaked(a') > Leaked(a))
    decreases |ops|
  {
    if ops != [] {
      LeaksShow(a, ops[0]);
      PerformBalances(a, ops[0]);
      LeaksAddUp(Perform(a, ops[0]), ops[1..]);
    }
  }

  /** In every run the size count never falls short of the sizes recorded, and it exceeds them
      exactly when some Put replaced an entry or some cleanup removed one. */
  lemma CountExactIffLeakFree(ops: seq<Operation>)
    requires ProperRun(Account(map[], 0, 0, 0, 0), ops)
    ensures var a := PerformAll(Account(map[], 0, 0, 0, 0), ops);
            && a.currentSize >= SumOf(a.pool)
            && (a.currentSize == SumOf(a.pool) <==> LeakFree(Account(map[], 0, 0, 0, 0), ops))
  {
    LeaksAddUp(Account(map[], 0, 0, 0, 0), ops);
  }

  /** Without leaks, the size count is back to 0 once every entry has been freed. */
  lemma AllFreedCountsNothing(ops: seq<Operation>)
    requires ProperRun(Account(map[], 0, 0, 0, 0), ops) && LeakFree(Account(map[], 0, 0, 0, 0), ops)
    requires var pool := PerformAll(Account(map[], 0, 0, 0, 0), ops).pool; forall ptr :: ptr !in pool
    ensures PerformAll(Account(map[], 0, 0, 0, 0), ops).currentSize == 0
  {
    CountExactIffLeakFree(ops);
    EmptyIff(PerformAll(Account(map[], 0, 0, 0, 0), ops).pool.Keys);
  }

  /** From any state, freeing each entry with its recorded size empties the pool and takes exactly the
      recorded sizes from the count. */
  lemma {:induction false} FreesAll(a: Account) returns (ops: seq<Operation>)
    ensures ProperRun(a, ops) && (forall i :: 0 <= i < |ops| ==> ops[i].Free?) && |ops| == |a.pool|
    ensures PerformAll(a, ops).pool == map[] && PerformAll(a, ops).currentSize == a.currentSize - SumOf(a.pool)
    decreases |a.pool|
  {
    hide SumOf;
    ops := [];
    if |a.pool| == 0 {
      EmptyIff(a.pool.Keys);
      SumOfNone(a.pool);
    } else {
      var ptr := SomeKey(a.pool);
      var free := Operation.Free(ptr, a.pool[ptr].size);
      SumWithout(a.pool, ptr);
      assert (a.pool - {ptr}).Keys == a.pool.Keys - {ptr};
      var rest := FreesAll(Perform(a, free));
      ops := [free] + rest;
      assert ops[0] == free && ops[1..] == rest;
    }
  }

  lemma SumOfNone(pool: map<int, BigDataEntry>)
    requires |pool| == 0
    ensures SumOf(pool) == 0
  {
  }

  // ---------------------------------------------------------------- when an entry can be cleaned up

  /** Neither Put nor Free touches the entry. */
  ghost predicate Undisturbed(ptr: int, ops: seq<Operation>) {
    forall i :: 0 <= i < |ops| ==> (ops[i].Put? || ops[i].Free? ==> ops[i].ptr != ptr)
  }

  ghost function Releases(ptr: int, ops: seq<Operation>): nat {
    if ops == [] then 0 else (if ops[0] == Operation.Release(ptr) then 1 else 0) + Releases(ptr, ops[1..])
  }

  /** As long as the entry is there, its counter has gone down once for each release. */
  lemma {:induction false} CounterGoesDown(a: Account, ops: seq<Operation>, ptr: int)
    requires ProperRun(a, ops) && Undisturbed(ptr, ops)
    ensures var pool := PerformAll(a, ops).pool;
            && (ptr in pool ==> ptr in a.pool && pool[ptr].ref == a.pool[ptr].ref - Releases(ptr, ops))
            && (ptr in a.pool && a.pool[ptr].ref < 0 ==> ptr in pool)
    decreases |ops|
  {
    if ops != [] {
      assert Undisturbed(ptr, ops[1..]) by {
        assert forall i :: 0 <= i < |ops[1..]| ==> ops[1..][i] == ops[i + 1];
      }
      CounterGoesDown(Perform(a, ops[0]), ops[1..], ptr);
    }
  }

  /** An entry that has been put and is then left alone by Put and Free can be cleaned up exactly
      when it has been released once, and not been cleaned up before. */
  lemma RemovableAfterOneRelease(a: Account, ptr: int, size: int, ops: seq<Operation>)
    requires ProperRun(Perform(a, Operation.Put(ptr, size)), ops) && Undisturbed(ptr, ops)
    ensures var pool := PerformAll(Perform(a, Operation.Put(ptr, size)), ops).pool;
            ptr in Unreferenced(pool) <==> ptr in pool && Releases(ptr, ops) == 1
  {
    CounterGoesDown(Perform(a, Operation.Put(ptr, size)), ops, ptr);
  }

  /** Writing the same memory twice and reading it twice leaves an entry whose counter is -1, and
      no cleanup ever removes it. */
  lemma TwoPutsTwoReleasesStay(ptr: int, size: int, ops: seq<Operation>)
    requires size > 0 && Undisturbed(ptr, ops)
    ensures var start := Account(map[], 0, 0, 0, 0);
            var put, release := Operation.Put(ptr, size), Operation.Release(ptr);
            var twice := [put, put, release, release];
            && ProperRun(start, twice)
            && ptr in PerformAll(start, twice).pool && PerformAll(start, twice).pool[ptr].ref == -1
            && (ProperRun(PerformAll(start, twice), ops) ==> ptr in PerformAll(PerformAll(start, twice), ops).pool)
  {
    var start := Account(map[], 0, 0, 0, 0);
    var put, release := Operation.Put(ptr, size), Operation.Release(ptr);
    var twice := [put, put, release, release];
    var a1 := Perform(start, put);
    var a2 := Perform(a1, put);
    var a3 := Perform(a2, release);
    var a4 := Perform(a3, release);
    assert twice[1..] == [put, release, release] && twice[1..][1..] == [release, release];
    assert [release, release][1..] == [release] && [release][1..] == [];
    assert PerformAll(a3, [release]) == PerformAll(a4, []) == a4;
    assert PerformAll(a2, [release, release]) == a4;
    assert PerformAll(a1, [put, release, release]) == a4 by {
      assert [put, release, release][1..] == [release, release];
    }
    assert ProperRun(a3, [release]) && ProperRun(a2, [release, release]);
    if ProperRun(a4, ops) {
      CounterGoesDown(a4, ops, ptr);
    }
  }

  // ---------------------------------------------------------------- repeated cleanups

  ghost predicate Cleaned(before: map<int, BigDataEntry>, after: map<int, BigDataEntry>) {
    exists removed :: Removes(before, after, Unreferenced(before), removed)
  }

  /** Successive states of a pool that nothing but cleanups touches. */
  ghost predicate CleanedInTurn(pools: seq<map<int, BigDataEntry>>) {
    forall i :: 0 < i < |pools| ==> Cleaned(pools[i - 1], pools[i])
  }

  lemma CleansSome(before: map<int, BigDataEntry>, after: map<int, BigDataEntry>)
    requires Cleaned(before, after)
    ensures var n := |Unreferenced(before)|;
            |Unreferenced(after)| == if n <= 201 then 0 else n - 201
    ensures after.Keys <= before.Keys && forall ptr :: ptr in after ==> after[ptr] == before[ptr]
    ensures forall ptr :: ptr in before && before[ptr].ref != 0 ==> ptr in after
  {
    var victims := Unreferenced(before);
    var removed :| Removes(before, after, victims, removed);
    assert Unreferenced(after) == victims - removed;
    assert victims == removed + (victims - removed);
  }

  /** k cleanups in a row remove 201 unreferenced entries each until none is left, and keep
      every entry that is still referenced. */
  lemma {:induction false} CleanupsRemoveAll(pools: seq<map<int, BigDataEntry>>)
    requires |pools| > 0 && CleanedInTurn(pools)
    ensures var n, cleaned := |Unreferenced(pools[0])|, (|pools| - 1) * 201;
            |Unreferenced(pools[|pools| - 1])| == if n <= cleaned then 0 else n - cleaned
    ensures forall ptr :: ptr in pools[0] && pools[0][ptr].ref != 0 ==>
              ptr in pools[|pools| - 1] && pools[|pools| - 1][ptr] == pools[0][ptr]
    decreases |pools|
  {
    if |pools| > 1 {
      var last := |pools| - 1;
      CleanupsRemoveAll(pools[..last]);
      CleansSome(pools[last - 1], pools[last]);
    }
  }

  // ---------------------------------------------------------------- medium payloads

  /** The entries older than a minute. IsValid accepts entries for another minute. */
  ghost function Expired(cache: map<int, int>, now: int): (victims: set<int>)
    ensures victims <= cache.Keys
  {
    set ptr | ptr in cache && now - cache[ptr] > MINUTE
  }

  datatype MediumOperation =
    | Insert(ptr: int, t: int)
    | Drop(ptr: int)
    | Sweep(removed: set<int>, start: int, end: int)

  /** A cleanup goes through the entries between the two clock readings: whatever was expired at
      the start goes, unless 201 entries have gone already; nothing goes that is not expired at
      the end. */
  ghost predicate MayPerform(cache: map<int, int>, op: MediumOperation) {
    match op
    case Sweep(removed, start, end) =>
      && start <= end && removed <= Expired(cache, end) && |removed| <= MAX_CLEAN_COUNTS + 1
      && (|removed| <= MAX_CLEAN_COUNTS ==> Expired(cache, start) <= removed)
    case _ => true
  }

  ghost function PerformMedium(cache: map<int, int>, op: MediumOperation): map<int, int> {
    match op
    case Insert(ptr, t) => cache[ptr := t]
    case Drop(ptr) => cache - {ptr}
    case Sweep(removed, _, _) => cache - removed
  }

  predicate ValidAt(cache: map<int, int>, ptr: int, now: int) {
    ptr in cache && now - cache[ptr] < MEDIUM_POOL_TTL
  }

  class MediumPool {
    var cache: map<int, int>

    constructor ()
      ensures cache == map[]
    {
      cache := map[];
    }

    method Put(ptr: int, t: int)
      modifies this
      ensures cache == PerformMedium(old(cache), Insert(ptr, t)) == old(cache)[ptr := t]
    {
      cache := cache[ptr := t];
    }

    method IsValid(ptr: int, now: int) returns (valid: bool)
      ensures valid == ValidAt(cache, ptr, now)
      ensures valid <==> ptr in cache && now - cache[ptr] < 120_000_000_000
    {
      if ptr !in cache {
        return false;
      }
      var t := cache[ptr];
      valid := now - t < MEDIUM_POOL_TTL;
    }

    method Release(ptr: int)
      modifies this
      ensures cache == PerformMedium(old(cache), Drop(ptr)) == old(cache) - {ptr}
    {
      cache := cache - {ptr};
    }

    /** Each entry is compared with a clock reading of its own, taken between `start` and `end`. */
    method Cleanup(start: int, end: int) returns (ghost removed: set<int>)
      requires start <= end
      modifies this
      ensures MayPerform(old(cache), Sweep(removed, start, end))
      ensures cache == PerformMedium(old(cache), Sweep(removed, start, end)) == old(cache) - removed
      ensures forall ptr :: ptr in removed ==> ptr in old(cache) && end - old(cache)[ptr] > 60_000_000_000
      ensures |removed| <= 201
      ensures |removed| <= 200 ==> forall ptr :: ptr in cache ==> start - cache[ptr] <= 60_000_000_000
    {
      removed := {};
      if |cache| == 0 {
        EmptyIff(cache.Keys);
        return;
      }
      var count := 0;
      var todo := cache.Keys;
      while |todo| > 0
        invariant todo <= old(cache).Keys && removed !! todo && cache == old(cache) - removed
        invariant removed <= Expired(old(cache), end) && Expired(old(cache), start) <= todo + removed
        invariant count == |removed| <= MAX_CLEAN_COUNTS
        decreases |todo|
      {
        EmptyIff(todo);
        var ptr :| ptr in todo;
        var now :| start <= now <= end;
        todo := todo - {ptr};
        if now - cache[ptr] > MINUTE {
          cache := cache - {ptr};
          removed := removed + {ptr};
          count := count + 1;
          if count > MAX_CLEAN_COUNTS {
            return;
          }
        }
      }
    }
  }

  ghost predicate MediumRun(cache: map<int, int>, ops: seq<MediumOperation>)
    decreases |ops|
  {
    ops == [] || (MayPerform(cache, ops[0]) && MediumRun(PerformMedium(cache, ops[0]), ops[1..]))
  }

  ghost function PerformMediumAll(cache: map<int, int>, ops: seq<MediumOperation>): map<int, int>
    decreases |ops|
  {
    if ops == [] then cache else PerformMediumAll(PerformMedium(cache, ops[0]), ops[1..])
  }

  /** No operation of the run touches the entry except, possibly, a sweep. */
  ghost predicate LeftAlone(ptr: int, ops: seq<MediumOperation>) {
    forall i :: 0 <= i < |ops| ==> (ops[i].Insert? || ops[i].Drop? ==> ops[i].ptr != ptr)
  }

  /** The clock readings at which the cleanups of the run end, in order. */
  ghost function Ends(ops: seq<MediumOperation>): seq<int> {
    if ops == [] then []
    else (match ops[0] case Sweep(_, _, end) => [end] case _ => []) + Ends(ops[1..])
  }

  /** From now on, and as long as no cleanup has ended after its time, a payload put at `t` is
      valid at exactly the readings of the clock within two minutes. */
  ghost predicate ValidForTtl(cache: map<int, int>, ops: seq<MediumOperation>, ptr: int, t: int)
    decreases |ops|
  {
    && (forall now :: ValidAt(cache, ptr, now) <==> now - t < 120_000_000_000)
    && (ops == []
        || (ops[0].Sweep? && ops[0].end - t >= MEDIUM_POOL_TTL)
        || ValidForTtl(PerformMedium(cache, ops[0]), ops[1..], ptr, t))
  }

  /** A run that follows the put of a payload, leaves it alone and has these cleanups. */
  ghost predicate AfterPut(cache: map<int, int>, ops: seq<MediumOperation>, ptr: int, t: int, ends: seq<int>) {
    && ptr in cache && cache[ptr] == t && MediumRun(cache, ops) && LeftAlone(ptr, ops)
    && Ends(ops) == ends
  }

  /** The cleanup may remove a payload put at `t` while it still counts as valid. */
  predicate TooEarly(end: int, t: int) {
    60_000_000_000 < end - t < 120_000_000_000
  }

  lemma {:induction false} KeptUnlessTooEarly(cache: map<int, int>, ops: seq<MediumOperation>, ptr: int, t: int)
    requires AfterPut(cache, ops, ptr, t, Ends(ops))
    requires forall i :: 0 <= i < |Ends(ops)| ==> !TooEarly(Ends(ops)[i], t)
    ensures ValidForTtl(cache, ops, ptr, t)
    decreases |ops|
  {
    if ops != [] && !(ops[0].Sweep? && ops[0].end - t >= MEDIUM_POOL_TTL) {
      var next, rest := PerformMedium(cache, ops[0]), ops[1..];
      assert LeftAlone(ptr, rest) by {
        assert forall i :: 0 <= i < |rest| ==> rest[i] == ops[i + 1];
      }
      if ops[0].Sweep? {
        assert Ends(ops) == [ops[0].end] + Ends(rest);
        assert !TooEarly(Ends(ops)[0], t);
        assert forall i :: 0 <= i < |Ends(rest)| ==> Ends(rest)[i] == Ends(ops)[i + 1];
      } else {
        assert Ends(ops) == Ends(rest);
      }
      KeptUnlessTooEarly(next, rest, ptr, t);
    }
  }

  /** The cleanups, each in no time, that end at the given readings, of a pool with one payload. */
  ghost function Sweeps(ptr: int, t: int, known: bool, ends: seq<int>): seq<MediumOperation> {
    if ends == [] then []
    else
      var goes := known && ends[0] - t > MINUTE;
      [Sweep(if goes then {ptr} else {}, ends[0], ends[0])] + Sweeps(ptr, t, known && !goes, ends[1..])
  }

  lemma {:induction false} SweepsRun(ptr: int, t: int, known: bool, ends: seq<int>)
    ensures var cache, ops := if known then map[ptr := t] else map[], Sweeps(ptr, t, known, ends);
            MediumRun(cache, ops) && LeftAlone(ptr, ops) && Ends(ops) == ends
    decreases |ends|
  {
    if ends != [] {
      var cache, ops := if known then map[ptr := t] else map[], Sweeps(ptr, t, known, ends);
      var goes := known && ends[0] - t > MINUTE;
      SweepsRun(ptr, t, known && !goes, ends[1..]);
      assert ops[1..] == Sweeps(ptr, t, known && !goes, ends[1..]);
      assert Expired(cache, ends[0]) == if goes then {ptr} else {};
      assert PerformMedium(cache, ops[0]) == if known && !goes then map[ptr := t] else map[];
    }
  }

  lemma {:induction false} SweptTooEarly(ptr: int, t: int, ends: seq<int>, k: nat)
    requires k < |ends| && TooEarly(ends[k], t)
    requires forall i :: 0 <= i < k ==> ends[i] - t < MEDIUM_POOL_TTL
    ensures !ValidForTtl(map[ptr := t], Sweeps(ptr, t, true, ends), ptr, t)
    decreases k
  {
    var ops := Sweeps(ptr, t, true, ends);
    var goes := ends[0] - t > MINUTE;
    assert ops[1..] == Sweeps(ptr, t, !goes, ends[1..]);
    if goes {
      assert PerformMedium(map[ptr := t], ops[0]) == map[];
      assert !ValidAt(map[], ptr, t);
    } else {
      assert PerformMedium(map[ptr := t], ops[0]) == map[ptr := t];
      SweptTooEarly(ptr, t, ends[1..], k - 1);
    }
  }

  ghost predicate Ascending(ends: seq<int>) {
    forall i, j :: 0 <= i < j < |ends| ==> ends[i] <= ends[j]
  }

  /** A payload that is left alone counts as valid for its two minutes, in every run with the
      given cleanups, exactly when none of them ends more than one and less than two minutes after
      it was put. */
  lemma ValidForTtlIff(ptr: int, t: int, ends: seq<int>)
    requires Ascending(ends)
    ensures (forall cache, ops :: AfterPut(cache, ops, ptr, t, ends) ==> ValidForTtl(cache, ops, ptr, t))
            <==> forall i :: 0 <= i < |ends| ==> !TooEarly(ends[i], t)
  {
    if k :| 0 <= k < |ends| && TooEarly(ends[k], t) {
      SweepsRun(ptr, t, true, ends);
      SweptTooEarly(ptr, t, ends, k);
      assert AfterPut(map[ptr := t], Sweeps(ptr, t, true, ends), ptr, t, ends);
    } else {
      forall cache, ops | AfterPut(cache, ops, ptr, t, ends) ensures ValidForTtl(cache, ops, ptr, t) {
        KeptUnlessTooEarly(cache, ops, ptr, t);
      }
    }
  }
}
