/** The same memory on arrays: each method is proved to make the step that Payloads gives for it. */
module PayloadStores {
  import opened Payloads
  import PayloadReads

  lemma NothingCopied<B>(m: Memory<B>, p: Slice<B>, got: B, bigger: B)
    requires p.len == 0
    ensures CopySmall(m, p, got, bigger) == Grab(m, got, bigger, 0)
  {
    var m1, b := Grab(m, got, bigger, 0), Grabbed(m, got, bigger, 0);
    if b in m1.heap {
      assert Bytes(m, p) + m1.heap[b][0..] == m1.heap[b];
    }
  }

  class DataChunk {
    const data: Slice<array<Byte>>
    var free: Free<array<Byte>>

    constructor (data: Slice<array<Byte>>, free: Free<array<Byte>>)
      ensures this.data == data && this.free == free
    {
      this.data, this.free := data, free;
    }

    function Content(): seq<Byte>
      requires data.len <= data.buf.Length
      reads data.buf
    {
      data.buf[..data.len]
    }
  }

  ghost function ChunksOf(cs: seq<DataChunk>): (chunks: seq<Chunk<array<Byte>>>)
    reads cs
    ensures |chunks| == |cs| && forall i :: 0 <= i < |cs| ==> chunks[i] == Chunk(cs[i].data, cs[i].free)
  {
    if cs == [] then [] else ChunksOf(cs[..|cs| - 1]) + [Chunk(cs[|cs| - 1].data, cs[|cs| - 1].free)]
  }

  class PayloadStore {
    var smallPool: set<array<Byte>>
    var queue: seq<Slice<array<Byte>>>
    /** All byte buffers there are, those of the callers, the chunks handed out, the payloads written. */
    ghost var arrays: set<array<Byte>>
    ghost var theirs: set<array<Byte>>
    ghost var handed: seq<DataChunk>
    ghost var accepted: seq<seq<Byte>>

    ghost function Heap(): map<array<Byte>, seq<Byte>>
      reads `arrays, arrays
    {
      map a | a in arrays :: a[..]
    }

    ghost function Snapshot(): Memory<array<Byte>>
      reads this, arrays, handed
    {
      Memory(Heap(), smallPool, queue, ChunksOf(handed), theirs, accepted)
    }

    ghost predicate Valid()
      reads this, arrays, handed
    {
      Inv(Snapshot()) && forall i, j :: 0 <= i < j < |handed| ==> handed[i] != handed[j]
    }

    /** What a slice reads, on the arrays. */
    lemma BytesHere(s: Slice<array<Byte>>)
      requires s.buf in arrays && s.len <= s.buf.Length
      ensures Bytes(Snapshot(), s) == s.buf[..s.len]
    {
    }

    constructor ()
      ensures Valid() && Snapshot() == Initial()
    {
      smallPool, queue, arrays, theirs, handed, accepted := {}, [], {}, {}, [], [];
    }

    /** A caller's array that has not been seen before. */
    ghost method Lend(a: array<Byte>)
      requires Valid() && a !in arrays
      modifies `arrays, `theirs
      ensures Valid() && Snapshot() == Next(old(Snapshot()), CallerMakes(a, a[..]))
    {
      StepInv(Snapshot(), CallerMakes(a, a[..]));
      arrays, theirs := arrays + {a}, theirs + {a};
      assert Heap() == old(Heap())[a := a[..]];
    }

    /** A caller stores into memory of its own. */
    method CallerStore(a: array<Byte>, i: nat, x: Byte)
      requires Valid() && a in theirs && a in arrays && i < a.Length
      modifies a
      ensures Valid() && Snapshot() == Next(old(Snapshot()), CallerStores(a, i, x))
    {
      StepInv(Snapshot(), CallerStores(a, i, x));
      a[i] := x;
      assert a[..] == old(a[..])[..i] + [x] + old(a[..])[i + 1..];
      assert Heap() == old(Heap())[a := a[..]];
    }

    /** Only one buffer changes. */
    twostate lemma OneChanged(buf: array<Byte>)
      requires buf in arrays && arrays == old(arrays) && forall a :: a in arrays && a != buf ==> unchanged(a)
      ensures Heap() == old(Heap())[buf := buf[..]]
    {
      forall a | a in arrays && a != buf ensures a[..] == old(a[..]) {}
    }

    /** A new buffer joins. */
    twostate lemma OneAdded(new buf: array<Byte>)
      requires arrays == old(arrays) + {buf} && forall a :: a in old(arrays) ==> unchanged(a)
      requires buf !in old(arrays)
      ensures Heap() == old(Heap())[buf := buf[..]]
    {
      forall a | a in old(arrays) ensures a[..] == old(a[..]) {}
    }

    /** A new small buffer full of zeros. */
    method NewBuffer(size: nat) returns (buf: array<Byte>)
      modifies `arrays
      ensures fresh(buf) && buf.Length == size && arrays == old(arrays) + {buf}
      ensures Heap() == old(Heap())[buf := Zeros(size)]
    {
      buf := new Byte[size](_ => 0);
      arrays := arrays + {buf};
      assert buf[..] == Zeros(size);
      OneAdded(buf);
    }

    /** `SmallPool.Get()`: some pooled buffer or a new one. */
    method PoolGet() returns (buf: array<Byte>)
      requires smallPool <= arrays
      modifies `smallPool, `arrays
      ensures (buf in old(smallPool) && arrays == old(arrays)) || (fresh(buf) && arrays == old(arrays) + {buf})
      ensures smallPool == old(smallPool) - {buf} && buf.Length == Capacity(old(Snapshot()), buf)
      ensures fresh(buf) ==> buf.Length == 512
      ensures Heap() == if buf in old(arrays) then old(Heap()) else old(Heap())[buf := Zeros(INITIAL_BUF_SIZE)]
    {
      var reuse: bool := *;
      if c :| reuse && c in smallPool {
        buf := c;
        smallPool := smallPool - {c};
      } else {
        buf := NewBuffer(INITIAL_BUF_SIZE);
      }
    }

    /** A pooled buffer, replaced by a new one if its capacity is too small. */
    method GetSmall(size: nat) returns (buf: array<Byte>, ghost got: array<Byte>, ghost bigger: array<Byte>)
      requires smallPool <= arrays
      modifies `smallPool, `arrays
      ensures CanGrab(old(Snapshot()), got, bigger, size) && buf == Grabbed(old(Snapshot()), got, bigger, size)
      ensures Snapshot() == Grab(old(Snapshot()), got, bigger, size) && buf.Length >= size && buf in arrays
      ensures old(arrays) <= arrays && (fresh(buf) || buf in old(smallPool))
    {
      buf := PoolGet();
      got, bigger := buf, buf;
      if buf.Length < size {
        buf := NewBuffer(size);
        bigger := buf;
      }
    }

    method Copy(buf: array<Byte>, src: Slice<array<Byte>>)
      requires buf in arrays && src.len <= src.buf.Length && src.len <= buf.Length
      modifies buf
      ensures Snapshot() == Fill(old(Snapshot()), buf, old(src.buf[..src.len]))
    {
      forall i | 0 <= i < src.len {
        buf[i] := src.buf[i];
      }
      assert buf[..] == old(src.buf[..src.len]) + old(buf[..])[src.len..];
      OneChanged(buf);
    }

    /** A copy of the slice in a buffer from the pool. */
    method CopyOf(src: Slice<array<Byte>>) returns (buf: array<Byte>, ghost got: array<Byte>, ghost bigger: array<Byte>)
      requires smallPool <= arrays && src.buf in arrays && src.len <= src.buf.Length
      modifies `smallPool, `arrays, smallPool
      ensures CanGrab(old(Snapshot()), got, bigger, src.len) && buf == Grabbed(old(Snapshot()), got, bigger, src.len)
      ensures Snapshot() == CopySmall(old(Snapshot()), src, got, bigger)
    {
      buf, got, bigger := GetSmall(src.len);
      ghost var bytes := src.buf[..src.len];
      Copy(buf, src);
    }

    method Write(p: Slice<array<Byte>>) returns (ok: bool, ghost got: array<Byte>, ghost bigger: array<Byte>)
      requires Valid() && p.buf in arrays && p.len <= p.buf.Length
      modifies this, smallPool
      ensures Enabled(old(Snapshot()), Event.Write(p, got, bigger)) && ok == (p.len > 0)
      ensures Valid() && Snapshot() == Next(old(Snapshot()), Event.Write(p, got, bigger))
      ensures accepted == if ok then old(accepted) + [old(p.buf[..p.len])] else old(accepted)
      ensures ok && p.len >= 1024 ==> queue == old(queue) + [p]
      ensures !ok ==> queue == old(queue)
    {
      hide Inv, CopySmall, Grab;
      KnownBuffers();
      ghost var m, bytes := Snapshot(), p.buf[..p.len];
      var item := p;
      got, bigger := p.buf, p.buf;
      if Small(p.len) {
        var buf;
        buf, got, bigger := CopyOf(p);
        item := Slice(buf, p.len);
      }
      StepInv(m, Event.Write(p, got, bigger));
      ok := p.len > 0;
      if ok {
        Enqueue(item, bytes);
      } else {
        NothingCopied(m, p, got, bigger);
      }
    }

    method Enqueue(item: Slice<array<Byte>>, ghost bytes: seq<Byte>)
      modifies `queue, `accepted
      ensures var m := old(Snapshot()); Snapshot() == m.(queue := m.queue + [item], accepted := m.accepted + [bytes])
    {
      queue := queue + [item];
      accepted := accepted + [bytes];
    }

    lemma KnownBuffers()
      requires Valid()
      ensures smallPool <= arrays && theirs <= arrays
      ensures forall i :: 0 <= i < |queue| ==> queue[i].buf in arrays && queue[i].len <= queue[i].buf.Length
    {
      forall i | 0 <= i < |queue| ensures queue[i].buf in arrays && queue[i].len <= queue[i].buf.Length {
        assert Fits(Snapshot(), |handed| + i);
      }
    }
  
    /** The chunk made of the oldest payload goes to the reader. */
    method HandOver(chunk: DataChunk)
      requires queue != [] && chunk !in handed
      modifies `queue, `handed
      ensures Snapshot() == HandOut(old(Snapshot()), Chunk(chunk.data, chunk.free))
      ensures handed == old(handed) + [chunk]
    {
      queue := queue[1..];
      handed := handed + [chunk];
      assert ChunksOf(handed) == old(ChunksOf(handed)) + [Chunk(chunk.data, chunk.free)];
    }

    /** A copy of the slice in a new buffer of the right size. */
    method NewCopy(src: Slice<array<Byte>>) returns (buf: array<Byte>)
      requires src.buf in arrays && src.len <= src.buf.Length
      modifies `arrays
      ensures fresh(buf) && buf.Length == src.len
      ensures var m := old(Snapshot()); Snapshot() == m.(heap := m.heap[buf := Bytes(m, src)])
    {
      buf := NewBuffer(src.len);
      ghost var bytes := src.buf[..src.len];
      Copy(buf, src);
      assert bytes + Zeros(src.len)[src.len..] == bytes;
    }

    /** The oldest payload, handed out as a copy in a buffer from the pool. */
    method ReadCopy() returns (chunk: DataChunk, ghost got: array<Byte>, ghost bigger: array<Byte>)
      requires queue != [] && smallPool <= arrays && queue[0].buf in arrays && queue[0].len <= queue[0].buf.Length
      modifies `smallPool, `arrays, `queue, `handed, smallPool
      ensures fresh(chunk) && handed == old(handed) + [chunk]
      ensures var m, item := old(Snapshot()), old(queue[0]);
              var b := Grabbed(m, got, bigger, item.len);
              && CanGrab(m, got, bigger, item.len)
              && Snapshot() == HandOut(CopySmall(m, item, got, bigger), Chunk(Slice(b, item.len), PutBack(b)))
    {
      hide CopySmall;
      var buf;
      buf, got, bigger := CopyOf(queue[0]);
      chunk := new DataChunk(Slice(buf, queue[0].len), PutBack(buf));
      HandOver(chunk);
    }

    /** The oldest payload, handed out where it lies. */
    method ReadInPlace() returns (chunk: DataChunk)
      requires queue != []
      modifies `queue, `handed
      ensures fresh(chunk) && handed == old(handed) + [chunk]
      ensures Snapshot() == HandOut(old(Snapshot()), Chunk(old(queue)[0], Untrack))
    {
      chunk := new DataChunk(queue[0], Untrack);
      HandOver(chunk);
    }

    /** The oldest payload, handed out as a copy in a new buffer. */
    method ReadNew() returns (chunk: DataChunk)
      requires queue != [] && queue[0].buf in arrays && queue[0].len <= queue[0].buf.Length
      modifies `arrays, `queue, `handed
      ensures fresh(chunk) && handed == old(handed) + [chunk] && fresh(chunk.data.buf)
      ensures var m, item, b := old(Snapshot()), old(queue[0]), chunk.data.buf;
              Snapshot() == HandOut(m.(heap := m.heap[b := Bytes(m, item)]), Chunk(Slice(b, item.len), Untrack))
    {
      hide Bytes;
      var data := NewCopy(queue[0]);
      chunk := new DataChunk(Slice(data, queue[0].len), Untrack);
      HandOver(chunk);
    }

    /** The three size classes of the copying read. */
    method ReadBySize(mediumValid: bool) returns (chunk: DataChunk, ghost got: array<Byte>, ghost bigger: array<Byte>)
      requires Valid() && queue != []
      modifies this, smallPool
      ensures Valid() && fresh(chunk) && handed == old(handed) + [chunk]
      ensures Enabled(old(Snapshot()), Event.SafeRead(mediumValid, got, bigger))
      ensures Snapshot() == Next(old(Snapshot()), Event.SafeRead(mediumValid, got, bigger))
    {
      hide Inv, CopySmall, Bytes;
      KnownBuffers();
      ghost var m := Snapshot();
      var len := queue[0].len;
      if Small(len) {
        chunk, got, bigger := ReadCopy();
      } else if len > LARGE_DATA_THRESHOLD || mediumValid {
        got, bigger := queue[0].buf, queue[0].buf;
        chunk := ReadInPlace();
      } else {
        chunk := ReadNew();
        got, bigger := chunk.data.buf, chunk.data.buf;
      }
      StepInv(m, Event.SafeRead(mediumValid, got, bigger));
    }

    /** The copying read. The chunk of a small payload has a buffer of its own, which goes back to
        the pool on release; the one it was queued in is left to the garbage collector. */
    method SafeRead(mediumValid: bool) returns (chunk: DataChunk?, ghost got: array?<Byte>, ghost bigger: array?<Byte>)
      requires Valid()
      modifies this, smallPool
      ensures Valid() && (chunk == null <==> old(queue) == [])
      ensures chunk == null ==> unchanged(this)
      ensures chunk != null ==>
        && got != null && bigger != null && fresh(chunk) && handed == old(handed) + [chunk]
        && Enabled(old(Snapshot()), Event.SafeRead(mediumValid, got, bigger))
        && Snapshot() == Next(old(Snapshot()), Event.SafeRead(mediumValid, got, bigger))
        && queue == old(queue)[1..] && HoldsBytes(chunk, old(queue[0].buf[..]), old(queue[0].len))
    {
      if queue == [] {
        return null, null, null;
      }
      hide Inv, Bytes;
      KnownBuffers();
      ghost var m := Snapshot();
      chunk, got, bigger := ReadBySize(mediumValid);
      PayloadReads.ReadDelivers(m, Event.SafeRead(mediumValid, got, bigger));
      DeliversHere(m, Event.SafeRead(mediumValid, got, bigger), chunk);
    }

    /** The chunk reads as the first `len` of these bytes. */
    ghost predicate HoldsBytes(chunk: DataChunk, bytes: seq<Byte>, len: nat)
      reads chunk.data.buf
    {
      && chunk.data.len == len <= chunk.data.buf.Length && len <= |bytes|
      && chunk.data.buf[..len] == bytes[..len]
    }

    lemma DeliversHere(m: Memory<array<Byte>>, e: Event<array<Byte>>, chunk: DataChunk)
      requires Valid() && Inv(m) && Enabled(m, e) && (e.SafeRead? || e.ZeroCopyRead?) && Snapshot() == Next(m, e)
      requires |handed| == |m.handed| + 1 && handed[|m.handed|] == chunk
      requires m.queue[0].buf in m.heap && m.queue[0].len <= |m.heap[m.queue[0].buf]|
      ensures HoldsBytes(chunk, m.heap[m.queue[0].buf], m.queue[0].len)
    {
      PayloadReads.ReadDelivers(m, e);
      assert Fits(Snapshot(), |m.handed|);
      BytesHere(chunk.data);
    }

    /** The read without a copy: the chunk is the queued buffer itself. */
    method ZeroCopyRead() returns (chunk: DataChunk?)
      requires Valid()
      modifies this
      ensures Valid() && (chunk == null <==> old(queue) == [])
      ensures chunk == null ==> unchanged(this)
      ensures chunk != null ==>
        && fresh(chunk) && handed == old(handed) + [chunk] && Snapshot() == Next(old(Snapshot()), Event.ZeroCopyRead)
        && queue == old(queue)[1..] && chunk.data == old(queue)[0]
    {
      if queue == [] {
        return null;
      }
      hide Inv;
      StepInv(Snapshot(), Event.ZeroCopyRead);
      chunk := ReadInPlace();
    }

    /** Only the k-th chunk changes. */
    twostate lemma OneReleased(c: DataChunk, new k: nat)
      requires handed == old(handed) && k < |handed| && handed[k] == c && c.free == Nothing
      requires forall i :: 0 <= i < |handed| && i != k ==> unchanged(handed[i])
      ensures ChunksOf(handed) == old(ChunksOf(handed))[k := Chunk(c.data, Nothing)]
    {
    }

    /** Gives the k-th chunk back; a second release of the same chunk does nothing. */
    method Release(c: DataChunk, ghost k: nat)
      requires Valid() && k < |handed| && handed[k] == c
      modifies `smallPool, c`free
      ensures Valid() && Snapshot() == Next(old(Snapshot()), Event.Release(k)) && c.free == Nothing
      ensures old(c.free) == Nothing ==> Snapshot() == old(Snapshot())
      ensures smallPool == old(smallPool) + if old(c.free).PutBack? then {old(c.free).buf} else {}
    {
      hide Inv, ChunksOf;
      StepInv(Snapshot(), Event.Release(k));
      if c.free.PutBack? {
        smallPool := smallPool + {c.free.buf};
      }
      c.free := Nothing;
      OneReleased(c, k);
      HeapKept();
    }

    twostate lemma HeapKept()
      requires arrays == old(arrays) && forall a :: a in arrays ==> unchanged(a)
      ensures Heap() == old(Heap())
    {
      forall a | a in arrays ensures a[..] == old(a[..]) {}
    }

    /** What a reader holds of a small payload is the payload as it was written. */
    lemma ChunkReads(k: nat)
      requires Valid() && k < |handed| && Small(handed[k].data.len) && handed[k].free != Nothing
      ensures handed[k].data.len <= handed[k].data.buf.Length && k < |accepted| && handed[k].Content() == accepted[k]
    {
      assert Fits(Snapshot(), k) && Live(Snapshot(), k);
    }
  }
}
