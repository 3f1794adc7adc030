/** The ring itself: an array written in place through wrapping 32-bit counters. Every method
    here runs alone, so each compare-and-swap of the source succeeds at its first attempt;
    RingThreads takes the same code apart into its atomic steps. */
module SmartBuffers {
  import opened Ring

  class SmartBuffer {
    const buf: array<BufferItem>
    const capacity: int
    var head: int
    var tail: int
    var count: int
    var state: int
    /** Completed pushes and pops since the last Reset, without wrap-around. */
    ghost var pushed: nat
    ghost var popped: nat

    ghost predicate Valid()
      reads this
    {
      && 0 <= capacity <= MAX_INT32 && buf.Length == capacity
      && popped <= pushed <= popped + capacity && count == pushed - popped
      && head == Int32(pushed - 1) && tail == Int32(popped - 1)
      && SlotsDistinct(popped, pushed, capacity)
    }

    /** The unread items, oldest first. */
    ghost function Contents(): (items: seq<BufferItem>)
      requires Valid()
      reads this, buf
      ensures |items| == count
    {
      Unread(buf[..], popped, count)
    }

    ghost function Value(): RingValue
      requires Valid()
      reads this, buf
    {
      RingValue(Contents(), state, head, tail)
    }

    constructor (capacity: int)
      requires 0 <= capacity <= MAX_INT32
      ensures Valid() && Value() == PRISTINE && this.capacity == capacity
      ensures fresh(buf) && pushed == popped == 0
    {
      buf := new BufferItem[capacity](_ => NIL_ITEM);
      this.capacity := capacity;
      head, tail, count, state := -1, -1, 0, WRITE_ONLY;
      pushed, popped := 0, 0;
    }

    method SetState(state: int)
      requires Valid()
      modifies `state
      ensures Valid() && Value() == old(Value()).(state := state)
    {
      this.state := state;
    }

    function GetState(): int
      reads `state
    {
      state
    }

    function Len(): int
      reads `count
    {
      count
    }

    /** Holds unless the push would land on a slot whose item has not been read, which only
        the wrap-around of the counters can bring about (Ring.RingSoundForeverIffCapacityDividesWord). */
    ghost predicate SlotReady()
      reads this
    {
      count < capacity ==> NextSlotFree(popped, pushed, capacity)
    }

    method Write(item: BufferItem) returns (res: PushResult)
      requires Valid()
      modifies this, buf
      ensures old(SlotReady()) ==> Valid() && (Value(), res) == WriteValue(old(Value()), capacity, item)
      ensures old(state) == 2 ==> res == RejectedClosed && unchanged(this) && unchanged(buf)
      ensures old(state) == 1 ==> res == RejectedReadOnly && unchanged(this) && unchanged(buf)
      ensures popped == old(popped) && pushed == old(pushed) + if res == Accepted then 1 else 0
    {
      hide SlotsDistinct, NextSlotFree, Unread, Int32, PushValue;
      if state == CLOSED_STATE {
        return RejectedClosed;
      }
      res := Push(item);
    }

    method Push(item: BufferItem) returns (res: PushResult)
      requires Valid()
      modifies this, buf
      ensures old(SlotReady()) ==> Valid() && (Value(), res) == PushValue(old(Value()), capacity, item)
      ensures old(state) == 1 ==> res == RejectedReadOnly && unchanged(this) && unchanged(buf)
      ensures popped == old(popped) && pushed == old(pushed) + if res == Accepted then 1 else 0
    {
      if state == READ_ONLY {
        return RejectedReadOnly;
      }
      if count >= capacity {
        if state == WRITE_ONLY {
          state := READ_ONLY;
        }
        assert Contents() == old(Contents());
        return RejectedReadOnly;
      }
      Claim(item);
      res := Accepted;
    }

    /** The part of Push that follows a successful compare-and-swap of `head`. */
    method Claim(item: BufferItem)
      requires Valid() && count < capacity
      modifies this, buf
      ensures old(SlotReady()) ==>
        Valid() && Value() == old(Value()).(items := old(Contents()) + [item], head := Int32(old(head) + 1))
      ensures popped == old(popped) && pushed == old(pushed) + 1
    {
      hide SlotsDistinct, NextSlotFree;
      var pos := CalcPos(head, capacity);
      assert pos == Slot(pushed, capacity);
      hide CalcPos, Slot;
      buf[pos] := item;
      if old(SlotReady()) {
        UnreadPushed(old(buf[..]), popped, count, item);
        assert buf[..] == old(buf[..])[pos := item];
      }
      Int32Sum(pushed - 1, 1);
      head := Int32(head + 1);
      count := count + 1;
      pushed := pushed + 1;
    }

    method Reset()
      requires Valid()
      modifies this
      ensures Valid() && Value() == PRISTINE && pushed == popped == 0
      ensures buf[..] == old(buf[..])
    {
      state := WRITE_ONLY;
      count := 0;
      head, tail := -1, -1;
      pushed, popped := 0, 0;
    }

    method Pop() returns (item: BufferItem)
      requires Valid()
      modifies this, buf
      ensures Valid() && (Value(), item) == PopValue(old(Value()))
      ensures pushed == old(pushed) && popped == old(popped) + if old(count) == 0 then 0 else 1
    {
      if count == 0 {
        return NIL_ITEM;
      }
      item := Vacate();
    }

    /** The part of Pop that follows a successful compare-and-swap of `tail`. */
    method Vacate() returns (item: BufferItem)
      requires Valid() && count > 0
      modifies this, buf
      ensures Valid() && item == old(Contents())[0]
      ensures Value() == old(Value()).(items := old(Contents())[1..], tail := Int32(old(tail) + 1))
      ensures pushed == old(pushed) && popped == old(popped) + 1
    {
      var pos := CalcPos(tail, capacity);
      assert pos == Slot(popped, capacity);
      item := buf[pos];
      buf[pos] := NIL_ITEM;
      UnreadPopped(old(buf[..]), popped, count, NIL_ITEM);
      assert buf[..] == old(buf[..])[pos := NIL_ITEM];
      Int32Sum(popped - 1, 1);
      tail := Int32(tail + 1);
      count := count - 1;
      popped := popped + 1;
    }
  }
}
