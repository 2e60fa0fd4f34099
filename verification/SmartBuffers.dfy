/** The ring buffer as an object (component/smart_buffer.go), one call at a time.  Its retry loops
    are kept: undisturbed, every compare-and-swap succeeds at the first attempt.  The `sem`
    channel, which nothing sends on, is not part of this model. */
module SmartBuffers {
  import opened RingIndex
  import opened Rings

  const MAX_RETRY := 3

  class SmartBuffer {
    const buf: array<Item>
    var head: int
    var tail: int
    var count: int
    const capacity: nat
    var state: Status

    ghost function View(): Ring
      reads this, buf
    {
      Ring(buf[..], head, tail, count, state)
    }

    ghost predicate Valid()
      reads this, buf
    {
      buf.Length == capacity < TWO31 && View().Wf()
    }

    constructor (capacity: nat)
      requires capacity < TWO31
      ensures Valid() && fresh(buf) && this.capacity == capacity
      ensures View() == NewRing(capacity)
    {
      this.buf := new Item[capacity](_ => NO_ITEM);
      this.head, this.tail, this.count := -1, -1, 0;
      this.capacity := capacity;
      this.state := WriteOnly;
    }

    method SetState(state: Status)
      modifies this`state
      ensures View() == old(View()).(state := state)
    {
      this.state := state;
    }

    method Len() returns (n: int)
      ensures n == View().count
    {
      n := count;
    }

    method CompareAndSwapHead(before: int, after: int) returns (ok: bool)
      modifies this`head
      ensures ok <==> old(head) == before
      ensures head == if ok then after else old(head)
    {
      ok := head == before;
      if ok { head := after; }
    }

    method CompareAndSwapTail(before: int, after: int) returns (ok: bool)
      modifies this`tail
      ensures ok <==> old(tail) == before
      ensures tail == if ok then after else old(tail)
    {
      ok := tail == before;
      if ok { tail := after; }
    }

    method Write(item: Item) returns (ok: bool)
      requires Valid()
      modifies this, buf
      ensures Valid()
      ensures (View(), ok) == old(View().Write(item))
    {
      if state == ClosedState {
        return false;
      }
      ok := Push(item);
    }

    method Push(item: Item) returns (ok: bool)
      requires Valid()
      modifies this, buf
      ensures Valid()
      ensures (View(), ok) == old(View().Push(item))
    {
      ghost var was := View();
      ok := false;
      while !ok
        invariant Valid()
        invariant if ok then (View(), ok) == was.Push(item) else View() == was
        decreases !ok
      {
        if state == ReadOnly {
          return false;
        }
        var currentCount := count;
        if currentCount >= capacity {
          if state == WriteOnly { state := ReadOnly; }
          return false;
        }
        var h := head;
        ok := CompareAndSwapHead(h, Wrap32(h + 1));
        if ok {
          SlotBounds(h, capacity);
          var pos := CalcPos(h, capacity);
          for i := 0 to MAX_RETRY {
            if buf[pos].ptr == 0 { break; }
          }
          buf[pos] := item;
          count := Wrap32(count + 1);
          assert buf[..] == was.buf[pos := item];
        }
      }
    }

    method Pop() returns (item: Item)
      requires Valid()
      modifies this, buf
      ensures Valid()
      ensures (View(), item) == old(View().Pop())
    {
      ghost var was := View();
      item := NO_ITEM;
      var ok := false;
      while !ok
        invariant Valid()
        invariant if ok then (View(), item) == was.Pop() else View() == was
        decreases !ok
      {
        var currentCount := count;
        if currentCount == 0 {
          return NO_ITEM;
        }
        var t := tail;
        ok := CompareAndSwapTail(t, Wrap32(t + 1));
        if ok {
          SlotBounds(t, capacity);
          var pos := CalcPos(t, capacity);
          item := buf[pos];
          for i := 0 to MAX_RETRY
            invariant item == buf[pos]
          {
            item := buf[pos];
            if item.ptr != 0 { break; }
          }
          buf[pos] := NO_ITEM;
          count := Wrap32(count - 1);
          assert buf[..] == was.buf[pos := NO_ITEM];
        }
      }
    }

    method Reset()
      requires Valid()
      modifies this
      ensures Valid()
      ensures View() == old(View()).Reset()
    {
      state := WriteOnly;
      count := 0;
      head, tail := -1, -1;
    }
  }
}
