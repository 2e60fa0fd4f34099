/** The value of a ring buffer and what one undisturbed Push, Pop or Reset does to it
    (component/smart_buffer.go), with the queue it stands for. */
module Rings {
  import opened RingIndex

  /** The package declaring the status constants is not part of this model; its six constants
      are taken to be different numbers. */
  datatype Status = WriteOnly | ReadOnly | Switching | WritingState | SwitchingState | ClosedState

  /** A message header: data pointer (0 is nil) and length. */
  datatype Item = Item(ptr: nat, size: int)

  const NO_ITEM := Item(0, 0)

  datatype Ring = Ring(buf: seq<Item>, head: int, tail: int, count: int, state: Status) {

    /** A ring without slots holds nothing. */
    predicate Wf() {
      |buf| == 0 ==> count == 0
    }

    function Push(item: Item): (Ring, bool)
      requires Wf()
    {
      if state == ReadOnly then (this, false)
      else if count >= |buf| then
        (if state == WriteOnly then this.(state := ReadOnly) else this, false)
      else
        SlotBounds(head, |buf|);
        (this.(head := Wrap32(head + 1),
               buf := buf[CalcPos(head, |buf|) := item],
               count := Wrap32(count + 1)), true)
    }

    function Write(item: Item): (Ring, bool)
      requires Wf()
    {
      if state == ClosedState then (this, false) else Push(item)
    }

    function Pop(): (Ring, Item)
      requires Wf()
    {
      if count == 0 then (this, NO_ITEM)
      else
        SlotBounds(tail, |buf|);
        var pos := CalcPos(tail, |buf|);
        (this.(tail := Wrap32(tail + 1), buf := buf[pos := NO_ITEM], count := Wrap32(count - 1)),
         buf[pos])
    }

    /** Clears no slot. */
    function Reset(): Ring {
      this.(state := WriteOnly, count := 0, head := -1, tail := -1)
    }
  }

  lemma SlotBounds(index: int, capacity: int)
    requires capacity > 0
    ensures 0 <= CalcPos(index, capacity) < capacity
  {
  }

  function NewRing(capacity: nat): Ring {
    Ring(seq(capacity, _ => NO_ITEM), -1, -1, 0, WriteOnly)
  }

  /** The slots hold exactly the entries of q: claim t + k put the k-th of them where it is. */
  ghost predicate SlotsHold(buf: seq<Item>, t: nat, q: seq<Item>) {
    && |q| <= |buf|
    && (forall j :: t <= j < t + |q| ==>
          0 <= Slot(j, |buf|) < |buf| && buf[Slot(j, |buf|)] == q[j - t])
    && (forall p :: 0 <= p < |buf| && buf[p] != NO_ITEM ==> Claimed(p, |buf|, t, |q|))
  }

  /** Slot p was selected by one of the n claims from t on. */
  ghost predicate Claimed(p: int, capacity: nat, t: nat, n: nat) {
    exists j :: t <= j < t + n && p == Slot(j, capacity)
  }

  /** Ring r, from which t items were taken since construction or Reset, is the queue q. */
  ghost predicate Holds(r: Ring, t: nat, q: seq<Item>) {
    && |r.buf| < TWO31
    && (|r.buf| > 0 ==> IndexSafe(|r.buf|, t + |q|))
    && r.head == Wrap32(t + |q| - 1)
    && r.tail == Wrap32(t - 1)
    && r.count == |q|
    && (forall k :: 0 <= k < |q| ==> q[k].ptr != 0)
    && SlotsHold(r.buf, t, q)
  }

  /** Storing one more entry at the next claim touches no other entry. */
  lemma StoreSlot(buf: seq<Item>, t: nat, q: seq<Item>, item: Item)
    requires SlotsHold(buf, t, q) && |q| < |buf| && IndexSafe(|buf|, t + |q| + 1)
    ensures 0 <= Slot(t + |q|, |buf|) < |buf|
    ensures buf[Slot(t + |q|, |buf|)] == NO_ITEM
    ensures SlotsHold(buf[Slot(t + |q|, |buf|) := item], t, q + [item])
  {
    var c, n := |buf|, |q|;
    var pos := Slot(t + n, c);
    SlotInRange(t + n, c);
    forall j | t <= j < t + n ensures Slot(j, c) != pos {
      SafeSlotsDistinct(c, j, t + n);
    }
    var buf', q' := buf[pos := item], q + [item];
    forall p | 0 <= p < c && buf'[p] != NO_ITEM ensures Claimed(p, c, t, n + 1) {
      if p == pos {
        assert t <= t + n < t + n + 1 && p == Slot(t + n, c);
      } else {
        assert Claimed(p, c, t, n);
      }
    }
  }

  /** Clearing the oldest entry touches no other entry. */
  lemma ClearSlot(buf: seq<Item>, t: nat, q: seq<Item>)
    requires SlotsHold(buf, t, q) && q != [] && IndexSafe(|buf|, t + |q|)
    ensures 0 <= Slot(t, |buf|) < |buf| && buf[Slot(t, |buf|)] == q[0]
    ensures SlotsHold(buf[Slot(t, |buf|) := NO_ITEM], t + 1, q[1..])
  {
    var c, n := |buf|, |q|;
    var pos := Slot(t, c);
    var buf', q' := buf[pos := NO_ITEM], q[1..];
    forall j | t + 1 <= j < t + n
      ensures 0 <= Slot(j, c) < c && buf'[Slot(j, c)] == q'[j - (t + 1)]
    {
      SafeSlotsDistinct(c, t, j);
    }
    forall p | 0 <= p < c && buf'[p] != NO_ITEM ensures Claimed(p, c, t + 1, n - 1) {
      assert Claimed(p, c, t, n);
    }
  }

  // ---------- one operation at a time, a ring is a bounded FIFO queue ----------

  lemma NewHolds(capacity: nat)
    requires capacity < TWO31
    ensures Holds(NewRing(capacity), 0, [])
  {
  }

  /** Push appends its item when the ring is neither sealed nor full, for as long as the next
      claim is safe; otherwise it fails and stores nothing, and on a full writable ring it seals. */
  lemma PushEnqueues(r: Ring, t: nat, q: seq<Item>, item: Item)
    requires r.Wf() && Holds(r, t, q) && item.ptr != 0
    requires |q| < |r.buf| ==> IndexSafe(|r.buf|, t + |q| + 1)
    ensures r.Push(item).1 <==> r.state != ReadOnly && |q| < |r.buf|
    ensures r.Push(item).1 ==> Holds(r.Push(item).0, t, q + [item]) && r.Push(item).0.state == r.state
    ensures !r.Push(item).1 ==>
              Holds(r.Push(item).0, t, q)
              && r.Push(item).0.state == if r.state == WriteOnly then ReadOnly else r.state
  {
    if r.Push(item).1 {
      StoreSlot(r.buf, t, q, item);
      Wrap32Add(t + |q| - 1, 1);
      assert t + |q + [item]| - 1 == t + |q| - 1 + 1;
    }
  }

  /** Write refuses when the ring is closed, without a change, and else pushes. */
  lemma WriteEnqueues(r: Ring, t: nat, q: seq<Item>, item: Item)
    requires r.Wf() && Holds(r, t, q) && item.ptr != 0
    requires |q| < |r.buf| ==> IndexSafe(|r.buf|, t + |q| + 1)
    ensures r.Write(item).1 <==> r.state != ClosedState && r.state != ReadOnly && |q| < |r.buf|
    ensures r.Write(item).1 ==> Holds(r.Write(item).0, t, q + [item])
    ensures r.state == ClosedState || r.state == ReadOnly ==> r.Write(item).0 == r
  {
    PushEnqueues(r, t, q, item);
  }

  /** Pop removes and returns the oldest item, and nil exactly when there is none. */
  lemma PopDequeues(r: Ring, t: nat, q: seq<Item>)
    requires r.Wf() && Holds(r, t, q)
    ensures r.Pop().1.ptr == 0 <==> q == []
    ensures r.Pop().0.state == r.state
    ensures q == [] ==> r.Pop() == (r, NO_ITEM)
    ensures q != [] ==> r.Pop().1 == q[0] && Holds(r.Pop().0, t + 1, q[1..])
  {
    if q != [] {
      ClearSlot(r.buf, t, q);
      Wrap32Add(t - 1, 1);
      assert t + 1 + |q[1..]| == t + |q|;
    }
  }

  /** Reset never clears a slot, so it rebuilds a new ring if and only if every slot was nil ... */
  lemma ResetIsPristineIff(r: Ring)
    ensures r.Reset() == NewRing(|r.buf|) <==> forall p :: 0 <= p < |r.buf| ==> r.buf[p] == NO_ITEM
  {
  }

  /** ... which is the case once the ring has been drained. */
  lemma ResetOfDrained(r: Ring, t: nat)
    requires Holds(r, t, [])
    ensures r.Reset() == NewRing(|r.buf|)
  {
  }
}
