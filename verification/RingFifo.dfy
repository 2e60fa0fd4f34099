/** One producer and one consumer, interleaved operation by operation: the ring of
    component/smart_buffer.go is a bounded FIFO queue that can be sealed. */
module RingFifo {
  import opened RingIndex
  import opened Rings
  import opened RingSteps

  ghost function Items(pubs: seq<Publication>): (items: seq<Item>)
    ensures |items| == |pubs|
    ensures forall i :: 0 <= i < |pubs| ==> items[i] == pubs[i].item
  {
    seq(|pubs|, i requires 0 <= i < |pubs| => pubs[i].item)
  }

  predicate Paired(s: System, p: nat, c: nat) {
    s.producers.Keys == {p} && s.consumers.Keys == {c} && 0 < |s.ring.buf| < TWO31
  }

  /** Everything published, and the item already stored whose count update is still due. */
  ghost function Stored(s: System, p: nat): seq<Item>
    requires p in s.producers
  {
    Items(s.published) + if s.producers[p].PCount? then [s.producers[p].item] else []
  }

  function Cleared(s: System, c: nat): nat
    requires c in s.consumers
  {
    |s.returned| + if s.consumers[c].CCount? then 1 else 0
  }

  /** The queue the ring stands for: published and not yet returned. */
  ghost function Queue(s: System): seq<Item>
    requires |s.returned| <= |s.published|
  {
    Items(s.published)[|s.returned|..]
  }

  ghost predicate ProducerInv(s: System, p: nat)
    requires p in s.producers
  {
    var pc := s.producers[p];
    var n, due := |s.published|, |s.returned|;
    && s.claimedIn == n + (if FLYING(pc) then 1 else 0)
    && (!pc.PIdle? ==> pc.item.ptr != 0)
    && (ADMITTED(pc) ==> n - due < |s.ring.buf|)
    && (pc.PProbe? ==> pc.i == 0)
    && (pc.PProbe? || pc.PStore? ==> pc.at == Wrap32(n - 1))
  }

  ghost predicate ConsumerInv(s: System, c: nat)
    requires c in s.consumers
  {
    var pc := s.consumers[c];
    var n, due := |s.published|, |s.returned|;
    && s.claimedOut == due + (if DRAINING(pc) then 1 else 0)
    && (COMMITTED(pc) ==> due < n)
    && (pc.CCas? ==> pc.seen == s.ring.tail)
    && (pc.CRead? ==> pc.i == 0)
    && (pc.CRead? || pc.CClear? ==> pc.at == Wrap32(due - 1))
    && (pc.CClear? || pc.CCount? ==> due < n && pc.item == s.published[due].item)
  }

  /** The live slots are the stored items not yet cleared. */
  ghost predicate SlotsInv(s: System, p: nat, c: nat)
    requires Paired(s, p, c)
  {
    && Cleared(s, c) <= |Stored(s, p)|
    && SlotsHold(s.ring.buf, Cleared(s, c), Stored(s, p)[Cleared(s, c)..])
  }

  ghost predicate OrderInv(s: System) {
    && |s.returned| <= |s.published|
    && (forall i :: 0 <= i < |s.published| ==> s.published[i].item.ptr != 0)
    && s.returned == Items(s.published)[..|s.returned|]
  }

  ghost predicate HistoryInv(s: System) {
    && |s.returned| <= |s.published|
    && s.ring.count == |s.published| - |s.returned| <= |s.ring.buf|
    && s.ring.head == Wrap32(s.claimedIn - 1)
    && s.ring.tail == Wrap32(s.claimedOut - 1)
  }

  ghost predicate FifoInv(s: System, p: nat, c: nat)
    requires Paired(s, p, c)
  {
    OrderInv(s) && HistoryInv(s) && ProducerInv(s, p) && ConsumerInv(s, c) && SlotsInv(s, p, c)
  }

  /** The claims made so far keep the 32-bit indices meaningful. */
  predicate Safe(s: System) {
    IndexSafe(|s.ring.buf|, s.claimedIn)
  }

  /** The slot a producer is about to fill is empty, and filling it extends the live slots. */
  lemma NextSlot(s: System, p: nat, c: nat)
    requires Paired(s, p, c) && FifoInv(s, p, c) && Safe(s)
    requires s.producers[p].PProbe? || s.producers[p].PStore?
    ensures var pos := CalcPos(s.producers[p].at, |s.ring.buf|);
            && 0 <= pos < |s.ring.buf|
            && s.ring.buf[pos] == NO_ITEM
            && SlotsHold(s.ring.buf[pos := s.producers[p].item], Cleared(s, c),
                         Stored(s, p)[Cleared(s, c)..] + [s.producers[p].item])
  {
    StoreSlot(s.ring.buf, Cleared(s, c), Stored(s, p)[Cleared(s, c)..], s.producers[p].item);
  }

  /** The claimed index selects the slot of the oldest live item ... */
  lemma OldestPosition(s: System, p: nat, c: nat)
    requires Paired(s, p, c) && ConsumerInv(s, c) && (s.consumers[c].CRead? || s.consumers[c].CClear?)
    ensures CalcPos(s.consumers[c].at, |s.ring.buf|) == Slot(Cleared(s, c), |s.ring.buf|)
  {
  }

  /** ... which is the next one to be returned. */
  lemma OldestItem(s: System, p: nat, c: nat)
    requires Paired(s, p, c) && ConsumerInv(s, c) && Cleared(s, c) == |s.returned| < |s.published|
    ensures var live := Stored(s, p)[Cleared(s, c)..];
            live != [] && live[0] == s.published[|s.returned|].item
            && live[1..] == Stored(s, p)[Cleared(s, c) + 1..]
  {
  }

  /** The slot a consumer has claimed holds the oldest item, and clearing it shrinks the live slots. */
  lemma OldestSlot(s: System, p: nat, c: nat)
    requires Paired(s, p, c) && SlotsInv(s, p, c) && ConsumerInv(s, c) && ProducerInv(s, p) && Safe(s)
    requires s.consumers[c].CRead? || s.consumers[c].CClear?
    ensures var pos := CalcPos(s.consumers[c].at, |s.ring.buf|);
            && 0 <= pos < |s.ring.buf|
            && s.ring.buf[pos] == s.published[|s.returned|].item
            && SlotsHold(s.ring.buf[pos := NO_ITEM], Cleared(s, c) + 1, Stored(s, p)[Cleared(s, c) + 1..])
  {
    OldestPosition(s, p, c);
    OldestItem(s, p, c);
    ClearSlot(s.ring.buf, Cleared(s, c), Stored(s, p)[Cleared(s, c)..]);
  }

  lemma StoredAfterPush(s: System, p: nat, c: nat)
    requires Paired(s, p, c)
    ensures var pc, t := s.producers[p], Do(s, PushStep(p));
            if pc.PStore? then Stored(t, p) == Stored(s, p) + [pc.item]
            else Stored(t, p) == Stored(s, p) && t.ring.buf == s.ring.buf
  {
  }

  lemma PushKeepsSlots(s: System, p: nat, c: nat)
    requires Paired(s, p, c) && FifoInv(s, p, c) && Safe(s)
    ensures SlotsInv(Do(s, PushStep(p)), p, c)
  {
    StoredAfterPush(s, p, c);
    if s.producers[p].PStore? {
      StoreKeepsSlots(s, p, c);
    }
  }

  lemma StoreKeepsSlots(s: System, p: nat, c: nat)
    requires Paired(s, p, c) && FifoInv(s, p, c) && Safe(s) && s.producers[p].PStore?
    ensures SlotsInv(Do(s, PushStep(p)), p, c)
  {
    var item, from := s.producers[p].item, Cleared(s, c);
    var t := Do(s, PushStep(p));
    NextSlot(s, p, c);
    StoredAfterPush(s, p, c);
    assert Stored(t, p)[from..] == Stored(s, p)[from..] + [item];
    assert t.ring.buf == s.ring.buf[CalcPos(s.producers[p].at, |s.ring.buf|) := item];
  }

  lemma PushKeepsProducer(s: System, p: nat, c: nat)
    requires Paired(s, p, c) && FifoInv(s, p, c) && Safe(s)
    ensures ProducerInv(Do(s, PushStep(p)), p)
  {
    if s.producers[p].PProbe? {
      NextSlot(s, p, c);
    }
  }

  lemma PushKeepsHistory(s: System, p: nat, c: nat)
    requires Paired(s, p, c) && FifoInv(s, p, c)
    ensures HistoryInv(Do(s, PushStep(p))) && ConsumerInv(Do(s, PushStep(p)), c)
  {
    Wrap32Add(s.claimedIn - 1, 1);
  }

  lemma PushKeepsOrder(s: System, p: nat, c: nat)
    requires Paired(s, p, c) && FifoInv(s, p, c)
    ensures OrderInv(Do(s, PushStep(p)))
  {
  }

  lemma StoredAfterPop(s: System, p: nat, c: nat)
    requires Paired(s, p, c)
    ensures var t := Do(s, PopStep(c));
            && Stored(t, p) == Stored(s, p)
            && (!s.consumers[c].CClear? ==> Cleared(t, c) == Cleared(s, c) && t.ring.buf == s.ring.buf)
            && (s.consumers[c].CClear? ==> Cleared(t, c) == Cleared(s, c) + 1)
  {
  }

  lemma PopKeepsSlots(s: System, p: nat, c: nat)
    requires Paired(s, p, c) && FifoInv(s, p, c) && Safe(s)
    ensures SlotsInv(Do(s, PopStep(c)), p, c)
  {
    StoredAfterPop(s, p, c);
    if s.consumers[c].CClear? {
      ClearKeepsSlots(s, p, c);
    }
  }

  lemma ClearKeepsSlots(s: System, p: nat, c: nat)
    requires Paired(s, p, c) && FifoInv(s, p, c) && Safe(s) && s.consumers[c].CClear?
    ensures SlotsInv(Do(s, PopStep(c)), p, c)
  {
    StoredAfterPop(s, p, c);
    OldestSlot(s, p, c);
    assert Do(s, PopStep(c)).ring.buf
           == s.ring.buf[CalcPos(s.consumers[c].at, |s.ring.buf|) := NO_ITEM];
  }

  lemma PopKeepsConsumer(s: System, p: nat, c: nat)
    requires Paired(s, p, c) && FifoInv(s, p, c) && Safe(s)
    ensures ConsumerInv(Do(s, PopStep(c)), c)
  {
    if s.consumers[c].CRead? {
      OldestSlot(s, p, c);
    }
  }

  lemma PopKeepsHistory(s: System, p: nat, c: nat)
    requires Paired(s, p, c) && FifoInv(s, p, c)
    ensures HistoryInv(Do(s, PopStep(c))) && ProducerInv(Do(s, PopStep(c)), p)
  {
    Wrap32Add(s.claimedOut - 1, 1);
  }

  lemma PopKeepsOrder(s: System, p: nat, c: nat)
    requires Paired(s, p, c) && FifoInv(s, p, c)
    ensures OrderInv(Do(s, PopStep(c)))
  {
  }

  lemma PushKeepsFifo(s: System, p: nat, c: nat)
    requires Paired(s, p, c) && FifoInv(s, p, c) && Safe(s)
    ensures FifoInv(Do(s, PushStep(p)), p, c)
  {
    PushKeepsSlots(s, p, c);
    PushKeepsProducer(s, p, c);
    PushKeepsHistory(s, p, c);
    PushKeepsOrder(s, p, c);
  }

  lemma PopKeepsFifo(s: System, p: nat, c: nat)
    requires Paired(s, p, c) && FifoInv(s, p, c) && Safe(s)
    ensures FifoInv(Do(s, PopStep(c)), p, c)
  {
    PopKeepsSlots(s, p, c);
    PopKeepsConsumer(s, p, c);
    PopKeepsHistory(s, p, c);
    PopKeepsOrder(s, p, c);
  }

  lemma ResetKeepsFifo(s: System, p: nat, c: nat)
    requires Paired(s, p, c) && FifoInv(s, p, c) && Enabled(s, Reset)
    ensures FifoInv(Do(s, Reset), p, c)
  {
    assert Stored(s, p)[Cleared(s, c)..] == [];
    assert Stored(Do(s, Reset), p)[Cleared(Do(s, Reset), c)..] == [];
  }

  lemma QuietKeepsFifo(s: System, step: Step, p: nat, c: nat)
    requires Paired(s, p, c) && FifoInv(s, p, c) && Enabled(s, step)
    requires step.BeginPush? || step.BeginPop? || step.Seal?
    ensures FifoInv(Do(s, step), p, c)
  {
    assert Stored(Do(s, step), p) == Stored(s, p);
  }

  lemma FifoKept(s: System, step: Step, p: nat, c: nat)
    requires Paired(s, p, c) && FifoInv(s, p, c)
    requires Safe(s) && Safe(Next(s, step))
    ensures Paired(Next(s, step), p, c) && FifoInv(Next(s, step), p, c)
  {
    if Enabled(s, step) {
      match step
      case PushStep(q) => PushKeepsFifo(s, p, c);
      case PopStep(d) => PopKeepsFifo(s, p, c);
      case Reset => ResetKeepsFifo(s, p, c);
      case _ => QuietKeepsFifo(s, step, p, c);
    }
  }

  /** The queue before and after one step. */
  ghost predicate FifoStep(before: seq<Item>, after: seq<Item>, capacity: nat) {
    || after == before
    || (|before| < capacity && exists item: Item :: item.ptr != 0 && after == before + [item])
    || (before != [] && after == before[1..])
  }

  ghost predicate SafeRun(init: System, steps: seq<Step>)
    requires |init.ring.buf| > 0
  {
    forall k :: 0 <= k <= |steps| ==> Safe(Run(init, steps[..k]))
  }

  lemma PrefixSafe(init: System, steps: seq<Step>)
    requires |init.ring.buf| > 0 && SafeRun(init, steps)
    ensures Safe(Run(init, steps))
    ensures steps != [] ==> SafeRun(init, steps[..|steps| - 1])
  {
    assert steps[..|steps|] == steps;
    if steps != [] {
      var front := steps[..|steps| - 1];
      forall k | 0 <= k <= |front| ensures Safe(Run(init, front[..k])) {
        assert front[..k] == steps[..k];
      }
    }
  }

  lemma {:induction false} FifoReached(capacity: nat, p: nat, c: nat, steps: seq<Step>)
    requires 0 < capacity < TWO31 && SafeRun(Init(capacity, {p}, {c}), steps)
    ensures var s := Run(Init(capacity, {p}, {c}), steps); Paired(s, p, c) && FifoInv(s, p, c)
  {
    var init := Init(capacity, {p}, {c});
    PrefixSafe(init, steps);
    if steps == [] {
      assert init.producers.Keys == {p} && init.consumers.Keys == {c};
      assert Stored(init, p) == [];
    } else {
      var front := steps[..|steps| - 1];
      FifoReached(capacity, p, c, front);
      PrefixSafe(init, front);
      FifoKept(Run(init, front), steps[|steps| - 1], p, c);
    }
  }

  /** What a thread of either side can rely on in state s. */
  ghost predicate QueueBehaves(s: System, p: nat, c: nat)
    requires Paired(s, p, c)
  {
    // items come out in the order they went in, and the count is the length of the queue
    && s.returned <= Items(s.published)
    && s.ring.count == |Queue(s)| <= |s.ring.buf|
    // a store never hits an occupied slot, and its retry loop is left at the first attempt
    && (s.producers[p].PProbe? || s.producers[p].PStore? ==>
          s.ring.buf[CalcPos(s.producers[p].at, |s.ring.buf|)] == NO_ITEM)
    && (s.producers[p].PProbe? ==> Produce(s.ring, s.producers[p]).1.PStore?)
    // a Pop that saw a nonzero count is handed the oldest item, which is not nil, and its retry
    // loop is left at the first attempt
    && (COMMITTED(s.consumers[c]) ==> Queue(s) != [] && Queue(s)[0].ptr != 0)
    && (s.consumers[c].CRead? ==> Consume(s.ring, s.consumers[c]).1 == CClear(s.consumers[c].at, Queue(s)[0]))
    && (s.consumers[c].CCount? ==> s.consumers[c].item == Queue(s)[0])
    // Pop gives up only on an empty queue, Push for lack of room only on a full one
    && (s.consumers[c].CLoadCount? ==> (Consume(s.ring, s.consumers[c]).1.CIdle? <==> Queue(s) == []))
    && (s.producers[p].PLoadCount? ==>
          (Produce(s.ring, s.producers[p]).1.PSealFull? <==> |Queue(s)| == |s.ring.buf|))
  }

  lemma FifoBehaves(s: System, p: nat, c: nat)
    requires Paired(s, p, c) && FifoInv(s, p, c) && Safe(s)
    ensures QueueBehaves(s, p, c)
  {
    if s.producers[p].PProbe? || s.producers[p].PStore? {
      NextSlot(s, p, c);
    }
    if s.consumers[c].CRead? {
      OldestSlot(s, p, c);
    }
  }

  lemma FifoStepped(s: System, step: Step, p: nat, c: nat)
    requires Paired(s, p, c) && FifoInv(s, p, c)
    requires Paired(Next(s, step), p, c) && FifoInv(Next(s, step), p, c)
    ensures FifoStep(Queue(s), Queue(Next(s, step)), |s.ring.buf|)
  {
    var t := Next(s, step);
    if Enabled(s, step) {
      if step.PushStep? && s.producers[p].PCount? {
        assert Queue(t) == Queue(s) + [s.producers[p].item];
      } else if step.PopStep? && s.consumers[c].CCount? {
        assert Queue(t) == Queue(s)[1..];
      } else {
        assert Queue(t) == Queue(s);
      }
    }
  }

  /** Along every schedule of one producer and one consumer (with sealing at any moment and resets
      of the drained ring), as long as the indices are safe, the ring behaves as a FIFO queue of
      bounded length, and each atomic operation changes that queue by at most one end. */
  lemma {:induction false} RefinesFifo(capacity: nat, p: nat, c: nat, steps: seq<Step>)
    requires 0 < capacity < TWO31 && SafeRun(Init(capacity, {p}, {c}), steps)
    ensures var s := Run(Init(capacity, {p}, {c}), steps);
            Paired(s, p, c) && FifoInv(s, p, c) && QueueBehaves(s, p, c)
    ensures steps != [] ==>
              var s := Run(Init(capacity, {p}, {c}), steps);
              var before := Run(Init(capacity, {p}, {c}), steps[..|steps| - 1]);
              && |before.returned| <= |before.published| && |s.returned| <= |s.published|
              && FifoStep(Queue(before), Queue(s), capacity)
  {
    var init := Init(capacity, {p}, {c});
    FifoReached(capacity, p, c, steps);
    PrefixSafe(init, steps);
    FifoBehaves(Run(init, steps), p, c);
    if steps != [] {
      FifoReached(capacity, p, c, steps[..|steps| - 1]);
      FifoStepped(Run(init, steps[..|steps| - 1]), steps[|steps| - 1], p, c);
    }
  }
}
