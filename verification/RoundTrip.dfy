/** A batch of messages through the whole double buffer (double_buffer.go), by calls on one object:
    what is written is what is read, in the order written. */
module RoundTrip {
  import opened RingIndex
  import opened Rings
  import opened MinHeaps
  import opened Pipeline
  import opened PipelineInv
  import opened PipelineTheorems
  import opened PipelineReach
  import opened DoubleBuffers

  /** Nothing retired yet, and the first messages of items in the active ring. */
  ghost predicate Filled(s: State, items: seq<Item>) {
    && s.mode == WritingState && s.reader == Between && s.current.None?
    && s.retired == [] && s.filling == items
    && s.numbered == {} && s.heap == {} && s.sequence == 0 && s.currentSequence == 1
  }

  /** The messages are on their way to the reader, as batch 0 with number 1. */
  ghost predicate Numbered(s: State, items: seq<Item>) {
    && s.mode == WritingState && s.reader == Between
    && |s.retired| == 1 && s.retired[0].items == items
    && |s.numbering| == 1 && s.numbering[0].batch == 0 && s.sequence == 1
  }

  /** The reader has taken k of the messages. */
  ghost predicate Taken(s: State, items: seq<Item>, k: nat) {
    && Numbered(s, items) && k <= |items|
    && (k == 0 ==> s.current.None? && s.currentSequence == 1 && OnlyHand(s.heap, 1))
    && (k > 0 ==> s.current.Some? && s.currentSequence == 2 && s.consumed == k && s.heap == {})
  }

  ghost predicate OnlyHand(heap: set<Hand>, n: nat) {
    exists h :: heap == {h} && h.number == n
  }

  /** The current ring holds the messages not taken yet. */
  lemma OneBatch(size: nat, threads: set<nat>, s: State, items: seq<Item>)
    requires 0 < size < TWO31 && Reachable(size, threads, s) && s.mode != ClosedState
    requires |s.retired| == 1 && s.retired[0].items == items
    requires |s.numbering| == 1 && s.numbering[0].batch == 0
    requires s.current.Some? && s.currentSequence == 2 && s.reader != Counting
    ensures s.consumed <= |items| && s.current.value in s.rings
    ensures Holds(s.rings[s.current.value], s.consumed, items[s.consumed..])
  {
    ReachableFacts(size, threads, s);
    RingsOfStreams(s);
  }

  lemma ReadyForNext(size: nat, threads: set<nat>, s: State, ready: State, items: seq<Item>, k: nat, ok: bool)
    requires 0 < size < TWO31 && Reachable(size, threads, s) && Taken(s, items, k) && k < |items|
    requires Readies(s, ready, ok)
    ensures ok && ready.current.Some? && ready.currentSequence == 2 && ready.consumed == k && ready.heap == {}
    ensures ready.reader == Reading && ready.mode == WritingState
    ensures ready.retired == s.retired && ready.numbering == s.numbering && ready.sequence == 1
  {
    if k > 0 {
      OneBatch(size, threads, s, items);
    }
  }

  /** One read takes the next message. */
  lemma ReadTakesNext(size: nat, threads: set<nat>, s: State, ready: State, s': State, items: seq<Item>,
                      k: nat, mode: ReadMode, r: Result<Item>)
    requires 0 < size < TWO31 && Reachable(size, threads, s) && Reachable(size, threads, ready)
    requires Taken(s, items, k) && k < |items| && items[k].ptr != 0 && mode != OtherMode
    requires Readies(s, ready, true) && ReadsFrom(ready, s', mode, r)
    ensures r == Ok(items[k]) && Taken(s', items, k + 1)
  {
    ReadyForNext(size, threads, s, ready, items, k, true);
    OneBatch(size, threads, ready, items);
    PopDequeues(ready.rings[ready.current.value], k, items[k..]);
  }

  /** And after the last there is nothing to read. */
  lemma NothingLeft(size: nat, threads: set<nat>, s: State, ready: State, items: seq<Item>, ok: bool)
    requires 0 < size < TWO31 && Reachable(size, threads, s)
    requires Taken(s, items, |items|) && items != [] && Readies(s, ready, ok)
    ensures !ok
  {
    OneBatch(size, threads, s, items);
  }

  lemma OneMoreFilled(s: State, s': State, items: seq<Item>, item: Item, err: Option<Error>)
    requires Filled(s, items) && s.active in s.rings && Writes(s, s', item, err)
    requires !Stuck(s.rings[s.active])
    ensures err.None? && Filled(s', items + [item])
    ensures s'.active in s'.rings && s'.rings[s'.active].count == |items| + 1
    ensures s'.rings[s'.active].state == WriteOnly
  {
  }

  ghost predicate Filling(d: DoubleBuffer, t: nat, items: seq<Item>)
    reads d, d.pendingHeap, Members(d.pendingHeap.heap)
  {
    && d.Valid() && d.Idle(t) && d.handoffs == [] && d.numbered == [] && Filled(d.s, items)
    && d.s.active in d.s.rings && |d.s.rings[d.s.active].buf| == d.s.capacity
    && d.s.rings[d.s.active].count == |items| && d.s.rings[d.s.active].state == WriteOnly
  }

  method FillOne(d: DoubleBuffer, ghost t: nat, ghost items: seq<Item>, item: Item)
    requires Filling(d, t, items) && |items| < d.s.capacity && IsMessage(item)
    modifies d`rings, d`nextName, d`active, d`passive, d`count, d`state, d`pool, d`handoffs, d`jobs, d`s
    ensures Filling(d, t, items + [item]) && d.s.capacity == old(d.s.capacity)
  {
    ghost var before := d.s;
    var err := d.Write(t, item);
    OneMoreFilled(before, d.s, items, item, err);
    ActiveSize(d.size, d.threads, d.s);
  }

  /** Any number of messages that fits in one ring; i of them are in it already. */
  method Fill(d: DoubleBuffer, ghost t: nat, items: seq<Item>, i: nat, ghost done: seq<Item>)
    returns (ghost all: seq<Item>)
    requires i <= |items| <= d.s.capacity && done == items[..i] && Filling(d, t, done)
    requires forall i :: 0 <= i < |items| ==> IsMessage(items[i])
    modifies d`rings, d`nextName, d`active, d`passive, d`count, d`state, d`pool, d`handoffs, d`jobs, d`s
    ensures Filling(d, t, all) && all == items
    decreases |items| - i
  {
    if i == |items| {
      return done;
    }
    FillOne(d, t, done, items[i]);
    all := Fill(d, t, items, i + 1, done + [items[i]]);
  }

  lemma ActiveSize(size: nat, threads: set<nat>, s: State)
    requires 0 < size < TWO31 && Reachable(size, threads, s) && s.mode != ClosedState
    ensures s.active in s.rings && |s.rings[s.active].buf| == s.capacity
  {
    ReachableFacts(size, threads, s);
    assert Refers(s, AtActive, s.active);
  }

  /** The filled ring is retired and numbered. */
  method Retire(d: DoubleBuffer, ghost t: nat, ghost items: seq<Item>) returns (item: MinHeapItem)
    requires Filling(d, t, items)
    modifies d`rings, d`nextName, d`active, d`passive, d`count, d`state, d`pool, d`handoffs, d`jobs,
             d`sequence, d`numbered, d`carried, d`s
    ensures d.Valid() && Numbered(d.s, items) && d.s.current.None? && d.s.currentSequence == 1
    ensures d.s.heap == {} && OnlyHand(d.s.numbered, 1) && d.numbered == [item] && fresh(item)
  {
    NotNumbered(d.size, d.threads, d.s);
    var _ := d.SwitchChannel(t);
    ghost var job := d.jobs[0];
    item := d.TakeNumber(0);
    assert d.s.numbered == {Hand(1, job)};
  }

  lemma NotNumbered(size: nat, threads: set<nat>, s: State)
    requires size < TWO31 && Reachable(size, threads, s) && s.mode != ClosedState && s.sequence == 0
    ensures s.numbering == []
  {
    ReachableFacts(size, threads, s);
  }

  method ReadOne(d: DoubleBuffer, ghost items: seq<Item>, k: nat) returns (r: Result<Item>)
    requires d.Valid() && Taken(d.s, items, k) && k < |items| && items[k].ptr != 0
    requires d.readMode != OtherMode
    modifies d`rings, d`pool, d`currentBuffer, d`currentSequence, d`handOf, d`s,
             d.pendingHeap, Members(d.pendingHeap.heap)
    ensures d.Valid() && Taken(d.s, items, k + 1) && r == Ok(items[k])
    ensures Members(d.pendingHeap.heap) <= Members(old(d.pendingHeap.heap))
  {
    ghost var before := d.s;
    ghost var ready;
    r, ready := d.TryRead();
    ReadyForNext(d.size, d.threads, before, ready, items, k, r != Err(ErrNoBuffer));
    ReadTakesNext(d.size, d.threads, before, ready, d.s, items, k, d.readMode, r);
  }

  method ReadLast(d: DoubleBuffer, ghost items: seq<Item>) returns (r: Result<Item>)
    requires d.Valid() && Taken(d.s, items, |items|) && items != []
    modifies d`rings, d`pool, d`currentBuffer, d`currentSequence, d`handOf, d`s,
             d.pendingHeap, Members(d.pendingHeap.heap)
    ensures d.Valid() && r == Err(ErrNoBuffer)
  {
    ghost var before := d.s;
    ghost var ready;
    r, ready := d.TryRead();
    NothingLeft(d.size, d.threads, before, ready, items, r != Err(ErrNoBuffer));
  }

  /** The messages from the k-th on. */
  method ReadRest(d: DoubleBuffer, n: nat, k: nat, ghost items: seq<Item>)
    returns (out: seq<Item>, last: Result<Item>)
    requires d.Valid() && Taken(d.s, items, k) && n == |items| > 0 && d.readMode != OtherMode
    requires forall i :: 0 <= i < |items| ==> items[i].ptr != 0
    modifies d`rings, d`pool, d`currentBuffer, d`currentSequence, d`handOf, d`s,
             d.pendingHeap, Members(d.pendingHeap.heap)
    ensures out == items[k..] && last == Err(ErrNoBuffer)
    decreases n - k
  {
    if k == n {
      last := ReadLast(d, items);
      return [], last;
    }
    var r := ReadOne(d, items, k);
    out, last := ReadRest(d, n, k + 1, items);
    out := [r.value] + out;
  }

  method Publish(d: DoubleBuffer, ghost items: seq<Item>)
    requires d.Valid() && Numbered(d.s, items) && d.s.current.None? && d.s.currentSequence == 1
    requires d.s.heap == {} && OnlyHand(d.s.numbered, 1) && |d.numbered| == 1
    modifies d`numbered, d`carried, d`handOf, d`s, d.pendingHeap, Members(d.pendingHeap.heap), d.numbered[0]
    ensures d.Valid() && Taken(d.s, items, 0)
    ensures Members(d.pendingHeap.heap) == old(Members(d.pendingHeap.heap) + {d.numbered[0]})
  {
    ghost var before := d.s;
    d.PushHand(0);
    ghost var h :| before.numbered == {h} && h.number == 1;
    assert d.s.heap == {h};
  }

  method NewFilled(size: nat, mode: ReadMode, items: seq<Item>) returns (d: DoubleBuffer, ghost done: seq<Item>)
    requires 0 < size < TWO31 && |items| <= size
    requires forall i :: 0 <= i < |items| ==> IsMessage(items[i])
    ensures fresh(d) && fresh(d.pendingHeap) && d.pendingHeap.heap == [] && d.readMode == mode
    ensures Filling(d, 0, done) && done == items
  {
    d := new DoubleBuffer(size, mode, {0});
    done := Fill(d, 0, items, 0, []);
  }

  method Send(d: DoubleBuffer, ghost items: seq<Item>) returns (item: MinHeapItem)
    requires Filling(d, 0, items) && d.pendingHeap.heap == []
    modifies d`rings, d`nextName, d`active, d`passive, d`count, d`state, d`pool, d`handoffs, d`jobs,
             d`sequence, d`numbered, d`carried, d`handOf, d`s, d.pendingHeap
    ensures d.Valid() && Taken(d.s, items, 0) && fresh(item) && Members(d.pendingHeap.heap) == {item}
  {
    item := Retire(d, 0, items);
    Publish(d, items);
  }

  method SendAndRead(d: DoubleBuffer, n: nat, ghost items: seq<Item>)
    returns (out: seq<Item>, last: Result<Item>)
    requires Filling(d, 0, items) && d.pendingHeap.heap == [] && d.readMode != OtherMode && n == |items| > 0
    requires forall i :: 0 <= i < |items| ==> items[i].ptr != 0
    modifies d, d.pendingHeap
    ensures out == items && last == Err(ErrNoBuffer)
  {
    var item := Send(d, items);
    out, last := ReadRest(d, n, 0, items);
  }

  /** A new buffer of any size with a known read mode: as many messages as one ring takes, once their
      ring is retired, numbered and pushed, are read back in order, and then there is no more. */
  method WrittenIsRead(size: nat, mode: ReadMode, items: seq<Item>) returns (out: seq<Item>, last: Result<Item>)
    requires 0 < size < TWO31 && mode != OtherMode && 0 < |items| <= size
    requires forall i :: 0 <= i < |items| ==> IsMessage(items[i])
    ensures out == items && last == Err(ErrNoBuffer)
  {
    var d;
    ghost var done;
    d, done := NewFilled(size, mode, items);
    out, last := SendAndRead(d, |items|, done);
  }
}
