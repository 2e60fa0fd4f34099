/** Every step of the pipeline keeps the contents of every ring as its owner says. */
module PipelineContents {
  import opened Rings
  import opened Pipeline
  import opened PipelineInv

  /** The fields the views of rings are read from. */
  ghost predicate SameHistory(s: State, t: State) {
    && t.capacity == s.capacity && t.retired == s.retired && t.numbering == s.numbering
    && NextNumber(t) == NextNumber(s) && t.consumed == s.consumed && t.filling == s.filling
  }

  /** No view changes but that of r0, the one ring that may change hands. */
  lemma OtherViews(s: State, t: State, r0: nat)
    requires SameHistory(s, t) && t.threads == s.threads
    requires forall r :: r in s.owner && r != r0 ==> r in t.owner && t.owner[r] == s.owner[r]
    ensures forall r :: r in s.owner && r != r0 ==> Expected(t, r) == Expected(s, r)
  {
  }

  lemma SameViews(s: State, t: State)
    requires SameHistory(s, t) && t.threads == s.threads && t.owner == s.owner
    ensures forall r :: r in s.owner ==> Expected(t, r) == Expected(s, r)
  {
  }

  /** The same while thread x, which holds no other ring than r0, moves. */
  lemma ThreadViews(s: State, t: State, x: nat, r0: nat)
    requires SameHistory(s, t) && Owned(s) && x in s.threads && x in t.threads
    requires t.threads == s.threads[x := t.threads[x]]
    requires forall r :: r in s.owner && r != r0 ==> r in t.owner && t.owner[r] == s.owner[r]
    requires s.threads[x].Swapping? ==> s.threads[x].newRing == r0
    requires s.threads[x].Spawning? ==> s.threads[x].job.ring == r0
    ensures forall r :: r in s.owner && r != r0 ==> Expected(t, r) == Expected(s, r)
  {
  }

  // ---------- steps of writers and switching threads ----------

  lemma WriteViews(s: State, item: Item)
    requires Owned(s) && Enabled(s, Write(item))
    ensures forall r :: r in s.owner && r != s.active ==> Expected(DoWrite(s, item), r) == Expected(s, r)
  {
    forall r | r in s.owner && r != s.active ensures Expected(DoWrite(s, item), r) == Expected(s, r) {
      assert Refers(s, s.owner[r], r);
    }
  }

  lemma WriteContents(s: State, item: Item)
    requires Owned(s) && Contents(s) && Enabled(s, Write(item))
    ensures Contents(DoWrite(s, item))
  {
    var a := s.active;
    assert Refers(s, AtActive, a);
    assert Matches(s.rings[a], s.capacity, Queue(0, s.filling));
    if s.rings[a].state != ClosedState {
      PushEnqueues(s.rings[a], 0, s.filling, item);
    }
    WriteViews(s, item);
    ContentsFrame(s, DoWrite(s, item), a);
  }

  lemma SealContents(s: State, x: nat)
    requires Owned(s) && Contents(s) && Enabled(s, SealActive(x))
    ensures Contents(Do(s, SealActive(x)))
  {
    var t := Do(s, SealActive(x));
    assert Refers(s, AtActive, s.active);
    assert Matches(s.rings[s.active], s.capacity, Queue(0, s.filling));
    ThreadViews(s, t, x, s.active);
    ContentsFrame(s, t, s.active);
  }

  /** A thread that holds no ring moves to where it holds none. */
  lemma ThreadContents(s: State, t: State, x: nat, pc: Thread)
    requires Contents(s) && x in s.threads && !pc.Spawning? && !s.threads[x].Spawning?
    requires t.threads == s.threads[x := pc] && t.rings == s.rings && t.owner == s.owner
    requires SameHistory(s, t)
    ensures Contents(t)
  {
  }

  lemma GetPooledContents(s: State, x: nat, r: nat)
    requires Owned(s) && Contents(s) && Enabled(s, GetPooled(x, r))
    ensures Contents(Do(s, GetPooled(x, r)))
  {
    assert Refers(s, AtPool, r);
    assert Matches(s.rings[r], s.capacity, Pristine);
    ThreadViews(s, Do(s, GetPooled(x, r)), x, r);
    ContentsFrame(s, Do(s, GetPooled(x, r)), r);
  }

  lemma GetNewContents(s: State, x: nat, r: nat)
    requires Owned(s) && Contents(s) && Enabled(s, GetNew(x, r))
    ensures Contents(Do(s, GetNew(x, r)))
  {
    ThreadViews(s, Do(s, GetNew(x, r)), x, r);
    ContentsFrame(s, Do(s, GetNew(x, r)), r);
  }

  lemma SwapViews(s: State, x: nat)
    requires Owned(s) && Placed(s) && CurrentKnown(s) && Enabled(s, Swap(x))
    ensures forall r :: r in s.owner && r != s.active && r != s.passive && r != s.threads[x].newRing ==>
              Expected(DoSwap(s, x), r) == Expected(s, r)
  {
    forall r | r in s.owner && r != s.active && r != s.passive && r != s.threads[x].newRing
      ensures Expected(DoSwap(s, x), r) == Expected(s, r)
    {
      assert Refers(s, s.owner[r], r) && PlaceOk(s, r);
    }
  }

  /** What the three rings of a swap hold. */
  lemma SwapRings(s: State, x: nat)
    requires Owned(s) && Contents(s) && Enabled(s, Swap(x))
    ensures s.active in s.rings && Matches(s.rings[s.active], s.capacity, Queue(0, s.filling))
    ensures s.passive in s.rings && Matches(s.rings[s.passive], s.capacity, Queue(0, []))
    ensures s.threads[x].newRing in s.rings
    ensures Matches(s.rings[s.threads[x].newRing], s.capacity, Pristine)
  {
    assert Refers(s, AtActive, s.active) && Refers(s, AtPassive, s.passive);
    assert Refers(s, AtThread(x), s.threads[x].newRing);
    assert Matches(s.rings[s.passive], s.capacity, Pristine);
    NewHolds(s.capacity);
  }

  /** The active ring is retired with its messages, the pristine passive ring becomes active and
      the new ring, pristine too, becomes passive. */
  lemma SwapContents(s: State, x: nat)
    requires Owned(s) && Contents(s) && Placed(s) && CurrentKnown(s) && Enabled(s, Swap(x))
    ensures Contents(DoSwap(s, x))
  {
    var t := DoSwap(s, x);
    SwapRings(s, x);
    SwapViews(s, x);
    forall r | r in t.rings ensures Matches(t.rings[r], t.capacity, Expected(t, r)) {
      assert Matches(s.rings[r], s.capacity, Expected(s, r));
    }
  }

  lemma SpawnContents(s: State, x: nat)
    requires Owned(s) && Contents(s) && Enabled(s, Spawn(x))
    ensures Contents(Do(s, Spawn(x)))
  {
    var r := s.threads[x].job.ring;
    assert Refers(s, AtThread(x), r);
    assert Matches(s.rings[r], s.capacity, Expected(s, r));
    ThreadViews(s, Do(s, Spawn(x)), x, r);
    ContentsFrame(s, Do(s, Spawn(x)), r);
  }

  // ---------- hand-off goroutines ----------

  lemma TakeNumberViews(s: State, job: Job)
    requires Enabled(s, TakeNumber(job)) && Turns(s) && NextNumber(s) <= |s.numbering| + 1
    requires Owned(s)
    ensures forall r :: r in s.owner && r != job.ring ==>
              Expected(DoTakeNumber(s, job), r) == Expected(s, r)
  {
    forall r | r in s.owner && r != job.ring ensures Expected(DoTakeNumber(s, job), r) == Expected(s, r) {
      assert Refers(s, s.owner[r], r);
    }
  }

  lemma TakeNumberContents(s: State, job: Job)
    requires Owned(s) && Contents(s) && Turns(s) && NextNumber(s) <= |s.numbering| + 1
    requires Enabled(s, TakeNumber(job))
    ensures Contents(DoTakeNumber(s, job))
  {
    assert Refers(s, AtSpawned(job.batch), job.ring);
    assert Matches(s.rings[job.ring], s.capacity, BatchView(s, job.batch));
    TakeNumberViews(s, job);
    ContentsFrame(s, DoTakeNumber(s, job), job.ring);
  }

  /** A retired ring moves from one stop to the next with the batch it holds. */
  lemma HandContents(s: State, t: State, r: nat, from: Place, to: Place, b: nat)
    requires Owned(s) && Contents(s) && SameHistory(s, t) && t.threads == s.threads
    requires Refers(s, from, r) && t.rings == s.rings && t.owner == s.owner[r := to]
    requires from == AtSpawned(b) || (exists n :: OnItsWay(from, n, b))
    requires exists n :: OnItsWay(to, n, b)
    ensures Contents(t)
  {
    assert Matches(s.rings[r], s.capacity, BatchView(s, b));
    assert Expected(t, r) == BatchView(s, b);
    OtherViews(s, t, r);
    ContentsFrame(s, t, r);
  }

  // ---------- the reader ----------

  lemma CurrentHolds(s: State)
    requires Owned(s) && Contents(s) && CurrentKnown(s) && s.current.Some?
    ensures s.current.value in s.rings && s.owner[s.current.value] == AtCurrent
    ensures Holds(s.rings[s.current.value], s.consumed, s.retired[CurrentBatch(s)].items[s.consumed..])
    ensures |s.rings[s.current.value].buf| == s.capacity
    ensures |s.retired[CurrentBatch(s)].items| <= s.capacity
  {
    assert Refers(s, AtCurrent, s.current.value);
    assert Matches(s.rings[s.current.value], s.capacity, Expected(s, s.current.value));
  }

  /** A drained ring is pristine after Reset. */
  lemma DrainedRing(s: State)
    requires Owned(s) && Contents(s) && CurrentKnown(s) && s.current.Some?
    requires s.current.value in s.rings && s.rings[s.current.value].count == 0
    ensures s.rings[s.current.value].Reset() == NewRing(s.capacity)
    ensures s.consumed == |s.retired[CurrentBatch(s)].items|
    ensures s.owner[s.current.value] == AtCurrent
  {
    CurrentHolds(s);
    ResetOfDrained(s.rings[s.current.value], s.consumed);
  }

  lemma RecycleViews(s: State)
    requires Owned(s) && CurrentKnown(s) && Enabled(s, BeginRead)
    requires s.current.Some? && s.rings[s.current.value].count == 0
    ensures s.current.value in s.owner
    ensures forall r :: r in s.owner && r != s.current.value ==>
              Expected(DoBeginRead(s), r) == Expected(s, r)
    ensures Expected(DoBeginRead(s), s.current.value) == Pristine
  {
    assert Refers(s, AtCurrent, s.current.value);
    OtherViews(s, DoBeginRead(s), s.current.value);
  }

  /** Recycling: the drained ring goes back to the pool, reset. */
  lemma RecycleContents(s: State)
    requires Owned(s) && Contents(s) && CurrentKnown(s) && Enabled(s, BeginRead)
    requires s.current.Some? && s.rings[s.current.value].count == 0
    ensures Contents(DoBeginRead(s))
  {
    DrainedRing(s);
    RecycleViews(s);
    ContentsFrame(s, DoBeginRead(s), s.current.value);
  }

  lemma BeginReadContents(s: State)
    requires Owned(s) && Contents(s) && CurrentKnown(s) && Enabled(s, BeginRead)
    ensures Contents(DoBeginRead(s))
  {
    if s.current.Some? && s.rings[s.current.value].count == 0 {
      RecycleContents(s);
    } else {
      SameViews(s, DoBeginRead(s));
      ContentsSame(s, DoBeginRead(s));
    }
  }

  lemma InstallViews(s: State)
    requires Owned(s) && Turns(s) && Enabled(s, Compare)
    requires s.reader.hand.number == s.currentSequence
    ensures forall r :: r in s.owner && r != s.reader.hand.job.ring ==>
              Expected(DoCompare(s), r) == Expected(s, r)
  {
  }

  lemma InstalledView(s: State)
    requires Enabled(s, Compare) && 1 <= s.currentSequence && !s.reader.Counting?
    requires s.reader.hand.number == s.currentSequence
    requires var hand := s.reader.hand;
             Outstanding(s, hand.number, hand.job.ring, hand.job.batch)
    ensures var t, hand := DoCompare(s), s.reader.hand;
            hand.job.ring in t.owner
            && Expected(t, hand.job.ring) == Queue(0, s.retired[hand.job.batch].items)
  {
  }

  /** The ring whose turn has come is installed with its whole batch. */
  lemma InstallContents(s: State)
    requires Owned(s) && Contents(s) && Placed(s) && Turns(s) && Enabled(s, Compare)
    requires 1 <= s.currentSequence && s.reader.hand.number == s.currentSequence
    ensures Contents(DoCompare(s))
  {
    var hand := s.reader.hand;
    var r := hand.job.ring;
    assert Refers(s, AtReader(hand.number, hand.job.batch), r);
    assert PlaceOk(s, r);
    assert Matches(s.rings[r], s.capacity, Queue(0, s.retired[hand.job.batch].items));
    InstalledView(s);
    InstallViews(s);
    ContentsFrame(s, DoCompare(s), r);
  }

  lemma ReadItemViews(s: State)
    requires Owned(s) && Enabled(s, ReadItem)
    ensures forall r :: r in s.owner && r != s.current.value ==>
              Expected(DoReadItem(s), r) == Expected(s, r)
  {
    forall r | r in s.owner && r != s.current.value ensures Expected(DoReadItem(s), r) == Expected(s, r) {
      assert Refers(s, s.owner[r], r);
    }
  }

  /** A read takes the next message of the current batch, or finds the batch exhausted. */
  lemma ReadItemRing(s: State)
    requires Owned(s) && Contents(s) && CurrentKnown(s) && Enabled(s, ReadItem)
    ensures var (r, item) := s.rings[s.current.value].Pop();
            var items := s.retired[CurrentBatch(s)].items;
            if s.consumed == |items| then item.ptr == 0 && r == s.rings[s.current.value]
            else item == items[s.consumed] && item.ptr != 0
                 && Holds(r, s.consumed + 1, items[s.consumed + 1..]) && |r.buf| == s.capacity
  {
    var items := s.retired[CurrentBatch(s)].items;
    CurrentHolds(s);
    PopDequeues(s.rings[s.current.value], s.consumed, items[s.consumed..]);
    if s.consumed < |items| {
      assert items[s.consumed..][1..] == items[s.consumed + 1..];
    }
  }

  /** The view of the current ring after a read. */
  lemma ReadItemView(s: State)
    requires Owned(s) && CurrentKnown(s) && Enabled(s, ReadItem)
    requires s.rings[s.current.value].Pop().1.ptr != 0 ==>
               s.consumed < |s.retired[CurrentBatch(s)].items|
    ensures var t, r := DoReadItem(s), s.current.value;
            && r in s.owner
            && t.consumed <= |s.retired[CurrentBatch(s)].items|
            && Expected(t, r) == Queue(t.consumed, s.retired[CurrentBatch(s)].items[t.consumed..])
  {
    assert Refers(s, AtCurrent, s.current.value);
  }

  lemma ReadItemMatches(s: State)
    requires Owned(s) && Contents(s) && CurrentKnown(s) && Enabled(s, ReadItem)
    ensures var t, r := DoReadItem(s), s.current.value;
            && r in s.owner && Matches(t.rings[r], t.capacity, Expected(t, r))
  {
    CurrentHolds(s);
    ReadItemRing(s);
    ReadItemView(s);
    assert DoReadItem(s).rings[s.current.value] == s.rings[s.current.value].Pop().0;
  }

  lemma ReadItemContents(s: State)
    requires Owned(s) && Contents(s) && CurrentKnown(s) && Enabled(s, ReadItem)
    ensures Contents(DoReadItem(s))
  {
    ReadItemMatches(s);
    ReadItemViews(s);
    ContentsFrame(s, DoReadItem(s), s.current.value);
  }

  /** The pool lets a ring go. */
  lemma CollectContents(s: State, t: State, r: nat)
    requires Owned(s) && Contents(s) && Refers(s, AtPool, r)
    requires SameHistory(s, t) && t.threads == s.threads && t.rings == s.rings
    requires t.owner == s.owner[r := AtCollector]
    ensures Contents(t)
  {
    assert |s.rings[r].buf| == s.capacity by {
      assert Matches(s.rings[r], s.capacity, Pristine);
    }
    assert Expected(t, r) == Anything;
    assert Matches(t.rings[r], t.capacity, Anything);
    OtherViews(s, t, r);
    ContentsFrame(s, t, r);
  }
}
