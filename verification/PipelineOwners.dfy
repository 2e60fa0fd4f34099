/** Every step of the pipeline keeps every ring with exactly one owner. */
module PipelineOwners {
  import opened Rings
  import opened Pipeline
  import opened PipelineInv

  lemma WriteOwned(s: State, item: Item)
    requires Owned(s) && Enabled(s, Write(item))
    ensures Owned(DoWrite(s, item))
  {
    RingsStay(s, DoWrite(s, item));
  }

  lemma ReadItemOwned(s: State)
    requires Owned(s) && Enabled(s, ReadItem)
    ensures Owned(DoReadItem(s))
  {
    RingsStay(s, DoReadItem(s));
  }

  /** Steps that only move a thread between places where it holds no ring. */
  lemma ThreadOwned(s: State, t: State, x: nat, pc: Thread)
    requires Owned(s) && x in s.threads && !pc.Swapping? && !pc.Spawning?
    requires !s.threads[x].Swapping? && !s.threads[x].Spawning?
    requires t.owner == s.owner && t.rings.Keys == s.rings.Keys && t.threads == s.threads[x := pc]
    requires t.active == s.active && t.passive == s.passive && t.pool == s.pool
    requires t.spawned == s.spawned && t.numbered == s.numbered && t.heap == s.heap
    requires t.reader == s.reader && t.current == s.current && t.collected == s.collected
    ensures Owned(t)
  {
    RingsStay(s, t);
  }

  lemma GetPooledOwned(s: State, x: nat, r: nat)
    requires Owned(s) && Enabled(s, GetPooled(x, r))
    ensures Owned(Do(s, GetPooled(x, r)))
  {
    assert Refers(s, AtPool, r);
    RingMoves(s, Do(s, GetPooled(x, r)), r, AtPool, AtThread(x));
  }

  lemma GetNewOwned(s: State, x: nat, r: nat)
    requires Owned(s) && Enabled(s, GetNew(x, r))
    ensures Owned(Do(s, GetNew(x, r)))
  {
    assert forall p :: !Refers(s, p, r);
    RingMoves(s, Do(s, GetNew(x, r)), r, AtCollector, AtThread(x));
  }

  lemma SwapOwned(s: State, x: nat)
    requires Owned(s) && Enabled(s, Swap(x))
    ensures Owned(DoSwap(s, x))
  {
    var t := DoSwap(s, x);
    var n := s.threads[x].newRing;
    assert Refers(s, AtActive, s.active);
    assert Refers(s, AtPassive, s.passive);
    assert Refers(s, AtThread(x), n);
    forall p, r | Refers(t, p, r) ensures r in t.owner && t.owner[r] == p {
      if r != s.active && r != s.passive && r != n {
        assert Refers(s, p, r);
      } else {
        assert p != AtActive && p != AtPassive && p != AtThread(x) ==> Refers(s, p, r);
      }
    }
    forall r | r in t.owner ensures Refers(t, t.owner[r], r) {
      assert Refers(s, s.owner[r], r);
    }
  }

  lemma SpawnOwned(s: State, x: nat)
    requires Owned(s) && Enabled(s, Spawn(x))
    ensures Owned(Do(s, Spawn(x)))
  {
    var job := s.threads[x].job;
    assert Refers(s, AtThread(x), job.ring);
    RingMoves(s, Do(s, Spawn(x)), job.ring, AtThread(x), AtSpawned(job.batch));
  }

  lemma TakeNumberOwned(s: State, job: Job)
    requires Owned(s) && Enabled(s, TakeNumber(job))
    ensures Owned(DoTakeNumber(s, job))
  {
    assert Refers(s, AtSpawned(job.batch), job.ring);
    RingMoves(s, DoTakeNumber(s, job), job.ring,
              AtSpawned(job.batch), AtNumbered(s.sequence + 1, job.batch));
  }

  lemma PushHandOwned(s: State, hand: Hand)
    requires Owned(s) && Enabled(s, PushHand(hand))
    ensures Owned(Do(s, PushHand(hand)))
  {
    assert Refers(s, AtNumbered(hand.number, hand.job.batch), hand.job.ring);
    RingMoves(s, Do(s, PushHand(hand)), hand.job.ring,
              AtNumbered(hand.number, hand.job.batch), AtHeap(hand.number, hand.job.batch));
  }

  lemma BeginReadOwned(s: State)
    requires Owned(s) && Enabled(s, BeginRead)
    ensures Owned(DoBeginRead(s))
  {
    if s.current.Some? && s.rings[s.current.value].count == 0 {
      assert Refers(s, AtCurrent, s.current.value);
      RingMoves(s, DoBeginRead(s), s.current.value, AtCurrent, AtPool);
    } else {
      RingsStay(s, DoBeginRead(s));
    }
  }

  lemma PickOwned(s: State, hand: Hand)
    requires Owned(s) && Enabled(s, Pick(hand))
    ensures Owned(Do(s, Pick(hand)))
  {
    assert Refers(s, AtHeap(hand.number, hand.job.batch), hand.job.ring);
    RingMoves(s, Do(s, Pick(hand)), hand.job.ring,
              AtHeap(hand.number, hand.job.batch), AtReader(hand.number, hand.job.batch));
  }

  lemma CompareOwned(s: State)
    requires Owned(s) && Turns(s) && Enabled(s, Compare)
    ensures Owned(DoCompare(s))
  {
    var hand := s.reader.hand;
    assert Refers(s, AtReader(hand.number, hand.job.batch), hand.job.ring);
    RingMoves(s, DoCompare(s), hand.job.ring, AtReader(hand.number, hand.job.batch),
              if hand.number == s.currentSequence then AtCurrent
              else AtHeap(hand.number, hand.job.batch));
  }

  lemma CollectOwned(s: State, r: nat)
    requires Owned(s) && Enabled(s, Collect(r))
    ensures Owned(Do(s, Collect(r)))
  {
    assert Refers(s, AtPool, r);
    RingMoves(s, Do(s, Collect(r)), r, AtPool, AtCollector);
  }

  /** The steps that move no ring and leave the rings alone. */
  lemma IdleOwned(s: State, step: Step)
    requires Owned(s) && Enabled(s, step) && (step.PickNothing? || step.Count? || step.RefuseRead?)
    ensures Owned(Do(s, step))
  {
    RingsStay(s, Do(s, step));
  }
}
