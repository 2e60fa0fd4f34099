/** What the pipeline guarantees in every state reached before Close. */
module PipelineTheorems {
  import opened RingIndex
  import opened Rings
  import opened Pipeline
  import opened PipelineInv
  import opened PipelineNumbers
  import opened PipelineRuns

  // ---------- ownership ----------

  predicate IsNew(s: State, r: nat) {
    r in s.rings && s.rings[r] == NewRing(s.capacity)
  }

  /** Each ring is referred to from exactly one place, and the passive ring, every pooled ring and
      a ring just taken from the pool are as good as new. */
  ghost predicate OneOwner(s: State) {
    && (forall r :: r in s.rings ==> exists p :: Refers(s, p, r))
    && (forall p, q, r :: Refers(s, p, r) && Refers(s, q, r) ==> p == q)
    && (forall p, r :: Refers(s, p, r) ==> r in s.rings)
    && IsNew(s, s.passive)
    && (forall r :: r in s.pool ==> IsNew(s, r))
    && (forall t :: t in s.threads && s.threads[t].Swapping? ==> IsNew(s, s.threads[t].newRing))
  }

  lemma InvGivesOneOwner(s: State)
    requires Owned(s) && Contents(s)
    ensures OneOwner(s)
  {
    forall r | r in s.rings ensures exists p :: Refers(s, p, r) {
      assert Refers(s, s.owner[r], r);
    }
    NewWhere(s, AtPassive, s.passive);
    forall r | r in s.pool ensures IsNew(s, r) {
      NewWhere(s, AtPool, r);
    }
    forall t | t in s.threads && s.threads[t].Swapping? ensures IsNew(s, s.threads[t].newRing) {
      NewWhere(s, AtThread(t), s.threads[t].newRing);
    }
  }

  lemma NewWhere(s: State, p: Place, r: nat)
    requires Owned(s) && Contents(s) && Refers(s, p, r)
    requires p == AtPassive || p == AtPool || (p.AtThread? && s.threads[p.t].Swapping?)
    ensures IsNew(s, r)
  {
  }

  /** In every run, however many threads switch, no ring is ever shared or reused dirty. */
  lemma RingsHaveOneOwner(capacity: nat, threads: set<nat>, steps: seq<Step>)
    requires capacity < TWO31
    ensures var s := Run(Init(capacity, threads), steps);
            s.mode != ClosedState ==> OneOwner(s)
  {
    Reached(capacity, threads, steps);
    var s := Run(Init(capacity, threads), steps);
    if s.mode != ClosedState {
      InvGivesOneOwner(s);
    }
  }

  // ---------- sequence numbers ----------

  /** Numbered rings the reader has not taken. */
  ghost function OutstandingHands(s: State): set<Hand> {
    s.numbered + s.heap + if s.reader.Comparing? then {s.reader.hand} else {}
  }

  ghost predicate IsOutstanding(s: State, n: nat) {
    exists h :: h in OutstandingHands(s) && h.number == n
  }

  /** The numbers up to `sequence` are those taken, a prefix, and one each for the rings numbered
      but not pushed, in the heap, or held by the reader, which are different rings. */
  ghost predicate NumbersPartitioned(s: State) {
    && 1 <= NextNumber(s) <= s.sequence + 1
    && (forall h :: h in OutstandingHands(s) ==> NextNumber(s) <= h.number <= s.sequence)
    && (forall n :: NextNumber(s) <= n <= s.sequence ==> IsOutstanding(s, n))
    && (forall h, k :: h in OutstandingHands(s) && k in OutstandingHands(s) && h.number == k.number ==> h == k)
    && s.numbered !! s.heap
    && (s.reader.Comparing? ==> s.reader.hand !in s.numbered && s.reader.hand !in s.heap)
  }

  lemma HandPlace(s: State, h: Hand)
    requires PipeInv(s) && h in OutstandingHands(s)
    ensures Outstanding(s, h.number, h.job.ring, h.job.batch)
    ensures h in s.numbered ==> Refers(s, AtNumbered(h.number, h.job.batch), h.job.ring)
    ensures h in s.heap ==> Refers(s, AtHeap(h.number, h.job.batch), h.job.ring)
    ensures s.reader.Comparing? && s.reader.hand == h ==>
              Refers(s, AtReader(h.number, h.job.batch), h.job.ring)
  {
    assert h == Hand(h.number, Job(h.job.ring, h.job.batch));
    var p := if h in s.numbered then AtNumbered(h.number, h.job.batch)
             else if h in s.heap then AtHeap(h.number, h.job.batch)
             else AtReader(h.number, h.job.batch);
    assert Refers(s, p, h.job.ring);
    assert PlaceOk(s, h.job.ring);
  }

  lemma InvGivesPartition(s: State)
    requires PipeInv(s)
    ensures NumbersPartitioned(s)
  {
    forall h | h in OutstandingHands(s)
      ensures NextNumber(s) <= h.number <= s.sequence && s.numbering[h.number - 1] == h.job
      ensures !(h in s.numbered && h in s.heap)
      ensures s.reader.Comparing? && s.reader.hand == h ==> h !in s.numbered && h !in s.heap
    {
      HandPlace(s, h);
    }
    forall n | NextNumber(s) <= n <= s.sequence ensures IsOutstanding(s, n) {
      var job := s.numbering[n - 1];
      assert Underway(s, n - 1);
      assert Refers(s, s.owner[job.ring], job.ring);
      assert Hand(n, job) in OutstandingHands(s);
    }
  }

  /** However numbering and pushing interleave, no number is lost or doubled ... */
  lemma SequenceNumbersPartitioned(capacity: nat, threads: set<nat>, steps: seq<Step>)
    requires capacity < TWO31
    ensures var s := Run(Init(capacity, threads), steps);
            s.mode != ClosedState ==> NumbersPartitioned(s)
  {
    Reached(capacity, threads, steps);
    if Run(Init(capacity, threads), steps).mode != ClosedState {
      InvGivesPartition(Run(Init(capacity, threads), steps));
    }
  }

  /** One step takes no ring, or the ring of the least number not taken. */
  ghost predicate TakesInOrder(s: State, t: State) {
    || NextNumber(t) == NextNumber(s)
    || (&& NextNumber(t) == NextNumber(s) + 1 && 1 <= NextNumber(s) <= |s.numbering|
        && s.current.None? && t.current == Some(s.numbering[NextNumber(s) - 1].ring))
  }

  lemma CompareTakesInOrder(s: State)
    requires PipeInv(s) && Enabled(s, Compare)
    ensures TakesInOrder(s, Do(s, Compare))
  {
    HeldNumber(s);
  }

  lemma OtherStepsTakeNothing(s: State, step: Step)
    requires Turns(s) && Enabled(s, step) && !step.Compare?
    ensures NextNumber(Do(s, step)) == NextNumber(s)
  {
  }

  /** ... and the reader takes the rings in the order 1, 2, 3, ...: the least number not taken
      moves only by one, in the step that makes the ring of that number the current one. */
  lemma TakenOneByOne(capacity: nat, threads: set<nat>, steps: seq<Step>, step: Step)
    requires capacity < TWO31
    ensures var s := Run(Init(capacity, threads), steps);
            s.mode != ClosedState ==> TakesInOrder(s, Next(s, step))
  {
    var s := Run(Init(capacity, threads), steps);
    Reached(capacity, threads, steps);
    if s.mode != ClosedState && Enabled(s, step) {
      if step.Compare? {
        CompareTakesInOrder(s);
      } else {
        OtherStepsTakeNothing(s, step);
      }
    }
  }

  /** When the ring whose turn it is is in the heap, a pick finds that very ring. */
  lemma PickFindsTheNext(s: State, hand: Hand, ring: nat, batch: nat)
    requires PipeInv(s) && Enabled(s, Pick(hand))
    requires Hand(NextNumber(s), Job(ring, batch)) in s.heap
    ensures hand == Hand(NextNumber(s), Job(ring, batch))
    ensures Do(Do(s, Pick(hand)), Compare).current == Some(ring)
  {
    InvGivesPartition(s);
    assert hand in OutstandingHands(s);
  }

  // ---------- conservation ----------

  lemma {:induction false} FlattenUpdate(batches: seq<seq<Item>>, b: nat, items: seq<Item>)
    requires b < |batches| && batches[b] == []
    ensures multiset(Flatten(batches[b := items])) == multiset(Flatten(batches)) + multiset(items)
  {
    var last := |batches| - 1;
    if b == last {
      assert batches[b := items][..last] == batches[..last];
    } else {
      FlattenUpdate(batches[..last], b, items);
      assert batches[b := items][..last] == batches[..last][b := items];
    }
  }

  lemma {:induction false} FlattenSplit(all: seq<seq<Item>>, some: seq<seq<Item>>, rest: seq<seq<Item>>)
    requires |all| == |some| == |rest|
    requires forall b :: 0 <= b < |all| ==>
               (some[b] == all[b] && rest[b] == []) || (some[b] == [] && rest[b] == all[b])
    ensures multiset(Flatten(all)) == multiset(Flatten(some)) + multiset(Flatten(rest))
  {
    if all != [] {
      var last := |all| - 1;
      FlattenSplit(all[..last], some[..last], rest[..last]);
    }
  }

  lemma {:induction false} FlattenNothing(batches: seq<seq<Item>>)
    requires forall b :: 0 <= b < |batches| ==> batches[b] == []
    ensures Flatten(batches) == []
  {
    if batches != [] {
      FlattenNothing(batches[..|batches| - 1]);
    }
  }

  /** By switch, the batches whose number is at most k; the others are left empty. */
  ghost function Numbered(s: State, k: nat): (batches: seq<seq<Item>>)
    ensures |batches| == |s.retired|
    ensures forall b :: 0 <= b < |s.retired| ==>
              batches[b] == if 1 <= s.retired[b].number <= k then s.retired[b].items else []
  {
    seq(|s.retired|, b requires 0 <= b < |s.retired| =>
      if 1 <= s.retired[b].number <= k then s.retired[b].items else [])
  }

  /** By switch, the batches the reader has not taken; the others are left empty. */
  ghost function Pending(s: State): (batches: seq<seq<Item>>)
    ensures |batches| == |s.retired|
    ensures forall b :: 0 <= b < |s.retired| ==>
              batches[b] == if 1 <= s.retired[b].number < NextNumber(s) then [] else s.retired[b].items
  {
    seq(|s.retired|, b requires 0 <= b < |s.retired| =>
      if 1 <= s.retired[b].number < NextNumber(s) then [] else s.retired[b].items)
  }

  lemma NumberedGrows(s: State, k: nat)
    requires Issued(s) && 1 <= k <= |s.numbering|
    ensures NumberOk(s, k - 1)
    ensures var b := s.numbering[k - 1].batch;
            && Numbered(s, k - 1)[b] == []
            && Numbered(s, k) == Numbered(s, k - 1)[b := s.retired[b].items]
  {
    assert NumberOk(s, k - 1);
    var b := s.numbering[k - 1].batch;
    forall c | 0 <= c < |s.retired| && s.retired[c].number == k ensures c == b {
      assert BatchOk(s, c);
    }
  }

  lemma ByNumberGrows(s: State, k: nat)
    requires Issued(s) && 1 <= k <= |s.numbering|
    ensures NumberOk(s, k - 1)
    ensures Flatten(ByNumber(s, k))
            == Flatten(ByNumber(s, k - 1)) + s.retired[s.numbering[k - 1].batch].items
  {
    assert NumberOk(s, k - 1);
    assert ByNumber(s, k)[..k - 1] == ByNumber(s, k - 1);
  }

  lemma {:induction false} ByNumberIsNumbered(s: State, k: nat)
    requires Issued(s) && k <= |s.numbering|
    ensures multiset(Flatten(ByNumber(s, k))) == multiset(Flatten(Numbered(s, k)))
  {
    if k == 0 {
      FlattenNothing(Numbered(s, 0));
    } else {
      ByNumberIsNumbered(s, k - 1);
      ByNumberGrows(s, k);
      NumberedGrows(s, k);
      var b := s.numbering[k - 1].batch;
      FlattenUpdate(Numbered(s, k - 1), b, s.retired[b].items);
    }
  }

  /** Ring r holds all of batch b, which the reader has not taken. */
  ghost predicate HoldsPending(s: State, r: nat, b: nat)
    requires b < |s.retired|
  {
    && r in s.rings && r in s.owner
    && (s.owner[r].AtThread? || s.owner[r] == AtSpawned(b)
        || OnItsWay(s.owner[r], s.retired[b].number, b))
    && Holds(s.rings[r], 0, s.retired[b].items)
  }

  /** The ring of a batch that was not taken is on its way, and expected to hold the batch. */
  lemma PendingWhere(s: State, b: nat)
    requires Numbers(s) && b < |s.retired|
    requires !(1 <= s.retired[b].number < NextNumber(s))
    ensures var r := s.retired[b].ring;
            && r in s.owner
            && (s.owner[r].AtThread? || s.owner[r] == AtSpawned(b)
                || OnItsWay(s.owner[r], s.retired[b].number, b))
            && Expected(s, r) == Queue(0, s.retired[b].items)
  {
    assert BatchOk(s, b);
    if s.retired[b].number == 0 {
      assert Unnumbered(s, b);
    } else {
      assert NumberOk(s, s.retired[b].number - 1) && Underway(s, s.retired[b].number - 1);
    }
  }

  lemma PendingIsHeld(s: State, b: nat)
    requires Contents(s) && Numbers(s) && b < |s.retired|
    requires !(1 <= s.retired[b].number < NextNumber(s))
    ensures HoldsPending(s, s.retired[b].ring, b)
  {
    PendingWhere(s, b);
    assert Matches(s.rings[s.retired[b].ring], s.capacity, Expected(s, s.retired[b].ring));
  }

  /** Every written message is, as often as it was written, in exactly one of: the active ring,
      a retired ring that was not taken yet, the current ring, or the delivered stream; and each
      batch not taken yet sits whole in a ring held by the switching thread, by a hand-off
      goroutine, by the heap or by the reader. */
  lemma MessagesConserved(capacity: nat, threads: set<nat>, steps: seq<Step>)
    requires capacity < TWO31
    ensures var s := Run(Init(capacity, threads), steps);
            s.mode != ClosedState ==>
              && CurrentKnown(s)
              && multiset(s.written) == multiset(s.filling) + multiset(Flatten(Pending(s)))
                                        + multiset(Remaining(s)) + multiset(s.delivered)
              && s.active in s.rings && Holds(s.rings[s.active], 0, s.filling)
              && (s.current.Some? ==>
                    s.current.value in s.rings
                    && Holds(s.rings[s.current.value], s.consumed, Remaining(s)))
              && (forall b :: 0 <= b < |s.retired| && Pending(s)[b] != [] ==>
                    HoldsPending(s, s.retired[b].ring, b))
  {
    Reached(capacity, threads, steps);
    var s := Run(Init(capacity, threads), steps);
    if s.mode != ClosedState {
      Conserved(s);
      RingsOfStreams(s);
      forall b | 0 <= b < |s.retired| && Pending(s)[b] != []
        ensures HoldsPending(s, s.retired[b].ring, b)
      {
        PendingIsHeld(s, b);
      }
    }
  }

  /** A batch is either pending or among those taken. */
  lemma BatchesSplit(s: State)
    requires Issued(s)
    ensures multiset(Flatten(Batches(s.retired)))
            == multiset(Flatten(ByNumber(s, NextNumber(s) - 1))) + multiset(Flatten(Pending(s)))
  {
    var k := NextNumber(s) - 1;
    var all, taken, pending := Batches(s.retired), Numbered(s, k), Pending(s);
    ByNumberIsNumbered(s, k);
    forall b | 0 <= b < |all|
      ensures (taken[b] == all[b] && pending[b] == []) || (taken[b] == [] && pending[b] == all[b])
    {
      assert all[b] == s.retired[b].items;
    }
    FlattenSplit(all, taken, pending);
  }

  lemma Conserved(s: State)
    requires Issued(s) && Streams(s)
    ensures multiset(s.written) == multiset(s.filling) + multiset(Flatten(Pending(s)))
                                   + multiset(Remaining(s)) + multiset(s.delivered)
  {
    BatchesSplit(s);
    assert multiset(s.delivered + Remaining(s)) == multiset(s.delivered) + multiset(Remaining(s));
  }

  lemma RingsOfStreams(s: State)
    requires Owned(s) && Contents(s) && CurrentKnown(s)
    ensures s.active in s.rings && Holds(s.rings[s.active], 0, s.filling)
    ensures s.current.Some? ==> s.current.value in s.rings
                                && Holds(s.rings[s.current.value], s.consumed, Remaining(s))
  {
    assert Refers(s, AtActive, s.active);
    assert Matches(s.rings[s.active], s.capacity, Queue(0, s.filling));
    if s.current.Some? {
      assert Refers(s, AtCurrent, s.current.value);
      assert Matches(s.rings[s.current.value], s.capacity, Queue(s.consumed, Remaining(s)));
    }
  }
}
