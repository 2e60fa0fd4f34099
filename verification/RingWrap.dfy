/** How long the ring is a queue: for every schedule if the capacity divides 2^32, and otherwise up
    to the first wrap of the head index, where a store can hit an occupied slot. */
module RingWrap {
  import opened RingIndex
  import opened Rings
  import opened RingSteps
  import opened RingFifo
  import opened RingRaces

  lemma {:induction false} ClaimsAtMostSteps(capacity: nat, ps: set<nat>, cs: set<nat>, steps: seq<Step>)
    requires capacity > 0
    ensures Run(Init(capacity, ps, cs), steps).claimedIn <= |steps|
  {
    if steps != [] {
      ClaimsAtMostSteps(capacity, ps, cs, steps[..|steps| - 1]);
    }
  }

  /** Every run is safe at a capacity that divides 2^32, and every run of at most 2^31 + 1 steps at
      any capacity. */
  lemma ShortRunsAreSafe(capacity: nat, ps: set<nat>, cs: set<nat>, steps: seq<Step>)
    requires 0 < capacity && (TWO32 % capacity == 0 || |steps| <= TWO31 + 1)
    ensures SafeRun(Init(capacity, ps, cs), steps)
  {
    forall k | 0 <= k <= |steps| ensures Safe(Run(Init(capacity, ps, cs), steps[..k])) {
      ClaimsAtMostSteps(capacity, ps, cs, steps[..k]);
    }
  }

  lemma {:induction false} ClaimsGrow(s: System, steps: seq<Step>, k: nat)
    requires |s.ring.buf| > 0 && Reset !in steps && k <= |steps|
    ensures Run(s, steps[..k]).claimedIn <= Run(s, steps).claimedIn
  {
    if k < |steps| {
      var front := steps[..|steps| - 1];
      ClaimsGrow(s, front, k);
      assert front[..k] == steps[..k];
    } else {
      assert steps[..k] == steps;
    }
  }

  // ---------- a run up to the first wrap ----------

  /** Nobody is inside Push or Pop, and the ring holds n items. */
  ghost predicate Settled(s: System, p: nat, c: nat, n: nat) {
    && Open(s, n) && p in s.producers
    && c in s.consumers && s.consumers[c] == CIdle
  }

  /** One item goes through the ring. */
  lemma Round(s: System, p: nat, c: nat) returns (steps: seq<Step>)
    requires Settled(s, p, c, 0) && |s.ring.buf| < TWO31
    ensures Settled(Run(s, steps), p, c, 0) && Reset !in steps
    ensures |Run(s, steps).published| == |s.published| + 1
    ensures |Run(s, steps).returned| == |s.returned| + 1
  {
    var push := Fill(s, p, 1);
    var t := Run(s, push);
    var commit := CommitPop(t, c);
    var u := Run(t, commit);
    var pop := FinishPop(u, c);
    RunAppend(s, push, commit);
    RunAppend(s, push + commit, pop);
    steps := push + commit + pop;
  }

  lemma {:induction false} Rounds(s: System, p: nat, c: nat, k: nat) returns (steps: seq<Step>)
    requires Settled(s, p, c, 0) && |s.ring.buf| < TWO31
    ensures Settled(Run(s, steps), p, c, 0) && Reset !in steps
    ensures |Run(s, steps).published| == |s.published| + k
    ensures |Run(s, steps).returned| == |s.returned| + k
  {
    if k == 0 {
      steps := [];
    } else {
      var before := Rounds(s, p, c, k - 1);
      var last := Round(Run(s, before), p, c);
      RunAppend(s, before, last);
      steps := before + last;
    }
  }

  /** The head index is about to wrap and the ring holds n items. */
  lemma UpToTheWrap(capacity: nat, p: nat, c: nat, n: nat) returns (steps: seq<Step>)
    requires 0 < n < capacity < TWO31
    ensures Reset !in steps
    ensures var s := Run(Init(capacity, {p}, {c}), steps);
            Settled(s, p, c, n) && |s.published| == TWO31 + 1 && |s.returned| == TWO31 + 1 - n
  {
    var init := Init(capacity, {p}, {c});
    var rounds := Rounds(init, p, c, TWO31 + 1 - n);
    var fill := Fill(Run(init, rounds), p, n);
    RunAppend(init, rounds, fill);
    steps := rounds + fill;
  }

  lemma ClaimSteps(s: System, p: nat)
    requires |s.ring.buf| > 0 && p in s.producers && s.producers[p] == PLoadHead(ITEM)
    ensures Run(s, [PushStep(p), PushStep(p)])
            == s.(ring := s.ring.(head := Wrap32(s.ring.head + 1)), claimedIn := s.claimedIn + 1,
                  producers := s.producers[p := PProbe(ITEM, s.ring.head, 0)])
  {
    var s1 := s.(producers := s.producers[p := PCas(ITEM, s.ring.head)]);
    assert Next(s, PushStep(p)) == s1;
    assert s1.producers[p := PProbe(ITEM, s.ring.head, 0)] == s.producers[p := PProbe(ITEM, s.ring.head, 0)];
    RunTwo(s, PushStep(p), PushStep(p));
  }

  /** An idle producer claims the next slot of a ring with room. */
  lemma ClaimNext(s: System, p: nat) returns (steps: seq<Step>)
    requires |s.ring.buf| > 0 && p in s.producers && s.producers[p] == PIdle
    requires s.ring.state != ReadOnly && s.ring.count < |s.ring.buf|
    ensures var t := Run(s, steps);
            && p in t.producers && t.producers[p] == PProbe(ITEM, s.ring.head, 0)
            && t.ring.buf == s.ring.buf && t.published == s.published && t.returned == s.returned
  {
    var admit := AdmitPush(s, p);
    ClaimSteps(Run(s, admit), p);
    RunAppend(s, admit, [PushStep(p), PushStep(p)]);
    steps := admit + [PushStep(p), PushStep(p)];
  }

  lemma ProbeOnce(s: System, p: nat, item: Item, at: int, i: nat)
    requires |s.ring.buf| > 0 && p in s.producers && s.producers[p] == PProbe(item, at, i) && i <= 2
    requires 0 <= CalcPos(at, |s.ring.buf|) < |s.ring.buf|
    requires s.ring.buf[CalcPos(at, |s.ring.buf|)].ptr != 0
    ensures Next(s, PushStep(p))
            == s.(producers := s.producers[p := if i == 2 then PStore(item, at) else PProbe(item, at, i + 1)])
  {
  }

  /** Its retry loop gives up on an occupied slot. */
  lemma ProbeInVain(s: System, p: nat, item: Item, at: int)
    requires |s.ring.buf| > 0 && p in s.producers && s.producers[p] == PProbe(item, at, 0)
    requires 0 <= CalcPos(at, |s.ring.buf|) < |s.ring.buf|
    requires s.ring.buf[CalcPos(at, |s.ring.buf|)].ptr != 0
    ensures Run(s, [PushStep(p)] + [PushStep(p), PushStep(p)])
            == s.(producers := s.producers[p := PStore(item, at)])
  {
    ProbeOnce(s, p, item, at, 0);
    var s1 := s.(producers := s.producers[p := PProbe(item, at, 1)]);
    ProbeOnce(s1, p, item, at, 1);
    var s2 := s.(producers := s.producers[p := PProbe(item, at, 2)]);
    assert s1.producers[p := PProbe(item, at, 2)] == s2.producers;
    ProbeOnce(s2, p, item, at, 2);
    assert s2.producers[p := PStore(item, at)] == s.producers[p := PStore(item, at)];
    RunTwo(s1, PushStep(p), PushStep(p));
    RunCons(s, PushStep(p), [PushStep(p), PushStep(p)]);
  }

  /** At the wrap the next claim shares the slot of the oldest of `2^32 % capacity` live items. */
  lemma OldestSharesSlot(s: System, p: nat, c: nat, d: nat)
    requires Paired(s, p, c) && FifoInv(s, p, c) && Settled(s, p, c, d)
    requires d == TWO32 % |s.ring.buf| && 0 < d
    requires |s.published| == TWO31 + 1 && |s.returned| == TWO31 + 1 - d
    ensures 0 <= CalcPos(s.ring.head, |s.ring.buf|) < |s.ring.buf| && Queue(s) != []
    ensures s.ring.buf[CalcPos(s.ring.head, |s.ring.buf|)] == Queue(s)[0] && Queue(s)[0].ptr != 0
  {
    var capacity, oldest := |s.ring.buf|, TWO31 + 1 - d;
    FirstWrappedSlot(capacity);
    SlotIsRemainder(oldest, capacity);
    assert CalcPos(s.ring.head, capacity) == Slot(TWO31 + 1, capacity) == Slot(oldest, capacity);
    assert Stored(s, p) == Items(s.published);
    assert s.ring.buf[Slot(oldest, capacity)] == Stored(s, p)[oldest..][0] == s.published[oldest].item;
  }

  ghost predicate Behaves(capacity: nat, p: nat, c: nat, steps: seq<Step>)
    requires capacity > 0
  {
    var s := Run(Init(capacity, {p}, {c}), steps);
    Paired(s, p, c) && QueueBehaves(s, p, c)
  }

  /** The producer is about to store over the oldest item of the queue. */
  ghost predicate Overwrites(capacity: nat, p: nat, c: nat, steps: seq<Step>)
    requires capacity > 0
  {
    var s := Run(Init(capacity, {p}, {c}), steps);
    && p in s.producers && s.producers[p].PStore?
    && |s.returned| < |s.published| && Queue(s)[0].ptr != 0
    && 0 <= CalcPos(s.producers[p].at, capacity) < |s.ring.buf|
    && s.ring.buf[CalcPos(s.producers[p].at, capacity)] == Queue(s)[0]
  }

  lemma OverwritesAtTheWrap(capacity: nat, p: nat, c: nat) returns (steps: seq<Step>)
    requires 0 < capacity < TWO31 && TWO32 % capacity != 0
    ensures Overwrites(capacity, p, c, steps)
  {
    var init, d := Init(capacity, {p}, {c}), TWO32 % capacity;
    var before := UpToTheWrap(capacity, p, c, d);
    var s := Run(init, before);
    Accounting(capacity, {p}, {c}, before);
    assert Those(s.producers, FLYING) == {};
    forall k | 0 <= k <= |before| ensures Safe(Run(init, before[..k])) {
      ClaimsGrow(init, before, k);
    }
    FifoReached(capacity, p, c, before);
    OldestSharesSlot(s, p, c, d);
    var claim := ClaimNext(s, p);
    var probe := [PushStep(p)] + [PushStep(p), PushStep(p)];
    ProbeInVain(Run(s, claim), p, ITEM, s.ring.head);
    RunAppend(init, before, claim);
    RunAppend(init, before + claim, probe);
    steps := before + claim + probe;
  }

  /** The ring is a FIFO queue along every schedule of one producer and one consumer if and only if
      its capacity divides 2^32; if not, some schedule ends in a store over the oldest item. */
  lemma {:induction false} FifoForeverIff(capacity: nat, p: nat, c: nat)
    requires 0 < capacity < TWO31
    ensures (forall steps :: Behaves(capacity, p, c, steps)) <==> TWO32 % capacity == 0
    ensures (exists steps :: Overwrites(capacity, p, c, steps)) <==> TWO32 % capacity != 0
  {
    if TWO32 % capacity == 0 {
      forall steps ensures Behaves(capacity, p, c, steps) && !Overwrites(capacity, p, c, steps) {
        ShortRunsAreSafe(capacity, {p}, {c}, steps);
        RefinesFifo(capacity, p, c, steps);
      }
    } else {
      var steps := OverwritesAtTheWrap(capacity, p, c);
      assert !Behaves(capacity, p, c, steps);
    }
  }

  /** Every capacity is fine for the first 2^31 + 1 steps. */
  lemma FifoBeforeTheWrap(capacity: nat, p: nat, c: nat, steps: seq<Step>)
    requires 0 < capacity < TWO31 && |steps| <= TWO31 + 1
    ensures Behaves(capacity, p, c, steps)
  {
    ShortRunsAreSafe(capacity, {p}, {c}, steps);
    RefinesFifo(capacity, p, c, steps);
  }
}
