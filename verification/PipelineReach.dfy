/** The states of the pipeline that some run reaches, as one predicate. */
module PipelineReach {
  import opened RingIndex
  import opened Rings
  import opened Pipeline
  import opened PipelineMode
  import opened PipelineInv
  import opened PipelineRuns
  import opened PipelineTheorems

  /** A set of states that contains the initial one and that no step leaves. */
  ghost predicate Inductive(capacity: nat, threads: set<nat>, inv: iset<State>) {
    && Init(capacity, threads) in inv
    && forall s, step :: s in inv ==> Next(s, step) in inv
  }

  ghost predicate Reachable(capacity: nat, threads: set<nat>, s: State) {
    forall inv :: Inductive(capacity, threads, inv) ==> s in inv
  }

  lemma NextReachable(capacity: nat, threads: set<nat>, s: State, step: Step)
    requires Reachable(capacity, threads, s)
    ensures Reachable(capacity, threads, Next(s, step))
  {
  }

  predicate Reaches(capacity: nat, threads: set<nat>, steps: seq<Step>, s: State) {
    s == Run(Init(capacity, threads), steps)
  }

  ghost predicate EndsRun(capacity: nat, threads: set<nat>, s: State) {
    exists steps :: Reaches(capacity, threads, steps, s)
  }

  /** The reachable states are those that some run ends in. */
  lemma ReachableIffRun(capacity: nat, threads: set<nat>, s: State)
    ensures Reachable(capacity, threads, s) <==> EndsRun(capacity, threads, s)
  {
    var ends := iset t | EndsRun(capacity, threads, t);
    assert Inductive(capacity, threads, ends) by {
      assert Reaches(capacity, threads, [], Init(capacity, threads));
      forall t, step | t in ends ensures Next(t, step) in ends {
        var steps :| Reaches(capacity, threads, steps, t);
        assert (steps + [step])[..|steps|] == steps;
        assert Reaches(capacity, threads, steps + [step], Next(t, step));
      }
    }
    if EndsRun(capacity, threads, s) {
      var steps :| Reaches(capacity, threads, steps, s);
      RunReachable(capacity, threads, steps);
    }
  }

  lemma {:induction false} RunReachable(capacity: nat, threads: set<nat>, steps: seq<Step>)
    ensures Reachable(capacity, threads, Run(Init(capacity, threads), steps))
  {
    if steps != [] {
      var front := steps[..|steps| - 1];
      RunReachable(capacity, threads, front);
      NextReachable(capacity, threads, Run(Init(capacity, threads), front), steps[|steps| - 1]);
    }
  }

  /** What one call on the double buffer may take for granted. */
  lemma ReachableFacts(capacity: nat, threads: set<nat>, s: State)
    requires capacity < TWO31 && Reachable(capacity, threads, s)
    ensures ModeInv(s)
    ensures s.mode != ClosedState ==> PipeInv(s)
  {
    ReachableIffRun(capacity, threads, s);
    var steps :| Reaches(capacity, threads, steps, s);
    Reached(capacity, threads, steps);
    ModeReached(capacity, threads, steps);
  }

  /** Before Close the active ring holds what is being filled, the passive ring is another one and
      new, and the reader's ring is neither. */
  lemma OpenRings(capacity: nat, threads: set<nat>, s: State)
    requires capacity < TWO31 && Reachable(capacity, threads, s) && s.mode != ClosedState
    ensures s.active in s.rings && Holds(s.rings[s.active], 0, s.filling)
    ensures s.rings[s.active].count == |s.filling|
    ensures s.passive in s.rings && s.passive != s.active && s.rings[s.passive] == NewRing(s.capacity)
    ensures s.current.Some? ==> s.current.value != s.active
    ensures s.pool <= s.rings.Keys && s.active !in s.pool && s.passive !in s.pool
    ensures forall r :: r in s.pool ==> s.rings[r] == NewRing(s.capacity)
  {
    ReachableFacts(capacity, threads, s);
    InvGivesOneOwner(s);
    RingsOfStreams(s);
    assert Refers(s, AtActive, s.active) && Refers(s, AtPassive, s.passive);
    assert s.current.Some? ==> Refers(s, AtCurrent, s.current.value);
    forall r | r in s.pool ensures IsNew(s, r) && r != s.active && r != s.passive {
      assert Refers(s, AtPool, r);
    }
  }

  /** The threads outside switchChannel and Close are all there are, or all but one. */
  lemma ModeFacts(capacity: nat, threads: set<nat>, s: State)
    requires capacity < TWO31 && Reachable(capacity, threads, s)
    ensures s.mode == WritingState || s.mode == SwitchingState || s.mode == ClosedState
    ensures s.mode == WritingState ==> forall t :: t in s.threads ==> s.threads[t] == Outside
    ensures forall t :: t in s.threads && s.threads[t] == Sealing ==> s.mode == SwitchingState
  {
    ReachableFacts(capacity, threads, s);
    forall t | t in s.threads && s.threads[t] == Sealing ensures s.mode == SwitchingState {
      assert Busy(s, t);
    }
    if s.mode == WritingState {
      forall t | t in s.threads ensures s.threads[t] == Outside {
        if s.threads[t] != Outside { assert Busy(s, t); }
      }
    }
  }

  lemma CurrentIsNotActive(capacity: nat, threads: set<nat>, s: State)
    requires capacity < TWO31 && Reachable(capacity, threads, s) && s.mode != ClosedState
    ensures s.current != Some(s.active)
  {
    OpenRings(capacity, threads, s);
  }

  lemma ActiveLength(capacity: nat, threads: set<nat>, s: State)
    requires capacity < TWO31 && Reachable(capacity, threads, s) && s.mode != ClosedState
    ensures s.active in s.rings && s.rings[s.active].count == |s.filling|
  {
    OpenRings(capacity, threads, s);
  }

  lemma SealingFacts(capacity: nat, threads: set<nat>, s: State, t: nat)
    requires capacity < TWO31 && Reachable(capacity, threads, s)
    requires t in s.threads && s.threads[t] == Sealing
    ensures s.mode == SwitchingState && s.passive != s.active
    ensures s.active in s.rings && s.passive in s.rings && s.rings[s.passive] == NewRing(s.capacity)
    ensures s.active !in s.pool && s.passive !in s.pool
    ensures forall r :: r in s.pool ==> r in s.rings && s.rings[r] == NewRing(s.capacity)
  {
    ModeFacts(capacity, threads, s);
    OpenRings(capacity, threads, s);
  }

  // ---------- the schedules of single calls ----------

  /** Lines 204 and 223: a push on the active ring that left the rings as given. */
  function Wrote(s: State, item: Item, rings: map<nat, Ring>, ok: bool): State {
    if ok then s.(rings := rings, filling := s.filling + [item], written := s.written + [item])
    else s.(rings := rings)
  }

  lemma WriteReachable(capacity: nat, threads: set<nat>, s: State, item: Item)
    requires Reachable(capacity, threads, s)
    requires item.ptr != 0 && s.active in s.rings && s.rings[s.active].Wf()
    ensures var (r, ok) := s.rings[s.active].Write(item);
            Reachable(capacity, threads, Wrote(s, item, s.rings[s.active := r], ok))
  {
    NextReachable(capacity, threads, s, Write(item));
  }

  /** Lines 265-284: the sealed active ring is on its way to the heap, the passive ring is active,
      and newRing, taken from the pool or new, is passive. */
  predicate Switched(s: State, t: nat, newRing: nat, s': State) {
    && s.active in s.rings
    && s' == s.(rings := s.rings[s.active := s.rings[s.active].(state := ReadOnly)]
                                [newRing := NewRing(s.capacity)],
                pool := s.pool - {newRing},
                active := s.passive, passive := newRing,
                threads := s.threads[t := Outside], mode := WritingState,
                swaps := s.swaps + 1, owner := s'.owner,
                retired := s.retired + [Retired(s.filling, s.active, 0)], filling := [],
                spawned := s.spawned + {Job(s.active, |s.retired|)})
  }

  lemma SwitchReachable(capacity: nat, threads: set<nat>, s: State, t: nat, newRing: nat)
    returns (s': State)
    requires Reachable(capacity, threads, s)
    requires t in s.threads && s.threads[t] == Sealing && s.active in s.rings
    requires newRing != s.active
    requires if newRing in s.rings then newRing in s.pool && s.rings[newRing] == NewRing(s.capacity)
             else newRing !in s.pool
    ensures Reachable(capacity, threads, s') && Switched(s, t, newRing, s')
  {
    var s1 := Next(s, SealActive(t));
    var get := if newRing in s.rings then GetPooled(t, newRing) else GetNew(t, newRing);
    var s2 := Next(s1, get);
    NextReachable(capacity, threads, s, SealActive(t));
    NextReachable(capacity, threads, s1, get);
    assert s1.rings == s.rings[s.active := s.rings[s.active].(state := ReadOnly)];
    assert s2.rings == s1.rings[newRing := NewRing(s.capacity)];
    assert s2.pool == s.pool - {newRing};
    s' := SwapReachable(capacity, threads, s2, t);
    assert s'.threads == s.threads[t := Outside];
  }

  lemma SwapReachable(capacity: nat, threads: set<nat>, s: State, t: nat) returns (s': State)
    requires Reachable(capacity, threads, s) && t in s.threads && s.threads[t].Swapping?
    ensures Reachable(capacity, threads, s')
    ensures s' == s.(active := s.passive, passive := s.threads[t].newRing,
                     threads := s.threads[t := Outside], mode := WritingState,
                     swaps := s.swaps + 1, owner := s'.owner,
                     retired := s.retired + [Retired(s.filling, s.active, 0)], filling := [],
                     spawned := s.spawned + {Job(s.active, |s.retired|)})
  {
    var s1 := Next(s, Swap(t));
    NextReachable(capacity, threads, s, Swap(t));
    var s2 := Next(s1, Spawn(t));
    NextReachable(capacity, threads, s1, Spawn(t));
    NextReachable(capacity, threads, s2, Restore(t));
    s' := Next(s2, Restore(t));
    assert s'.threads == s.threads[t := Outside];
  }

  /** Line 272: a goroutine numbers its ring ... */
  predicate NumberTaken(s: State, job: Job, s': State)
    requires job.batch < |s.retired|
  {
    var n := s.sequence + 1;
    s' == s.(sequence := n, spawned := s.spawned - {job}, numbered := s.numbered + {Hand(n, job)},
             owner := s'.owner, numbering := s.numbering + [job],
             retired := s.retired[job.batch := s.retired[job.batch].(number := n)])
  }

  lemma NumberReachable(capacity: nat, threads: set<nat>, s: State, job: Job) returns (s': State)
    requires Reachable(capacity, threads, s)
    requires job in s.spawned && job.batch < |s.retired|
    ensures Reachable(capacity, threads, s') && NumberTaken(s, job, s')
  {
    NextReachable(capacity, threads, s, TakeNumber(job));
    s' := Next(s, TakeNumber(job));
  }

  /** ... and, line 273, pushes it. */
  predicate HandPushed(s: State, hand: Hand, s': State) {
    s' == s.(numbered := s.numbered - {hand}, heap := s.heap + {hand}, owner := s'.owner)
  }

  lemma PushReachable(capacity: nat, threads: set<nat>, s: State, hand: Hand) returns (s': State)
    requires Reachable(capacity, threads, s) && hand in s.numbered
    ensures Reachable(capacity, threads, s') && HandPushed(s, hand, s')
  {
    NextReachable(capacity, threads, s, PushHand(hand));
    s' := Next(s, PushHand(hand));
  }

  /** Lines 480-486. */
  predicate Recycled(s: State, s': State) {
    && (s.current.Some? ==> s.current.value in s.rings)
    && s' == if s.current.None? then s.(reader := Picking(0))
             else if s.rings[s.current.value].count != 0 then s.(reader := Reading)
             else s.(rings := s.rings[s.current.value := s.rings[s.current.value].Reset()],
                     current := None, pool := s.pool + {s.current.value},
                     owner := s'.owner, reader := Picking(0))
  }

  lemma BeginReadReachable(capacity: nat, threads: set<nat>, s: State) returns (s': State)
    requires Reachable(capacity, threads, s)
    requires s.reader == Between && (s.current.Some? ==> s.current.value in s.rings)
    ensures Reachable(capacity, threads, s') && Recycled(s, s')
  {
    NextReachable(capacity, threads, s, BeginRead);
    s' := Next(s, BeginRead);
  }

  /** Lines 309-322: hand is taken if its turn has come, and else put back. */
  predicate Compared(s: State, hand: Hand, s': State)
    requires s.reader.Picking?
  {
    s' == if hand.number == s.currentSequence
          then s.(heap := s.heap - {hand}, current := Some(hand.job.ring), consumed := 0,
                  currentSequence := s.currentSequence + 1, reader := Reading, owner := s'.owner)
          else s.(reader := if s.reader.tries + 1 < MAX_RETIRES then Picking(s.reader.tries + 1)
                            else Between, owner := s'.owner)
  }

  lemma PickReachable(capacity: nat, threads: set<nat>, s: State, hand: Hand) returns (s': State)
    requires Reachable(capacity, threads, s)
    requires s.reader.Picking? && Least(hand, s.heap)
    ensures Reachable(capacity, threads, s') && Compared(s, hand, s')
  {
    var s1 := Next(s, Pick(hand));
    var s2 := Next(s1, Compare);
    NextReachable(capacity, threads, s, Pick(hand));
    NextReachable(capacity, threads, s1, Compare);
    if hand.number == s.currentSequence {
      NextReachable(capacity, threads, s2, Count);
      s' := Next(s2, Count);
    } else {
      s' := s2;
      assert s.heap - {hand} + {hand} == s.heap;
    }
  }

  lemma PickNothingReachable(capacity: nat, threads: set<nat>, s: State)
    requires Reachable(capacity, threads, s) && s.reader.Picking? && s.heap == {}
    ensures Reachable(capacity, threads, s.(reader := Between))
  {
    NextReachable(capacity, threads, s, PickNothing);
  }

  lemma RefuseReadReachable(capacity: nat, threads: set<nat>, s: State)
    requires Reachable(capacity, threads, s) && s.reader == Reading
    ensures Reachable(capacity, threads, s.(reader := Between))
  {
    NextReachable(capacity, threads, s, RefuseRead);
  }

  lemma ReadItemReachable(capacity: nat, threads: set<nat>, s: State)
    requires Reachable(capacity, threads, s)
    requires s.reader == Reading && s.current.Some? && s.current.value in s.rings
    requires s.rings[s.current.value].Wf()
    ensures var (r, item) := s.rings[s.current.value].Pop();
            Reachable(capacity, threads,
              Popped(s, s.rings[s.current.value := r], item))
  {
    NextReachable(capacity, threads, s, ReadItem);
  }

  function Popped(s: State, rings: map<nat, Ring>, item: Item): State {
    if item.ptr == 0 then s.(rings := rings, reader := Between)
    else s.(rings := rings, reader := Between,
            delivered := s.delivered + [item], consumed := s.consumed + 1)
  }

  lemma DropReachable(capacity: nat, threads: set<nat>, s: State, t: nat)
    requires Reachable(capacity, threads, s) && t in s.threads && s.threads[t] == Dropping
    ensures Reachable(capacity, threads, Move(s, t, Draining).(pool := s.pool + {s.active, s.passive}))
  {
    NextReachable(capacity, threads, s, CloseDrop(t));
  }

  /** Lines 530-541. */
  lemma CloseReachable(capacity: nat, threads: set<nat>, s: State, t: nat) returns (s': State)
    requires Reachable(capacity, threads, s)
    requires t in s.threads && s.threads[t] == Outside && s.mode == WritingState
    ensures Reachable(capacity, threads, s')
    ensures s' == s.(mode := ClosedState, threads := s.threads[t := Draining],
                     stops := s.stops + 1, pool := s.pool + {s.active, s.passive})
  {
    var s1 := Move(s, t, Stopping).(mode := ClosedState);
    NextReachable(capacity, threads, s, TryClose(t));
    var s2 := Move(s1, t, Dropping).(stops := s.stops + 1);
    NextReachable(capacity, threads, s1, CloseStop(t));
    DropReachable(capacity, threads, s2, t);
    s' := Move(s2, t, Draining).(pool := s.pool + {s.active, s.passive});
    assert s'.threads == s.threads[t := Draining];
  }

  /** Lines 521-526. */
  lemma DrainReachable(capacity: nat, threads: set<nat>, s: State, t: nat, hand: Hand)
    requires Reachable(capacity, threads, s)
    requires t in s.threads && s.threads[t] == Draining && Least(hand, s.heap)
    ensures Reachable(capacity, threads,
              s.(heap := s.heap - {hand}, pool := s.pool + {hand.job.ring}))
  {
    NextReachable(capacity, threads, s, CloseDrain(t, hand));
  }
}
