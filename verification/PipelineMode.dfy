/** The mode word of the double buffer: switchChannel and Close race on one compare-and-swap. */
module PipelineMode {
  import opened Rings
  import opened Pipeline

  /** Between the compare-and-swap of switchChannel and its restoring store. */
  predicate InSwitch(pc: Thread) {
    pc.Sealing? || pc.Getting? || pc.Swapping? || pc.Spawning? || pc.Restoring?
  }

  /** Past the compare-and-swap of Close. */
  predicate InClose(pc: Thread) {
    pc.Stopping? || pc.Dropping? || pc.Draining?
  }

  /** The mode and the number of closed stop channels that go with the one busy thread. */
  predicate Agrees(mode: Status, stops: nat, pc: Thread) {
    && mode == (if InSwitch(pc) then SwitchingState
                else if InClose(pc) then ClosedState else WritingState)
    && stops == if pc.Dropping? || pc.Draining? then 1 else 0
  }

  predicate Busy(s: State, t: nat) {
    t in s.threads && s.threads[t] != Outside
  }

  /** At most one thread is past a compare-and-swap, and it determines the mode. */
  ghost predicate ModeInv(s: State) {
    && (forall t, u :: Busy(s, t) && Busy(s, u) ==> t == u)
    && (forall t :: Busy(s, t) ==> Agrees(s.mode, s.stops, s.threads[t]))
    && ((forall t :: !Busy(s, t)) ==> Agrees(s.mode, s.stops, Outside))
  }

  /** The busy thread, or a thread that finds none, moves on. */
  lemma MoveKeeps(s: State, t: State, x: nat, pc: Thread)
    requires ModeInv(s) && x in s.threads && t.threads == s.threads[x := pc]
    requires Busy(s, x) || s.mode == WritingState
    requires Agrees(t.mode, t.stops, pc)
    ensures ModeInv(t)
  {
    forall u | Busy(t, u) ensures u == x {
      if u != x {
        assert Busy(s, u);
      }
    }
    if pc != Outside {
      assert Busy(t, x);
    }
  }

  /** Steps of a thread inside switchChannel. */
  predicate OfSwitch(step: Step) {
    step.SealActive? || step.GetPooled? || step.GetNew? || step.Swap? || step.Spawn? || step.Restore?
  }

  /** Steps racing for the mode, and those of Close that a thread alone goes through. */
  predicate OfRace(step: Step) {
    step.TrySwitch? || step.TryClose? || step.CloseStop? || step.CloseDrop?
  }

  lemma SwitchStepKept(s: State, step: Step)
    requires ModeInv(s) && Enabled(s, step) && OfSwitch(step)
    ensures ModeInv(Do(s, step))
  {
    BusyMoveKeeps(s, Do(s, step), step.t, Do(s, step).threads[step.t]);
  }

  lemma RaceStepKept(s: State, step: Step)
    requires ModeInv(s) && Enabled(s, step) && OfRace(step)
    ensures ModeInv(Do(s, step))
  {
    var t := Do(s, step);
    match step
    case TrySwitch(x) => if s.mode == WritingState { MoveKeeps(s, t, x, Sealing); }
    case TryClose(x) => if s.mode == WritingState { MoveKeeps(s, t, x, Stopping); }
    case CloseStop(x) => BusyMoveKeeps(s, t, x, Dropping);
    case CloseDrop(x) => BusyMoveKeeps(s, t, x, Draining);
  }

  lemma OtherStepStays(s: State, step: Step)
    requires Enabled(s, step) && !OfSwitch(step) && !OfRace(step)
    ensures var t := Do(s, step);
            t.threads == s.threads && t.mode == s.mode && t.stops == s.stops && t.swaps == s.swaps
  {
  }

  lemma OtherStepKept(s: State, step: Step)
    requires ModeInv(s) && Enabled(s, step) && !OfSwitch(step) && !OfRace(step)
    ensures ModeInv(Do(s, step))
    ensures Do(s, step).mode == s.mode && Do(s, step).swaps == s.swaps
  {
    OtherStepStays(s, step);
    SameModeKept(s, Do(s, step));
  }

  lemma ModeKept(s: State, step: Step)
    requires ModeInv(s) && Enabled(s, step)
    ensures ModeInv(Do(s, step))
  {
    if OfSwitch(step) {
      SwitchStepKept(s, step);
    } else if OfRace(step) {
      RaceStepKept(s, step);
    } else {
      OtherStepKept(s, step);
    }
  }

  lemma BusyMoveKeeps(s: State, t: State, x: nat, pc: Thread)
    requires ModeInv(s) && Busy(s, x) && t.threads == s.threads[x := pc]
    requires Agrees(s.mode, s.stops, s.threads[x]) ==> Agrees(t.mode, t.stops, pc)
    ensures ModeInv(t)
  {
    MoveKeeps(s, t, x, pc);
  }

  lemma SameModeKept(s: State, t: State)
    requires ModeInv(s) && t.threads == s.threads && t.mode == s.mode && t.stops == s.stops
    ensures ModeInv(t)
  {
    assert forall x :: Busy(t, x) <==> Busy(s, x);
  }

  lemma {:induction false} ModeReached(capacity: nat, threads: set<nat>, steps: seq<Step>)
    ensures ModeInv(Run(Init(capacity, threads), steps))
  {
    if steps != [] {
      ModeReached(capacity, threads, steps[..|steps| - 1]);
      var before := Run(Init(capacity, threads), steps[..|steps| - 1]);
      if Enabled(before, steps[|steps| - 1]) {
        ModeKept(before, steps[|steps| - 1]);
      }
    }
  }

  lemma NoSwitchStepOnceClosed(s: State, step: Step)
    requires ModeInv(s) && s.mode == ClosedState && Enabled(s, step)
    ensures !OfSwitch(step)
  {
  }

  predicate OfClose(step: Step) {
    step.CloseStop? || step.CloseDrop? || step.CloseDrain?
  }

  lemma NoCloseStepWhileOpen(s: State, step: Step)
    requires ModeInv(s) && s.mode != ClosedState && Enabled(s, step)
    ensures !OfClose(step)
  {
  }

  lemma ClosedStepAbsorbs(s: State, step: Step)
    requires ModeInv(s) && s.mode == ClosedState
    ensures Next(s, step).mode == ClosedState && Next(s, step).swaps == s.swaps
  {
    if Enabled(s, step) {
      NoSwitchStepOnceClosed(s, step);
      if !OfRace(step) {
        OtherStepKept(s, step);
      }
    }
  }

  /** In every run the mode is Switching exactly while a single thread is between its
      compare-and-swap and the restoring store, and the stop channel is closed at most once. */
  lemma ModeDiscipline(capacity: nat, threads: set<nat>, steps: seq<Step>)
    ensures var s := Run(Init(capacity, threads), steps);
            && (s.mode == SwitchingState <==> exists t :: Busy(s, t) && InSwitch(s.threads[t]))
            && (s.mode == ClosedState <==> exists t :: Busy(s, t) && InClose(s.threads[t]))
            && (forall t, u :: Busy(s, t) && Busy(s, u) ==> t == u)
            && s.stops <= 1 && (s.stops == 1 ==> s.mode == ClosedState)
  {
    ModeReached(capacity, threads, steps);
    var s := Run(Init(capacity, threads), steps);
    if t :| Busy(s, t) {
      assert Agrees(s.mode, s.stops, s.threads[t]);
    }
  }

  /** Once closed, always closed, and no ring is swapped any more. */
  lemma {:induction false} ClosedIsForever(capacity: nat, threads: set<nat>,
                                           before: seq<Step>, after: seq<Step>)
    requires Run(Init(capacity, threads), before).mode == ClosedState
    ensures var s := Run(Init(capacity, threads), before);
            var t := Run(Init(capacity, threads), before + after);
            t.mode == ClosedState && t.swaps == s.swaps
  {
    if after == [] {
      assert before + after == before;
    } else {
      var front := after[..|after| - 1];
      ClosedIsForever(capacity, threads, before, front);
      assert (before + after)[..|before + after| - 1] == before + front;
      ModeReached(capacity, threads, before + front);
      ClosedStepAbsorbs(Run(Init(capacity, threads), before + front), after[|after| - 1]);
    }
  }
}
