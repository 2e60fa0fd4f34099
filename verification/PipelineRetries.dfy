/** The three attempts of pickBufferFromHeap (double_buffer.go, lines 304-326), while goroutines go
    on pushing rings between them. */
module PipelineRetries {
  import opened Rings
  import opened Pipeline
  import opened PipelineInv
  import opened PipelineRuns
  import opened PipelineTheorems

  /** The picked ring is not the one whose turn it is. */
  predicate Fails(s: State, step: Step) {
    step == Compare && s.reader.Comparing? && s.reader.hand.number != s.currentSequence
  }

  ghost function Failures(s: State, steps: seq<Step>): nat {
    if steps == [] then 0
    else Failures(s, steps[..|steps| - 1])
         + if Fails(Run(s, steps[..|steps| - 1]), steps[|steps| - 1]) then 1 else 0
  }

  /** What the reader is doing in the call that began to pick, after so many failures. */
  predicate StillPicking(s: State, failures: nat) {
    s.current.None? ==>
      if failures >= 3 then failures == 3 && s.reader == Between
      else s.reader == Picking(failures) || (s.reader.Comparing? && s.reader.tries == failures)
  }

  lemma StillPickingKept(s: State, step: Step, failures: nat)
    requires StillPicking(s, failures) && step != PickNothing && step != BeginRead
    ensures StillPicking(Next(s, step), failures + if Fails(s, step) then 1 else 0)
  {
  }

  /** Unless the heap is found empty, the reader gives up exactly at its third failure. */
  lemma {:induction false} ThreeAttempts(s: State, steps: seq<Step>)
    requires s.current.None? && s.reader == Picking(0) && PickNothing !in steps && BeginRead !in steps
    ensures StillPicking(Run(s, steps), Failures(s, steps))
  {
    if steps != [] {
      ThreeAttempts(s, steps[..|steps| - 1]);
      StillPickingKept(Run(s, steps[..|steps| - 1]), steps[|steps| - 1], Failures(s, steps[..|steps| - 1]));
    }
  }

  lemma RunContinues(s: State, a: seq<Step>, b: Step, c: Step)
    ensures Run(s, a + [b] + [c]) == Next(Next(Run(s, a), b), c)
  {
    assert (a + [b])[..|a|] == a && (a + [b] + [c])[..|a| + 1] == a + [b];
  }

  lemma TakenNow(t: State, hand: Hand, ring: nat, batch: nat)
    requires PipeInv(t) && t.reader.Picking? && Least(hand, t.heap)
    requires Hand(t.currentSequence, Job(ring, batch)) in t.heap
    ensures var t' := Next(Next(t, Pick(hand)), Compare);
            t'.current == Some(ring) && t'.reader == Counting
  {
    PickFindsTheNext(t, hand, ring, batch);
  }

  /** A ring that reaches the heap before the third attempt is taken by that same read: in any run,
      if no more than two attempts have failed and the ring whose turn it is is in the heap when
      the reader looks again, whatever it picks is that ring, and it becomes the current one. */
  lemma {:induction false} LateRingIsTaken(capacity: nat, threads: set<nat>, before: seq<Step>,
                                           steps: seq<Step>, hand: Hand, ring: nat, batch: nat)
    requires capacity < 0x8000_0000
    requires var s := Run(Init(capacity, threads), before);
             s.current.None? && s.reader == Picking(0)
    requires PickNothing !in steps && BeginRead !in steps
    requires var s := Run(Init(capacity, threads), before);
             var t := Run(s, steps);
             && Failures(s, steps) < 3 && t.current.None? && !t.reader.Comparing? && t.mode != ClosedState
             && Hand(t.currentSequence, Job(ring, batch)) in t.heap && Least(hand, t.heap)
    ensures var s := Run(Init(capacity, threads), before);
            var t := Run(s, steps + [Pick(hand)] + [Compare]);
            t.current == Some(ring) && t.reader == Counting
  {
    var s := Run(Init(capacity, threads), before);
    ThreeAttempts(s, steps);
    RunAppend(Init(capacity, threads), before, steps);
    Reached(capacity, threads, before + steps);
    TakenNow(Run(s, steps), hand, ring, batch);
    RunContinues(s, steps, Pick(hand), Compare);
  }
}
