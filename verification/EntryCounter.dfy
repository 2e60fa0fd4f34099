/** The entry counter of the double buffer (double_buffer.go), which writers raise in a step of its
    own after the push, and a switch zeroes in a step of its own after the swap. */
module EntryCounter {

  datatype State = State(
    length: nat,        // of the active ring
    counter: int,
    now: nat,           // writers that pushed to the active ring and have not counted yet
    before: nat,        // writers that pushed to an earlier one and have not counted yet
    zeroing: bool,      // a switch has swapped the rings and not zeroed the counter yet
    // history
    added: nat,         // counted for the active ring
    lost: nat,          // of those, before the counter was zeroed
    late: nat,          // counted for earlier rings since the counter was zeroed
    stale: nat)         // writers that had still to count for earlier rings when it was

  datatype Step = Push | CountNow | CountBefore | Swap | Zero

  const INIT := State(0, 0, 0, 0, false, 0, 0, 0, 0)

  /** A step that cannot be taken changes nothing. */
  function Next(s: State, step: Step): State {
    match step
    case Push => s.(length := s.length + 1, now := s.now + 1)
    case CountNow =>
      if s.now == 0 then s
      else s.(counter := s.counter + 1, now := s.now - 1, added := s.added + 1)
    case CountBefore =>
      if s.before == 0 then s
      else s.(counter := s.counter + 1, before := s.before - 1, late := s.late + 1)
    case Swap =>
      if s.zeroing then s
      else s.(length := 0, before := s.before + s.now, now := 0, added := 0, zeroing := true)
    case Zero =>
      if !s.zeroing then s
      else s.(counter := 0, lost := s.added, late := 0, stale := s.before, zeroing := false)
  }

  function Run(steps: seq<Step>): State {
    if steps == [] then INIT else Next(Run(steps[..|steps| - 1]), steps[|steps| - 1])
  }

  predicate Inv(s: State) {
    && s.length == s.added + s.now
    && (!s.zeroing ==> s.counter == s.added - s.lost + s.late && s.late + s.before == s.stale)
  }

  lemma {:induction false} Reached(steps: seq<Step>)
    ensures Inv(Run(steps))
  {
    if steps != [] {
      Reached(steps[..|steps| - 1]);
    }
  }

  /** Outside the two steps of a switch, the counter exceeds the length of the active ring by the
      late counts for earlier rings, less the writers still to count and the counts that were zeroed
      away.  It is above by no more than the writers that were between push and count when it was
      zeroed, and exact if and only if the three cancel out. */
  lemma CounterIsOffBy(steps: seq<Step>)
    ensures var s := Run(steps);
            !s.zeroing ==>
              && s.counter - s.length == s.late - s.now - s.lost
              && s.length - s.now - s.lost <= s.counter <= s.length + s.stale
              && (s.counter == s.length <==> s.late == s.now + s.lost)
  {
    Reached(steps);
  }

  lemma RunSnoc(steps: seq<Step>, step: Step)
    ensures Run(steps + [step]) == Next(Run(steps), step)
  {
    assert (steps + [step])[..|steps|] == steps;
  }

  /** So it can stay off with no writer between push and count: one that counts after a switch
      leaves it too high until the next. */
  lemma CounterCanStayOff(steps: seq<Step>)
    requires !Run(steps).zeroing && Run(steps).now == Run(steps).before == 0
    ensures var s := Run(steps + [Push] + [Swap] + [Zero] + [CountBefore]);
            !s.zeroing && s.now == s.before == 0 && s.length == 0 && s.counter == 1
  {
    RunSnoc(steps, Push);
    RunSnoc(steps + [Push], Swap);
    RunSnoc(steps + [Push] + [Swap], Zero);
    RunSnoc(steps + [Push] + [Swap] + [Zero], CountBefore);
  }

  /** A push and its count, with no switch in between, raise length and counter by one. */
  lemma PushCounts(steps: seq<Step>)
    ensures var s, t := Run(steps), Run(steps + [Push] + [CountNow]);
            && t.length == s.length + 1 && t.now == s.now && t.before == s.before
            && t.counter == s.counter + 1
  {
    RunSnoc(steps, Push);
    RunSnoc(steps + [Push], CountNow);
  }

  function Pushes(steps: seq<Step>): nat {
    if steps == [] then 0
    else Pushes(steps[..|steps| - 1]) + if steps[|steps| - 1] == Push then 1 else 0
  }

  /** From any state with nobody between push and count, while no ring is switched and once nobody
      is between again, the counter has risen by exactly the number of pushes, and so has the length. */
  lemma {:induction false} CounterFollowsPushes(before: seq<Step>, steps: seq<Step>)
    requires Run(before).now == Run(before).before == 0 && Swap !in steps && Zero !in steps
    ensures var s, t := Run(before), Run(before + steps);
            && t.length == s.length + Pushes(steps)
            && t.counter + t.now == s.counter + Pushes(steps) && t.before == 0
  {
    if steps == [] {
      assert before + steps == before;
    } else {
      var front, last := steps[..|steps| - 1], steps[|steps| - 1];
      CounterFollowsPushes(before, front);
      RunSnoc(before + front, last);
      assert before + front + [last] == before + steps;
    }
  }
}
