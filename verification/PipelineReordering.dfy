/** A run in which the hand-off goroutines take their numbers against the order of the switches,
    so that messages are delivered out of the order they were written in. */
module PipelineReordering {
  import opened Rings
  import opened Pipeline
  import opened PipelineContents
  import opened PipelineRuns

  lemma RunCons(s: State, step: Step, rest: seq<Step>)
    ensures Run(s, [step] + rest) == Run(Next(s, step), rest)
  {
    assert [step][..0] == [];
    assert Run(s, [step]) == Next(Run(s, []), step);
    RunAppend(s, [step], rest);
  }

  /** Open, idle and empty: thread x can switch, both rings are new. */
  ghost predicate Ready(s: State, x: nat) {
    && s.mode == WritingState && x in s.threads && s.threads[x] == Outside
    && s.capacity > 0 && s.filling == []
    && s.active != s.passive && s.active in s.rings && s.passive in s.rings
    && s.rings[s.active] == NewRing(s.capacity) && s.rings[s.passive] == NewRing(s.capacity)
  }

  lemma RunThree(s: State, a: Step, b: Step, c: Step)
    ensures Run(s, [a, b, c]) == Next(Next(Next(s, a), b), c)
  {
    var t := Next(Next(Next(s, a), b), c);
    RunCons(s, a, [b, c]);
    RunCons(Next(s, a), b, [c]);
    RunCons(Next(Next(s, a), b), c, []);
    assert [a] + [b, c] == [a, b, c] && [b] + [c] == [b, c] && [c] + [] == [c];
    assert Run(t, []) == t;
  }

  lemma RunFour(s: State, a: Step, b: Step, c: Step, d: Step)
    ensures Run(s, [a, b, c, d]) == Next(Next(Next(Next(s, a), b), c), d)
  {
    RunCons(s, a, [b, c, d]);
    assert [a] + [b, c, d] == [a, b, c, d];
    RunThree(Next(s, a), b, c, d);
  }

  /** The fields a round leaves alone. */
  ghost predicate SameBackground(s: State, t: State) {
    && t.capacity == s.capacity && t.reader == s.reader && t.current == s.current
    && t.delivered == s.delivered && t.currentSequence == s.currentSequence
    && t.sequence == s.sequence && t.numbering == s.numbering
    && t.numbered == s.numbered && t.heap == s.heap
  }

  /** Thread x is about to swap rings r and the two in use; one message was written. */
  ghost predicate Halfway(s: State, t: State, x: nat, r: nat, item: Item)
    requires s.active in s.rings
  {
    && t.mode == SwitchingState && x in t.threads && t.threads[x] == Swapping(r)
    && t.active == s.active && t.passive == s.passive && t.active != t.passive && t.active != r
    && t.rings.Keys == s.rings.Keys + {r} && r != t.passive && t.passive in t.rings
    && t.rings[t.passive] == NewRing(t.capacity) && t.rings[r] == NewRing(t.capacity)
    && t.filling == [item] && t.written == s.written + [item]
    && t.retired == s.retired && t.spawned == s.spawned && SameBackground(s, t)
  }

  lemma StartSwitch(s: State, x: nat, r: nat)
    requires s.mode == WritingState && x in s.threads && s.threads[x] == Outside
    requires s.active in s.rings && r !in s.rings
    ensures Run(s, [TrySwitch(x), SealActive(x), GetNew(x, r)])
            == s.(mode := SwitchingState, threads := s.threads[x := Swapping(r)],
                  rings := s.rings[s.active := s.rings[s.active].(state := ReadOnly)]
                                  [r := NewRing(s.capacity)],
                  owner := s.owner[r := AtThread(x)])
  {
    RunThree(s, TrySwitch(x), SealActive(x), GetNew(x, r));
    var s1 := Next(s, TrySwitch(x));
    var s2 := Next(s1, SealActive(x));
    assert s2.threads == s.threads[x := Getting];
    assert s2.threads[x := Swapping(r)] == s.threads[x := Swapping(r)];
  }

  lemma FirstHalf(s: State, x: nat, r: nat, item: Item)
    requires Ready(s, x) && r !in s.rings && item.ptr != 0
    ensures Halfway(s, Run(s, [Write(item)] + [TrySwitch(x), SealActive(x), GetNew(x, r)]), x, r, item)
  {
    var s1 := Next(s, Write(item));
    assert s1.filling == [item] && s1.rings.Keys == s.rings.Keys;
    assert Run(s, [Write(item)]) == s1;
    StartSwitch(s1, x, r);
    RunAppend(s, [Write(item)], [TrySwitch(x), SealActive(x), GetNew(x, r)]);
  }

  /** One message was written and its ring retired; r is the passive ring now. */
  ghost predicate RoundDone(s: State, t: State, x: nat, r: nat, item: Item) {
    && Ready(t, x) && t.active == s.passive && t.passive == r
    && t.rings.Keys == s.rings.Keys + {r}
    && t.retired == s.retired + [Retired([item], s.active, 0)]
    && t.spawned == s.spawned + {Job(s.active, |s.retired|)}
    && t.written == s.written + [item]
    && SameBackground(s, t)
  }

  lemma SecondHalf(s: State, t: State, x: nat, r: nat, item: Item)
    requires Ready(s, x) && Halfway(s, t, x, r, item)
    ensures RoundDone(s, Run(t, [Swap(x), Spawn(x), Restore(x)]), x, r, item)
  {
    RunThree(t, Swap(x), Spawn(x), Restore(x));
    var t1 := Next(t, Swap(x));
    assert t1.threads[x] == Spawning(Job(s.active, |s.retired|));
    var t2 := Next(t1, Spawn(x));
    assert t2.threads[x] == Restoring;
  }

  /** Write one message and switch. */
  function Round(x: nat, r: nat, item: Item): seq<Step> {
    [Write(item)] + [TrySwitch(x), SealActive(x), GetNew(x, r)] + [Swap(x), Spawn(x), Restore(x)]
  }

  lemma AfterRound(s: State, x: nat, r: nat, item: Item)
    requires Ready(s, x) && r !in s.rings && item.ptr != 0
    ensures RoundDone(s, Run(s, Round(x, r, item)), x, r, item)
  {
    var half := [Write(item)] + [TrySwitch(x), SealActive(x), GetNew(x, r)];
    FirstHalf(s, x, r, item);
    SecondHalf(s, Run(s, half), x, r, item);
    RunAppend(s, half, [Swap(x), Spawn(x), Restore(x)]);
  }

  // ---------- two rounds against the order of their numbers ----------

  /** The later goroutine takes its number first, and both push. */
  lemma AfterHandOff(s: State, late: Job, early: Job)
    requires s.spawned == {early, late} && early != late && |s.retired| == 2
    requires early.batch == 0 && late.batch == 1
    requires s.sequence == 0 && s.numbering == [] && s.numbered == {} && s.heap == {}
    ensures var steps := [TakeNumber(late), TakeNumber(early),
                          PushHand(Hand(1, late)), PushHand(Hand(2, early))];
            var t := Run(s, steps);
            && t.heap == {Hand(1, late), Hand(2, early)} && t.numbering == [late, early]
            && |t.retired| == 2 && t.retired[1].items == s.retired[1].items
            && t.mode == s.mode && t.reader == s.reader && t.current == s.current
            && t.currentSequence == s.currentSequence
            && t.written == s.written && t.delivered == s.delivered
  {
    RunFour(s, TakeNumber(late), TakeNumber(early), PushHand(Hand(1, late)), PushHand(Hand(2, early)));
    var s1 := Next(s, TakeNumber(late));
    assert s1.spawned == {early} && s1.numbered == {Hand(1, late)};
    var s2 := Next(s1, TakeNumber(early));
    assert s2.numbered == {Hand(1, late), Hand(2, early)};
    var s3 := Next(s2, PushHand(Hand(1, late)));
    assert s3.numbered == {Hand(2, early)} && s3.heap == {Hand(1, late)};
  }

  /** The reader takes number 1. */
  lemma AfterPick(s: State, late: Job, early: Job)
    requires s.heap == {Hand(1, late), Hand(2, early)}
    requires s.reader == Between && s.current == None && s.currentSequence == 1
    ensures var t := Run(s, [BeginRead, Pick(Hand(1, late)), Compare, Count]);
            && t.reader == Reading && t.current == Some(late.ring) && t.consumed == 0
            && t.currentSequence == 2 && t.numbering == s.numbering && t.mode == s.mode
            && t.retired == s.retired && t.written == s.written && t.delivered == s.delivered
  {
    RunFour(s, BeginRead, Pick(Hand(1, late)), Compare, Count);
    var s1 := Next(s, BeginRead);
    assert s1.reader == Picking(0) && s1.heap == s.heap;
    var s2 := Next(s1, Pick(Hand(1, late)));
    assert s2.reader == Comparing(Hand(1, late), 0);
  }

  /** The reader is about to pop from the ring of batch 1. */
  lemma ReadsSecond(s: State, steps: seq<Step>)
    requires s == Run(Init(1, {0}), steps) && s.mode != ClosedState
    requires s.reader == Reading && s.current.Some? && s.consumed == 0 && s.currentSequence == 2
    requires |s.numbering| >= 1 && s.numbering[0].batch == 1
    requires |s.retired| == 2 && s.retired[1].items == [SECOND]
    ensures Enabled(s, ReadItem) && Next(s, ReadItem).delivered == s.delivered + [SECOND]
    ensures Next(s, ReadItem).written == s.written && Next(s, ReadItem).mode == s.mode
  {
    Reached(1, {0}, steps);
    CurrentHolds(s);
    assert Enabled(s, ReadItem);
    ReadItemRing(s);
  }

  const FIRST := Item(1, 1)
  const SECOND := Item(2, 1)

  /** One writer, one switching thread, one reader, capacity 1: the second message written is the
      first one delivered. */
  lemma DeliveryCanBeReordered() returns (steps: seq<Step>)
    ensures var s := Run(Init(1, {0}), steps);
            && s.mode != ClosedState
            && s.written == [FIRST, SECOND] && s.delivered == [SECOND]
  {
    var init := Init(1, {0});
    var early, late := Job(0, 0), Job(1, 1);
    var a, b := Round(0, 2, FIRST), Round(0, 3, SECOND);
    var c := [TakeNumber(late), TakeNumber(early), PushHand(Hand(1, late)), PushHand(Hand(2, early))];
    var d := [BeginRead, Pick(Hand(1, late)), Compare, Count];
    AfterRound(init, 0, 2, FIRST);
    AfterRound(Run(init, a), 0, 3, SECOND);
    RunAppend(init, a, b);
    AfterHandOff(Run(init, a + b), late, early);
    RunAppend(init, a + b, c);
    AfterPick(Run(init, a + b + c), late, early);
    RunAppend(init, a + b + c, d);
    ReadsSecond(Run(init, a + b + c + d), a + b + c + d);
    steps := a + b + c + d + [ReadItem];
    assert steps[..|steps| - 1] == a + b + c + d;
  }
}
