/** The invariant of the pipeline holds in every state reached before Close. */
module PipelineRuns {
  import opened RingIndex
  import opened Rings
  import opened Pipeline
  import opened PipelineMode
  import opened PipelineInv
  import opened PipelineOwners
  import opened PipelineContents
  import opened PipelineNumbers
  import opened PipelineStreams

  lemma FillingFits(s: State)
    requires Owned(s) && Contents(s)
    ensures |s.filling| <= s.capacity
  {
    assert Refers(s, AtActive, s.active);
    assert Matches(s.rings[s.active], s.capacity, Queue(0, s.filling));
  }

  lemma WriteKept(s: State, item: Item)
    requires PipeInv(s) && Enabled(s, Write(item))
    ensures PipeInv(DoWrite(s, item))
  {
    WriteOwned(s, item);
    WriteContents(s, item);
    StillNumbers(s, DoWrite(s, item));
    WriteStreams(s, item);
  }

  /** A thread moves between places where it holds no ring. */
  lemma ThreadMoveKept(s: State, x: nat, pc: Thread, mode: Status)
    requires PipeInv(s) && x in s.threads
    requires !pc.Swapping? && !pc.Spawning? && !s.threads[x].Swapping? && !s.threads[x].Spawning?
    ensures PipeInv(Move(s, x, pc).(mode := mode))
  {
    var t := Move(s, x, pc).(mode := mode);
    ThreadOwned(s, t, x, pc);
    ThreadContents(s, t, x, pc);
    StillNumbers(s, t);
    StreamsFrame(s, t);
  }

  lemma SealKept(s: State, x: nat)
    requires PipeInv(s) && Enabled(s, SealActive(x))
    ensures PipeInv(Do(s, SealActive(x)))
  {
    var t := Do(s, SealActive(x));
    assert Refers(s, AtActive, s.active);
    ThreadOwned(s, t, x, Getting);
    SealContents(s, x);
    StillNumbers(s, t);
    StreamsFrame(s, t);
  }

  lemma GetPooledKept(s: State, x: nat, r: nat)
    requires PipeInv(s) && Enabled(s, GetPooled(x, r))
    ensures PipeInv(Do(s, GetPooled(x, r)))
  {
    assert Refers(s, AtPool, r);
    GetPooledOwned(s, x, r);
    GetPooledContents(s, x, r);
    FreeRingNumbers(s, Do(s, GetPooled(x, r)), r);
    StreamsFrame(s, Do(s, GetPooled(x, r)));
  }

  lemma GetNewKept(s: State, x: nat, r: nat)
    requires PipeInv(s) && Enabled(s, GetNew(x, r))
    ensures PipeInv(Do(s, GetNew(x, r)))
  {
    var t := Do(s, GetNew(x, r));
    assert r !in s.owner;
    assert t.owner.Keys == s.owner.Keys + {r};
    GetNewOwned(s, x, r);
    GetNewContents(s, x, r);
    FreeRingNumbers(s, t, r);
    StreamsFrame(s, t);
  }

  lemma SwapKept(s: State, x: nat)
    requires PipeInv(s) && Enabled(s, Swap(x))
    ensures PipeInv(DoSwap(s, x))
  {
    FillingFits(s);
    SwapOwned(s, x);
    SwapContents(s, x);
    SwapNumbers(s, x);
    SwapStreams(s, x);
  }

  lemma SpawnKept(s: State, x: nat)
    requires PipeInv(s) && Enabled(s, Spawn(x))
    ensures PipeInv(Do(s, Spawn(x)))
  {
    SpawnOwned(s, x);
    SpawnContents(s, x);
    SpawnNumbers(s, x);
    StreamsFrame(s, Do(s, Spawn(x)));
  }

  lemma TakeNumberKept(s: State, job: Job)
    requires PipeInv(s) && Enabled(s, TakeNumber(job))
    ensures PipeInv(DoTakeNumber(s, job))
  {
    TakeNumberOwned(s, job);
    TakeNumberContents(s, job);
    TakeNumberNumbers(s, job);
    TakeNumberStreams(s, job);
  }

  /** A numbered ring moves from one stop to the next under its number. */
  lemma HandMoveKept(s: State, t: State, hand: Hand, from: Place, to: Place)
    requires PipeInv(s) && Owned(t) && Turns(t)
    requires Refers(s, from, hand.job.ring)
    requires OnItsWay(from, hand.number, hand.job.batch) && OnItsWay(to, hand.number, hand.job.batch)
    requires t.owner == s.owner[hand.job.ring := to] && t.rings == s.rings && t.threads == s.threads
    requires SameHistory(s, t) && t.sequence == s.sequence && t.currentSequence == s.currentSequence
    requires t.written == s.written && t.delivered == s.delivered && t.current == s.current
    ensures PipeInv(t)
  {
    HandContents(s, t, hand.job.ring, from, to, hand.job.batch);
    HandNumbers(s, t, hand.job.ring, hand.number, hand.job.batch, to);
    StreamsFrame(s, t);
  }

  lemma PushHandKept(s: State, hand: Hand)
    requires PipeInv(s) && Enabled(s, PushHand(hand))
    ensures PipeInv(Do(s, PushHand(hand)))
  {
    PushHandOwned(s, hand);
    HandMoveKept(s, Do(s, PushHand(hand)), hand,
                 AtNumbered(hand.number, hand.job.batch), AtHeap(hand.number, hand.job.batch));
  }

  lemma PickKept(s: State, hand: Hand)
    requires PipeInv(s) && Enabled(s, Pick(hand))
    ensures PipeInv(Do(s, Pick(hand)))
  {
    PickOwned(s, hand);
    HandMoveKept(s, Do(s, Pick(hand)), hand,
                 AtHeap(hand.number, hand.job.batch), AtReader(hand.number, hand.job.batch));
  }

  lemma InstallKept(s: State)
    requires PipeInv(s) && Enabled(s, Compare) && s.reader.hand.number == s.currentSequence
    ensures PipeInv(DoCompare(s))
  {
    HeldNumber(s);
    CompareOwned(s);
    InstallContents(s);
    InstallNumbers(s);
    InstallStreams(s);
  }

  lemma PushBackKept(s: State)
    requires PipeInv(s) && Enabled(s, Compare) && s.reader.hand.number != s.currentSequence
    ensures PipeInv(DoCompare(s))
  {
    var hand := s.reader.hand;
    CompareOwned(s);
    HandMoveKept(s, DoCompare(s), hand,
                 AtReader(hand.number, hand.job.batch), AtHeap(hand.number, hand.job.batch));
  }

  lemma RecycleKept(s: State)
    requires PipeInv(s) && Enabled(s, BeginRead)
    requires s.current.Some? && s.rings[s.current.value].count == 0
    ensures Placed(DoBeginRead(s)) && Numbers(DoBeginRead(s)) && Turns(DoBeginRead(s))
    ensures Streams(DoBeginRead(s))
  {
    DrainedRing(s);
    FreeRingNumbers(s, DoBeginRead(s), s.current.value);
    RecycleStreams(s);
  }

  lemma BeginReadKept(s: State)
    requires PipeInv(s) && Enabled(s, BeginRead)
    ensures PipeInv(DoBeginRead(s))
  {
    BeginReadOwned(s);
    BeginReadContents(s);
    if s.current.Some? && s.rings[s.current.value].count == 0 {
      RecycleKept(s);
    } else {
      StillNumbers(s, DoBeginRead(s));
      StreamsFrame(s, DoBeginRead(s));
    }
  }

  lemma IdleKept(s: State, step: Step)
    requires PipeInv(s) && Enabled(s, step) && (step.PickNothing? || step.Count? || step.RefuseRead?)
    ensures PipeInv(Do(s, step))
  {
    var t := Do(s, step);
    IdleOwned(s, step);
    SameViews(s, t);
    ContentsSame(s, t);
    StillNumbers(s, t);
    StreamsFrame(s, t);
  }

  lemma ReadItemNumbers(s: State)
    requires Placed(s) && Numbers(s) && Turns(s) && Enabled(s, ReadItem)
    ensures Placed(DoReadItem(s)) && Numbers(DoReadItem(s)) && Turns(DoReadItem(s))
  {
    StillNumbers(s, DoReadItem(s));
  }

  lemma ReadItemKept(s: State)
    requires PipeInv(s) && Enabled(s, ReadItem)
    ensures PipeInv(DoReadItem(s))
  {
    ReadItemOwned(s);
    ReadItemContents(s);
    ReadItemNumbers(s);
    ReadItemStreams(s);
  }

  lemma CollectNumbers(s: State, r: nat)
    requires Owned(s) && Placed(s) && Numbers(s) && Turns(s) && Streams(s) && Enabled(s, Collect(r))
    ensures var t := Do(s, Collect(r)); Placed(t) && Numbers(t) && Turns(t) && Streams(t)
  {
    assert Refers(s, AtPool, r);
    FreeRingNumbers(s, Do(s, Collect(r)), r);
    StreamsFrame(s, Do(s, Collect(r)));
  }

  lemma CollectKept(s: State, r: nat)
    requires PipeInv(s) && Enabled(s, Collect(r))
    ensures PipeInv(Do(s, Collect(r)))
  {
    assert Refers(s, AtPool, r);
    CollectOwned(s, r);
    CollectContents(s, Do(s, Collect(r)), r);
    CollectNumbers(s, r);
  }

  predicate OfReader(step: Step) {
    step.BeginRead? || step.Pick? || step.PickNothing? || step.Compare? || step.Count?
    || step.ReadItem? || step.RefuseRead?
  }

  lemma ReaderStepKept(s: State, step: Step)
    requires PipeInv(s) && Enabled(s, step) && OfReader(step)
    ensures PipeInv(Do(s, step))
  {
    match step
    case BeginRead => BeginReadKept(s);
    case Pick(hand) => PickKept(s, hand);
    case PickNothing => IdleKept(s, step);
    case RefuseRead => IdleKept(s, step);
    case Compare =>
      if s.reader.hand.number == s.currentSequence { InstallKept(s); } else { PushBackKept(s); }
    case Count => IdleKept(s, step);
    case ReadItem => ReadItemKept(s);
  }

  lemma SwitchStepKeeps(s: State, step: Step)
    requires PipeInv(s) && Enabled(s, step) && OfSwitch(step)
    ensures PipeInv(Do(s, step))
  {
    match step
    case SealActive(x) => SealKept(s, x);
    case GetPooled(x, r) => GetPooledKept(s, x, r);
    case GetNew(x, r) => GetNewKept(s, x, r);
    case Swap(x) => SwapKept(s, x);
    case Spawn(x) => SpawnKept(s, x);
    case Restore(x) => ThreadMoveKept(s, x, Outside, WritingState);
  }

  lemma TrySwitchKeeps(s: State, x: nat)
    requires PipeInv(s) && Enabled(s, TrySwitch(x))
    ensures PipeInv(Do(s, TrySwitch(x)))
  {
    if s.mode == WritingState { ThreadMoveKept(s, x, Sealing, SwitchingState); }
  }

  /** Before Close, every step keeps the invariant. */
  lemma PipeKept(s: State, step: Step)
    requires PipeInv(s) && ModeInv(s) && s.mode != ClosedState && Enabled(s, step)
    requires Do(s, step).mode != ClosedState
    ensures PipeInv(Do(s, step))
  {
    NoCloseStepWhileOpen(s, step);
    if OfReader(step) {
      ReaderStepKept(s, step);
    } else if OfSwitch(step) {
      SwitchStepKeeps(s, step);
    } else {
      match step
      case Write(item) => WriteKept(s, item);
      case TrySwitch(x) => TrySwitchKeeps(s, x);
      case TryClose(x) =>
      case TakeNumber(job) => TakeNumberKept(s, job);
      case PushHand(hand) => PushHandKept(s, hand);
      case Collect(r) => CollectKept(s, r);
    }
  }

  lemma {:induction false} Reached(capacity: nat, threads: set<nat>, steps: seq<Step>)
    requires capacity < TWO31
    ensures var s := Run(Init(capacity, threads), steps);
            s.mode != ClosedState ==> PipeInv(s)
  {
    var init := Init(capacity, threads);
    if steps == [] {
      InitPipe(capacity, threads);
    } else {
      var front := steps[..|steps| - 1];
      var s := Run(init, front);
      Reached(capacity, threads, front);
      ModeReached(capacity, threads, front);
      if s.mode == ClosedState {
        ClosedStepAbsorbs(s, steps[|steps| - 1]);
      } else if Enabled(s, steps[|steps| - 1]) && Do(s, steps[|steps| - 1]).mode != ClosedState {
        PipeKept(s, steps[|steps| - 1]);
      }
    }
  }
}
