/** The double buffer (double_buffer.go) as a transition system: any number of writers, switching
    and closing threads and hand-off goroutines, one reader.  One Push or Pop of a ring is one
    step; everything else is broken at its shared accesses, in particular the numbering of a
    retired ring and its insertion in the heap. */
module Pipeline {
  import opened Rings

  datatype Option<T> = None | Some(value: T)

  /** A retired ring; `batch` tells which switch retired it. */
  datatype Job = Job(ring: nat, batch: nat)

  /** A retired ring with the sequence number it was given. */
  datatype Hand = Hand(number: nat, job: Job)

  /** A thread inside switchChannel, or past the compare-and-swap of Close. */
  datatype Thread =
    | Outside
    | Sealing
    | Getting
    | Swapping(newRing: nat)
    | Spawning(job: Job)
    | Restoring
    | Stopping
    | Dropping
    | Draining

  /** The reader inside tryRead. */
  datatype Reader =
    | Between
    | Picking(tries: nat)
    | Comparing(hand: Hand, tries: nat)
    | Counting
    | Reading

  const MAX_RETIRES := 3

  /** Who holds a ring. */
  datatype Place =
    | AtActive
    | AtPassive
    | AtThread(t: nat)
    | AtSpawned(batch: nat)
    | AtNumbered(number: nat, batch: nat)
    | AtHeap(number: nat, batch: nat)
    | AtReader(number: nat, batch: nat)
    | AtCurrent
    | AtPool
    | AtCollector

  /** A retired ring's messages at the switch, and the number it has got since (0: none yet). */
  datatype Retired = Retired(items: seq<Item>, ring: nat, number: nat)

  datatype State = State(
    capacity: nat,
    rings: map<nat, Ring>,
    mode: Status,
    threads: map<nat, Thread>,
    active: nat,
    passive: nat,
    pool: set<nat>,
    spawned: set<Job>,          // goroutines that have not taken a number yet
    numbered: set<Hand>,        // goroutines that have, but have not pushed
    heap: set<Hand>,
    sequence: nat,
    reader: Reader,
    current: Option<nat>,
    currentSequence: nat,
    // history
    stops: nat,                 // how often the stop channel was closed
    swaps: nat,
    collected: set<nat>,        // rings the pool let go of
    owner: map<nat, Place>,
    filling: seq<Item>,         // messages in the active ring
    consumed: nat,              // messages taken from the current ring
    written: seq<Item>,
    delivered: seq<Item>,
    retired: seq<Retired>,      // by switch
    numbering: seq<Job>)        // by sequence number, from 1

  function Init(capacity: nat, threads: set<nat>): State {
    State(capacity, map[0 := NewRing(capacity), 1 := NewRing(capacity)], WritingState,
          map t | t in threads :: Outside, 0, 1, {}, {}, {}, {}, 0, Between, None, 1,
          0, 0, {}, map[0 := AtActive, 1 := AtPassive], [], 0, [], [], [], [])
  }

  datatype Step =
    | Write(item: Item)
    | TrySwitch(t: nat)
    | SealActive(t: nat)
    | GetPooled(t: nat, ring: nat)
    | GetNew(t: nat, ring: nat)
    | Swap(t: nat)
    | Spawn(t: nat)
    | Restore(t: nat)
    | TakeNumber(job: Job)
    | PushHand(hand: Hand)
    | BeginRead
    | Pick(hand: Hand)
    | PickNothing
    | Compare
    | Count
    | ReadItem
    | RefuseRead
    | Collect(ring: nat)
    | TryClose(t: nat)
    | CloseStop(t: nat)
    | CloseDrop(t: nat)
    | CloseDrain(t: nat, hand: Hand)

  predicate Least(hand: Hand, heap: set<Hand>) {
    hand in heap && forall other :: other in heap ==> hand.number <= other.number
  }

  predicate Enabled(s: State, step: Step) {
    match step
    case Write(item) => item.ptr != 0 && s.active in s.rings && s.rings[s.active].Wf()
    case TrySwitch(t) => t in s.threads && s.threads[t] == Outside
    case SealActive(t) => t in s.threads && s.threads[t] == Sealing && s.active in s.rings
    case GetPooled(t, r) => t in s.threads && s.threads[t] == Getting && r in s.pool
    case GetNew(t, r) => t in s.threads && s.threads[t] == Getting && r !in s.rings
    case Swap(t) => t in s.threads && s.threads[t].Swapping?
    case Spawn(t) => t in s.threads && s.threads[t].Spawning?
    case Restore(t) => t in s.threads && s.threads[t] == Restoring
    case TakeNumber(job) => job in s.spawned && job.batch < |s.retired|
    case PushHand(hand) => hand in s.numbered
    case BeginRead =>
      s.reader == Between && (s.current.Some? ==> s.current.value in s.rings)
    case Pick(hand) => s.reader.Picking? && Least(hand, s.heap)
    case PickNothing => s.reader.Picking? && s.heap == {}
    case Compare => s.reader.Comparing?
    case Count => s.reader == Counting
    case ReadItem =>
      s.reader == Reading && s.current.Some? && s.current.value in s.rings
      && s.rings[s.current.value].Wf()
    case RefuseRead => s.reader == Reading
    case Collect(r) => r in s.pool
    case TryClose(t) => t in s.threads && s.threads[t] == Outside
    case CloseStop(t) => t in s.threads && s.threads[t] == Stopping
    case CloseDrop(t) => t in s.threads && s.threads[t] == Dropping
    case CloseDrain(t, hand) => t in s.threads && s.threads[t] == Draining && Least(hand, s.heap)
  }

  function Move(s: State, t: nat, pc: Thread): State {
    s.(threads := s.threads[t := pc])
  }

  /** Lines 204 and 223: the push, on whatever ring is active now. */
  function DoWrite(s: State, item: Item): State
    requires Enabled(s, Write(item))
  {
    var (r, ok) := s.rings[s.active].Write(item);
    var s' := s.(rings := s.rings[s.active := r]);
    if ok then s'.(filling := s.filling + [item], written := s.written + [item]) else s'
  }

  /** Lines 266-267: the ring to retire goes to the thread, passive becomes active. */
  function DoSwap(s: State, t: nat): State
    requires Enabled(s, Swap(t))
  {
    var newRing := s.threads[t].newRing;
    var job := Job(s.active, |s.retired|);
    Move(s, t, Spawning(job)).(
      active := s.passive, passive := newRing,
      swaps := s.swaps + 1,
      owner := s.owner[s.active := AtThread(t)][s.passive := AtActive][newRing := AtPassive],
      retired := s.retired + [Retired(s.filling, s.active, 0)],
      filling := [])
  }

  /** Line 272: sequence.Add(1). */
  function DoTakeNumber(s: State, job: Job): State
    requires Enabled(s, TakeNumber(job))
  {
    var n := s.sequence + 1;
    s.(sequence := n,
       spawned := s.spawned - {job},
       numbered := s.numbered + {Hand(n, job)},
       owner := s.owner[job.ring := AtNumbered(n, job.batch)],
       numbering := s.numbering + [job],
       retired := s.retired[job.batch := s.retired[job.batch].(number := n)])
  }

  /** Lines 480-486: a drained current ring is reset and returned to the pool. */
  function DoBeginRead(s: State): State
    requires Enabled(s, BeginRead)
  {
    if s.current.None? then s.(reader := Picking(0))
    else
      var r := s.current.value;
      if s.rings[r].count == 0 then
        s.(rings := s.rings[r := s.rings[r].Reset()], current := None,
           pool := s.pool + {r}, owner := s.owner[r := AtPool], reader := Picking(0))
      else s.(reader := Reading)
  }

  /** Lines 314-322: keep the picked ring if its turn has come, else push it back. */
  function DoCompare(s: State): State
    requires Enabled(s, Compare)
  {
    var hand := s.reader.hand;
    if hand.number == s.currentSequence then
      s.(current := Some(hand.job.ring), consumed := 0, reader := Counting,
         owner := s.owner[hand.job.ring := AtCurrent])
    else
      s.(heap := s.heap + {hand},
         owner := s.owner[hand.job.ring := AtHeap(hand.number, hand.job.batch)],
         reader := if s.reader.tries + 1 < MAX_RETIRES then Picking(s.reader.tries + 1) else Between)
  }

  function DoReadItem(s: State): State
    requires Enabled(s, ReadItem)
  {
    var (r, item) := s.rings[s.current.value].Pop();
    var s' := s.(rings := s.rings[s.current.value := r], reader := Between);
    if item.ptr == 0 then s'
    else s'.(delivered := s.delivered + [item], consumed := s.consumed + 1)
  }

  function Do(s: State, step: Step): State
    requires Enabled(s, step)
  {
    match step
    case Write(item) => DoWrite(s, item)
    case TrySwitch(t) =>
      if s.mode == WritingState then Move(s, t, Sealing).(mode := SwitchingState) else s
    case SealActive(t) =>
      Move(s, t, Getting).(rings := s.rings[s.active := s.rings[s.active].(state := ReadOnly)])
    case GetPooled(t, r) =>
      Move(s, t, Swapping(r)).(pool := s.pool - {r}, owner := s.owner[r := AtThread(t)])
    case GetNew(t, r) =>
      Move(s, t, Swapping(r)).(rings := s.rings[r := NewRing(s.capacity)],
                               owner := s.owner[r := AtThread(t)])
    case Swap(t) => DoSwap(s, t)
    case Spawn(t) =>
      var job := s.threads[t].job;
      Move(s, t, Restoring).(spawned := s.spawned + {job},
                             owner := s.owner[job.ring := AtSpawned(job.batch)])
    case Restore(t) => Move(s, t, Outside).(mode := WritingState)
    case TakeNumber(job) => DoTakeNumber(s, job)
    case PushHand(hand) =>
      s.(numbered := s.numbered - {hand}, heap := s.heap + {hand},
         owner := s.owner[hand.job.ring := AtHeap(hand.number, hand.job.batch)])
    case BeginRead => DoBeginRead(s)
    case Pick(hand) =>
      s.(heap := s.heap - {hand}, reader := Comparing(hand, s.reader.tries),
         owner := s.owner[hand.job.ring := AtReader(hand.number, hand.job.batch)])
    case PickNothing => s.(reader := Between)
    case Compare => DoCompare(s)
    case Count => s.(currentSequence := s.currentSequence + 1, reader := Reading)
    case ReadItem => DoReadItem(s)
    case RefuseRead => s.(reader := Between)
    case Collect(r) =>
      s.(pool := s.pool - {r}, collected := s.collected + {r}, owner := s.owner[r := AtCollector])
    case TryClose(t) =>
      if s.mode == WritingState then Move(s, t, Stopping).(mode := ClosedState) else s
    case CloseStop(t) => Move(s, t, Dropping).(stops := s.stops + 1)
    case CloseDrop(t) => Move(s, t, Draining).(pool := s.pool + {s.active, s.passive})
    case CloseDrain(t, hand) => s.(heap := s.heap - {hand}, pool := s.pool + {hand.job.ring})
  }

  /** A step that is not enabled is skipped. */
  function Next(s: State, step: Step): State {
    if Enabled(s, step) then Do(s, step) else s
  }

  function Run(s: State, steps: seq<Step>): State {
    if steps == [] then s else Next(Run(s, steps[..|steps| - 1]), steps[|steps| - 1])
  }

  lemma {:induction false} RunAppend(s: State, a: seq<Step>, b: seq<Step>)
    ensures Run(s, a + b) == Run(Run(s, a), b)
  {
    if b == [] {
      assert a + b == a;
    } else {
      RunAppend(s, a, b[..|b| - 1]);
      assert (a + b)[..|a + b| - 1] == a + b[..|b| - 1];
    }
  }

  /** The least number not taken by the reader: installing a ring precedes the counter update. */
  function NextNumber(s: State): nat {
    s.currentSequence + if s.reader.Counting? then 1 else 0
  }
}
