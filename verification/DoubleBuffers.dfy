/** The double buffer as an object (double_buffer.go), one call at a time, by any number of threads,
    one of which may be stopped inside a switch.  Ring objects are kept in a store and referred to by name; what
    their operations do is what Rings states and SmartBuffers implements.  Each call is a schedule of
    Pipeline steps, so the object never leaves the states that the transition system reaches. */
module DoubleBuffers {
  import opened RingIndex
  import opened Rings
  import opened MinHeaps
  import opened Pipeline
  import opened PipelineInv
  import opened PipelineReach

  datatype ReadMode = SafeRead | ZeroCopyRead | OtherMode

  datatype Error = ErrBufferClose | ErrReadOnly | ErrNoBuffer | ErrRead | ErrReadMode

  datatype Result<T> = Ok(value: T) | Err(error: Error)

  /** A ring that takes no push. */
  predicate Stuck(r: Ring) {
    r.state == ReadOnly || r.count >= |r.buf|
  }

  /** Slots hold nothing or a message, and the state is one that SmartBuffer sets itself. */
  ghost predicate Sound(r: Ring, size: nat) {
    && |r.buf| == size
    && (r.state == WriteOnly || r.state == ReadOnly)
    && forall p :: 0 <= p < size ==> r.buf[p] == NO_ITEM || IsMessage(r.buf[p])
  }

  predicate IsMessage(item: Item) {
    item.ptr != 0 && item.size > 0
  }

  lemma WriteSound(r: Ring, size: nat, item: Item)
    requires 0 < size && Sound(r, size) && IsMessage(item)
    ensures Sound(r.Write(item).0, size)
    ensures r.Write(item).1 <==> !Stuck(r)
    ensures !r.Write(item).1 ==> r.Write(item).0.state == ReadOnly
  {
  }

  lemma PopSound(r: Ring, size: nat)
    requires 0 < size && Sound(r, size)
    ensures Sound(r.Pop().0, size)
    ensures r.Pop().1 == NO_ITEM || IsMessage(r.Pop().1)
  {
  }

  // ---------- how the fields relate to the pipeline state ----------

  ghost predicate RingsSound(rings: map<nat, Ring>, size: nat, nextName: nat) {
    forall r :: r in rings ==> r < nextName && Sound(rings[r], size)
  }

  lemma OneRingSound(rings: map<nat, Ring>, size: nat, nextName: nat, r: nat, ring: Ring)
    requires RingsSound(rings, size, nextName) && r in rings && Sound(ring, size)
    ensures RingsSound(rings[r := ring], size, nextName) && rings[r := ring].Keys == rings.Keys
  {
  }

  /** The goroutines still to run, and the batches they carry. */
  ghost predicate HandOffsAre(handoffs: seq<nat>, jobs: seq<Job>, spawned: set<Job>, batches: nat) {
    && |jobs| == |handoffs|
    && (forall i :: 0 <= i < |jobs| ==>
          jobs[i] in spawned && jobs[i].ring == handoffs[i] && jobs[i].batch < batches)
    && (forall job :: job in spawned ==> job in jobs)
    && (forall i, j :: 0 <= i < j < |jobs| ==> jobs[i] != jobs[j])
  }

  lemma HandOffAdded(handoffs: seq<nat>, jobs: seq<Job>, spawned: set<Job>, batches: nat, ring: nat)
    requires HandOffsAre(handoffs, jobs, spawned, batches)
    ensures HandOffsAre(handoffs + [ring], jobs + [Job(ring, batches)],
                        spawned + {Job(ring, batches)}, batches + 1)
  {
  }

  /** The items in the heap are the pushed hands, whose numbers differ and are still to come. */
  ghost predicate HeapIs(handOf: map<MinHeapItem, Hand>, hands: set<Hand>, from: nat, upto: nat) {
    && from <= upto + 1
    && (forall x :: x in handOf ==>
          && handOf[x] in hands && x.sequence == handOf[x].number && x.buf == handOf[x].job.ring
          && from <= x.sequence <= upto)
    && (forall x, y :: x in handOf && y in handOf && x != y ==> x.sequence != y.sequence)
    && (forall h :: h in hands ==> exists x :: x in handOf && handOf[x] == h)
  }

  /** What was being filled is retired as one batch, and the ring active now is new; nothing else
      happens to any message. */
  ghost predicate Retires(s: State, s': State) {
    && s'.active in s'.rings && s'.rings[s'.active] == NewRing(s.capacity)
    && s'.mode == WritingState
    && s'.retired == s.retired + [Retired(s.filling, s.active, 0)]
    && s'.filling == [] && s'.written == s.written && s'.delivered == s.delivered
    && s'.active == s.passive
    && s' == s.(rings := s'.rings, active := s'.active, passive := s'.passive, pool := s'.pool,
                mode := s'.mode, threads := s'.threads, spawned := s'.spawned, swaps := s'.swaps,
                owner := s'.owner, retired := s'.retired, filling := s'.filling, written := s'.written)
  }

  /** What Write does.  It fails only when closed, or when the active ring takes no push while
      another thread holds the mode.  A ring that takes none is otherwise retired, and the message
      becomes the first of the next one. */
  ghost predicate Writes(s: State, s': State, item: Item, err: Option<Error>)
    requires s.active in s.rings
  {
    var stuck := Stuck(s.rings[s.active]);
    && s'.mode == s.mode && s'.threads == s.threads
    && (err.None? <==> s.mode == WritingState || (s.mode == SwitchingState && !stuck))
    && (err.Some? ==> err.value == if s.mode == ClosedState then ErrBufferClose else ErrReadOnly)
    && s'.written == (if err.None? then s.written + [item] else s.written)
    && s'.retired == (if err.None? && stuck then s.retired + [Retired(s.filling, s.active, 0)]
                      else s.retired)
    && (err.None? ==> s'.filling == if stuck then [item] else s.filling + [item])
    && (err.Some? ==> s'.filling == s.filling)
    && (err.None? ==>
          && s'.active in s'.rings && s'.rings[s'.active].count == |s'.filling|
          && s'.rings[s'.active].state == WriteOnly)
    && s' == s.(rings := s'.rings, active := s'.active, passive := s'.passive, pool := s'.pool,
                mode := s'.mode, threads := s'.threads, spawned := s'.spawned, swaps := s'.swaps,
                owner := s'.owner, retired := s'.retired, filling := s'.filling, written := s'.written)
  }

  lemma HandOffRemoved(handoffs: seq<nat>, jobs: seq<Job>, spawned: set<Job>, batches: nat, k: nat)
    requires HandOffsAre(handoffs, jobs, spawned, batches) && k < |handoffs|
    ensures HandOffsAre(Without(handoffs, k), Without(jobs, k),
                        spawned - {jobs[k]}, batches)
  {
  }

  function Without<T>(s: seq<T>, k: nat): seq<T>
    requires k < |s|
  {
    s[..k] + s[k + 1..]
  }

  lemma HeapPushed(handOf: map<MinHeapItem, Hand>, hands: set<Hand>, from: nat, upto: nat,
                   item: MinHeapItem, hand: Hand)
    requires HeapIs(handOf, hands, from, upto) && item !in handOf
    requires from <= item.sequence <= upto && item.sequence == hand.number && item.buf == hand.job.ring
    requires forall x :: x in handOf ==> x.sequence != item.sequence
    ensures HeapIs(handOf[item := hand], hands + {hand}, from, upto)
  {
  }

  /** The goroutines that have a number and have not pushed: their items are the numbered hands,
      and no number is in the heap too. */
  ghost predicate Carries(numbered: seq<MinHeapItem>, carried: seq<Hand>, hands: set<Hand>,
                          heap: set<Hand>, from: nat, upto: nat) {
    && |numbered| == |carried|
    && (forall i :: 0 <= i < |carried| ==>
          && carried[i] in hands && from <= carried[i].number <= upto
          && numbered[i].sequence == carried[i].number && numbered[i].buf == carried[i].job.ring)
    && (forall h :: h in hands ==> h in carried)
    && (forall i, j :: 0 <= i < j < |carried| ==> carried[i].number != carried[j].number)
    && (forall i, h :: 0 <= i < |carried| && h in heap ==> carried[i].number != h.number)
  }

  lemma CarriesMore(numbered: seq<MinHeapItem>, carried: seq<Hand>, hands: set<Hand>,
                    heap: set<Hand>, from: nat, upto: nat, hand: Hand, item: MinHeapItem)
    requires Carries(numbered, carried, hands, heap, from, upto)
    requires hand.number == upto + 1 >= from && forall h :: h in heap ==> h.number <= upto
    requires item.sequence == hand.number && item.buf == hand.job.ring
    ensures Carries(numbered + [item], carried + [hand], hands + {hand}, heap, from, upto + 1)
  {
  }

  lemma HeapUpTo(handOf: map<MinHeapItem, Hand>, hands: set<Hand>, from: nat, upto: nat)
    requires HeapIs(handOf, hands, from, upto)
    ensures HeapIs(handOf, hands, from, upto + 1)
    ensures forall h :: h in hands ==> from <= h.number <= upto
  {
  }

  lemma WithoutAt<T>(s: seq<T>, k: nat, i: nat)
    requires k < |s| && i < |s| - 1
    ensures Without(s, k)[i] == s[if i < k then i else i + 1]
  {
  }

  lemma OthersStay<T>(s: seq<T>, k: nat, x: T)
    requires k < |s| && x in s && x != s[k]
    ensures x in Without(s, k)
  {
    var i :| 0 <= i < |s| && s[i] == x;
    assert Without(s, k)[if i < k then i else i - 1] == x;
  }

  lemma CarriesLess(numbered: seq<MinHeapItem>, carried: seq<Hand>, hands: set<Hand>,
                    heap: set<Hand>, from: nat, upto: nat, k: nat)
    requires Carries(numbered, carried, hands, heap, from, upto) && k < |carried|
    ensures Carries(Without(numbered, k), Without(carried, k), hands - {carried[k]},
                    heap + {carried[k]}, from, upto)
  {
    var numbered', carried' := Without(numbered, k), Without(carried, k);
    forall h | h in hands - {carried[k]} ensures h in carried' {
      OthersStay(carried, k, h);
    }
    forall i: nat | i < |carried| - 1
      ensures carried'[i] == carried[if i < k then i else i + 1]
      ensures numbered'[i] == numbered[if i < k then i else i + 1]
      ensures carried'[i].number != carried[k].number
    {
      WithoutAt(carried, k, i);
      WithoutAt(numbered, k, i);
    }
  }

  /** The ring whose turn it is was in the heap. */
  lemma CarriesOn(numbered: seq<MinHeapItem>, carried: seq<Hand>, hands: set<Hand>,
                  heap: set<Hand>, from: nat, upto: nat, hand: Hand)
    requires Carries(numbered, carried, hands, heap, from, upto) && hand in heap && hand.number == from
    ensures Carries(numbered, carried, hands, heap - {hand}, from + 1, upto)
  {
  }

  lemma CarriesStill(numbered: seq<MinHeapItem>, carried: seq<Hand>, hands: set<Hand>,
                     heap: set<Hand>, from: nat, upto: nat, hand: Hand)
    requires Carries(numbered, carried, hands, heap, from, upto)
    ensures Carries(numbered, carried, hands, heap - {hand}, from, upto)
  {
  }

  lemma CarriedIsNew(handOf: map<MinHeapItem, Hand>, numbered: seq<MinHeapItem>, carried: seq<Hand>,
                     hands: set<Hand>, heap: set<Hand>, from: nat, upto: nat, k: nat)
    requires HeapIs(handOf, heap, from, upto) && Carries(numbered, carried, hands, heap, from, upto)
    requires k < |numbered|
    ensures numbered[k] !in handOf && forall x :: x in handOf ==> x.sequence != numbered[k].sequence
  {
  }

  lemma PickedIsLeast(handOf: map<MinHeapItem, Hand>, hands: set<Hand>, from: nat, upto: nat,
                      item: MinHeapItem)
    requires HeapIs(handOf, hands, from, upto) && item in handOf
    requires forall x :: x in handOf ==> item.sequence <= x.sequence
    ensures Least(handOf[item], hands)
  {
  }

  /** The numbers left are larger. */
  lemma HeapPicked(handOf: map<MinHeapItem, Hand>, hands: set<Hand>, from: nat, upto: nat,
                   item: MinHeapItem)
    requires HeapIs(handOf, hands, from, upto) && item in handOf && item.sequence == from
    ensures HeapIs(handOf - {item}, hands - {handOf[item]}, from + 1, upto)
  {
  }

  lemma HeapDropped(handOf: map<MinHeapItem, Hand>, hands: set<Hand>, from: nat, upto: nat,
                    item: MinHeapItem)
    requires HeapIs(handOf, hands, from, upto) && item in handOf
    ensures HeapIs(handOf - {item}, hands - {handOf[item]}, from, upto)
  {
  }

  predicate Stopped(s: State, s': State, t: nat) {
    s' == s.(mode := ClosedState, threads := s.threads[t := Draining], stops := s.stops + 1,
             pool := s.pool + {s.active, s.passive})
  }

  predicate Drains(s: State, hand: Hand, s': State) {
    hand in s.heap && s' == s.(heap := s.heap - {hand}, pool := s.pool + {hand.job.ring})
  }

  function RingsOf(hands: set<Hand>): set<nat> {
    set h | h in hands :: h.job.ring
  }

  /** Some hands have been dropped from the heap into the pool. */
  predicate DrainsSome(s: State, s': State) {
    && s'.heap <= s.heap
    && s' == s.(heap := s'.heap, pool := s.pool + RingsOf(s.heap - s'.heap))
  }

  predicate DrainsAll(s: State, s': State) {
    s' == s.(heap := {}, pool := s.pool + RingsOf(s.heap))
  }

  lemma DrainsOneMore(s: State, mid: State, hand: Hand, s': State)
    requires DrainsSome(s, mid) && Drains(mid, hand, s')
    ensures DrainsSome(s, s')
  {
  }

  /** The hand whose turn it is has become the current ring. */
  ghost predicate TurnTaken(s: State, s': State) {
    && s'.current.Some? && s'.currentSequence == s.currentSequence + 1 && s'.consumed == 0
    && exists b :: Hand(s.currentSequence, Job(s'.current.value, b)) in s.heap
                   && s'.heap == s.heap - {Hand(s.currentSequence, Job(s'.current.value, b))}
  }

  /** One attempt at the heap: it succeeds exactly when the hand whose turn it is is there. */
  ghost predicate Picked(s: State, s': State, found: bool) {
    && s.reader.Picking?
    && (found <==> InHeap(s.heap, s.currentSequence))
    && (found ==> TurnTaken(s, s'))
    && s' == (if found
              then s.(heap := s'.heap, current := s'.current, consumed := 0, reader := Reading,
                      currentSequence := s.currentSequence + 1, owner := s'.owner)
              else s.(reader := s'.reader, owner := s'.owner))
  }

  lemma ComparedIsPicked(handOf: map<MinHeapItem, Hand>, item: MinHeapItem, s: State, s': State)
    requires HeapIs(handOf, s.heap, s.currentSequence, s.sequence) && item in handOf
    requires forall x :: x in handOf ==> item.sequence <= x.sequence
    requires s.reader.Picking? && Compared(s, handOf[item], s')
    ensures Picked(s, s', item.sequence == s.currentSequence)
  {
  }

  /** All attempts together; the reader's progress through them is not compared. */
  ghost predicate PickedOrNot(s: State, s': State, ok: bool) {
    && (ok <==> InHeap(s.heap, s.currentSequence))
    && (ok ==> TurnTaken(s, s'))
    && (ok ==> s' == s.(heap := s'.heap, current := s'.current, consumed := 0,
                        currentSequence := s.currentSequence + 1, owner := s'.owner, reader := Reading))
    && (!ok ==> Untaken(s, s'))
  }

  predicate Untaken(s: State, s': State) {
    s' == s.(owner := s'.owner, reader := s'.reader)
  }

  lemma PickedAfter(s: State, mid: State, s': State, ok: bool)
    requires Untaken(s, mid) && Picked(mid, s', ok)
    ensures if ok then PickedOrNot(s, s', true) else Untaken(s, s')
    ensures ok <==> InHeap(s.heap, s.currentSequence)
  {
  }

  predicate InHeap(hands: set<Hand>, n: nat) {
    exists h :: h in hands && h.number == n
  }

  predicate Drained(s: State) {
    s.current.Some? ==> s.current.value in s.rings && s.rings[s.current.value].count == 0
  }

  /** What tryRead does before it pops: a drained ring goes back to the pool, reset, and the ring
      whose number is next replaces it.  There is nothing to read exactly when that ring is not in
      the heap. */
  ghost predicate Readies(s: State, s': State, ok: bool) {
    && (ok <==> !Drained(s) || InHeap(s.heap, s.currentSequence))
    && (if !Drained(s) then s' == s.(reader := Reading)
        else
          && (if ok then TurnTaken(s, s') && s'.reader == Reading
              else s'.current.None? && s'.heap == s.heap && s'.currentSequence == s.currentSequence)
          && s'.rings == (if s.current.None? then s.rings
                          else s.rings[s.current.value := s.rings[s.current.value].Reset()])
          && s'.pool == (if s.current.None? then s.pool else s.pool + {s.current.value})
          && s' == s.(rings := s'.rings, pool := s'.pool, heap := s'.heap, current := s'.current,
                      consumed := s'.consumed, currentSequence := s'.currentSequence,
                      reader := s'.reader, owner := s'.owner))
  }

  lemma RecycledThenPicked(s: State, mid: State, s': State, ok: bool)
    requires Recycled(s, mid) && Drained(s) && PickedOrNot(mid, s', ok)
    ensures Readies(s, s', ok)
  {
  }

  /** The current ring gives up its oldest message, if it has one and the mode is known. */
  ghost predicate ReadsFrom(s: State, s': State, mode: ReadMode, r: Result<Item>) {
    && s.current.Some? && s.current.value in s.rings && s.rings[s.current.value].Wf()
    && if mode == OtherMode then r == Err(ErrReadMode) && s' == s.(reader := Between)
       else
         var (after, item) := s.rings[s.current.value].Pop();
         && r == (if item.ptr == 0 then Err(ErrRead) else Ok(item))
         && s' == Popped(s, s.rings[s.current.value := after], item)
  }

  /** What a read returns before Close is the next message of the batches in number order. */
  lemma ReadIsNextInOrder(size: nat, threads: set<nat>, s: State, ready: State, s': State,
                          mode: ReadMode, item: Item)
    requires size < TWO31 && Reachable(size, threads, s') && s'.mode != ClosedState
    requires Readies(s, ready, true) && ReadsFrom(ready, s', mode, Ok(item))
    ensures Issued(s') && s'.delivered == s.delivered + [item]
    ensures s.delivered + [item] <= Flatten(ByNumber(s', NextNumber(s') - 1))
  {
    ReachableFacts(size, threads, s');
    assert s'.delivered <= s'.delivered + Remaining(s');
  }

  /** A ring that takes no push does not make a write fail: switching puts a new one in its place,
      and the message is its first. */
  lemma SwitchMakesRoom(size: nat, threads: set<nat>, s: State, t: nat, newRing: nat, s': State,
                        item: Item)
    requires 0 < size < TWO31 && size == s.capacity && Reachable(size, threads, s)
    requires t in s.threads && s.threads[t] == Sealing
    requires newRing in s.rings ==> newRing in s.pool
    requires Switched(s, t, newRing, s') && IsMessage(item)
    ensures s'.active in s'.rings && s'.rings[s'.active].Wf()
    ensures var (r, ok) := s'.rings[s'.active].Write(item);
            ok && Holds(r, 0, [item])
  {
    SealingFacts(size, threads, s, t);
    assert s'.rings[s'.active] == NewRing(size);
    NewHolds(size);
    PushEnqueues(NewRing(size), 0, [], item);
    assert [] + [item] == [item];
  }

  lemma SwitchRetires(s: State, begun: State, t: nat, newRing: nat, s': State)
    requires t in s.threads && s.threads[t] == Outside
    requires begun == Move(s, t, Sealing).(mode := SwitchingState) && Switched(begun, t, newRing, s')
    requires s'.active in s'.rings && s'.rings[s'.active] == NewRing(s.capacity)
    ensures Retires(s, s') && s'.threads == s.threads
    ensures s.rings.Keys <= s'.rings.Keys
  {
  }

  class DoubleBuffer {
    var rings: map<nat, Ring>           // the ring objects
    var nextName: nat
    var active: nat
    var passive: nat
    var currentBuffer: Option<nat>
    const size: nat
    var count: int
    var state: Status
    var pool: set<nat>
    var sequence: nat
    var currentSequence: nat
    const pendingHeap: WrapHeap
    var readMode: ReadMode
    var stops: nat
    var handoffs: seq<nat>              // hand-off goroutines that have not run yet
    var numbered: seq<MinHeapItem>      // and those that have a number and have not pushed

    ghost const threads: set<nat>
    ghost var s: State
    ghost var jobs: seq<Job>                        // the batches that handoffs carry
    ghost var carried: seq<Hand>                    // and those of numbered
    ghost var handOf: map<MinHeapItem, Hand>        // and of the items in the heap

    /** The fields are those of s. */
    ghost predicate Mirrors(reader: Reader)
      reads this
    {
      && 0 < size < TWO31
      && s == s.(capacity := size, rings := rings, mode := state, active := active,
                 passive := passive, pool := pool, sequence := sequence,
                 reader := reader, current := currentBuffer,
                 currentSequence := currentSequence, stops := stops)
    }

    ghost predicate FieldsOk(spawned: set<Job>, batches: nat)
      reads this
    {
      && RingsSound(rings, size, nextName)
      && active in rings && passive in rings && (currentBuffer.Some? ==> currentBuffer.value in rings)
      && pool <= rings.Keys
      && (state != ClosedState ==> count == rings[active].count)
      && HandOffsAre(handoffs, jobs, spawned, batches)
      && (forall r :: r in handoffs ==> r in rings)
    }

    ghost predicate HeapHolds(hands: set<Hand>)
      reads this, pendingHeap, Members(pendingHeap.heap)
    {
      && pendingHeap.Valid()
      && handOf.Keys == Members(pendingHeap.heap)
      && HeapIs(handOf, hands, currentSequence, sequence)
      && (forall x :: x in handOf ==> x.buf in rings)
    }

    ghost predicate HeapOk()
      reads this, pendingHeap, Members(pendingHeap.heap)
    {
      HeapHolds(s.heap)
    }

    ghost predicate CarriedOk()
      reads this
    {
      && Carries(numbered, carried, s.numbered, s.heap, currentSequence, sequence)
      && forall x :: x in numbered ==> x.buf in rings
    }

    ghost predicate Core(reader: Reader)
      reads this
    {
      Reachable(size, threads, s) && Mirrors(reader) && FieldsOk(s.spawned, |s.retired|)
    }

    ghost predicate ValidIn(reader: Reader)
      reads this, pendingHeap, Members(pendingHeap.heap)
    {
      Core(reader) && HeapOk() && CarriedOk()
    }

    /** Between calls. */
    ghost predicate Valid()
      reads this, pendingHeap, Members(pendingHeap.heap)
    {
      ValidIn(Between)
    }

    /** Thread t is not inside switchChannel or Close. */
    ghost predicate Idle(t: nat)
      reads this
    {
      t in s.threads && s.threads[t] == Outside
    }

    constructor (size: nat, readMode: ReadMode, ghost threads: set<nat>)
      requires 0 < size < TWO31
      ensures Valid() && this.size == size && this.readMode == readMode && s == Init(size, threads)
      ensures fresh(pendingHeap) && pendingHeap.heap == [] && handoffs == [] && numbered == []
    {
      this.rings := map[0 := NewRing(size), 1 := NewRing(size)];
      this.nextName, this.active, this.passive, this.currentBuffer := 2, 0, 1, None;
      this.size, this.count, this.state, this.stops := size, 0, WritingState, 0;
      this.pool, this.sequence, this.currentSequence := {}, 0, 1;
      this.pendingHeap := new WrapHeap();
      this.readMode, this.handoffs := readMode, [];
      this.threads, this.s := threads, Init(size, threads);
      this.jobs, this.handOf, this.numbered, this.carried := [], map[], [], [];

    }

    /** An invalid mode is refused; whether a mode is valid is decided in a package that is not part of
        this model. */
    method RegisterReadMode(mode: ReadMode, valid: bool) returns (ok: bool)
      modifies this`readMode
      ensures ok == valid && readMode == if valid then mode else old(readMode)
    {
      if valid {
        readMode := mode;
      }
      ok := valid;
    }

    /** Lines 204 and 223: the item goes to whatever ring is active. */
    method WriteActive(item: Item) returns (ok: bool)
      requires Core(Between) && IsMessage(item) && state != ClosedState
      modifies this`rings, this`count, this`s
      ensures Core(Between)
      ensures s == Wrote(old(s), item, rings, ok) && rings.Keys == old(rings).Keys
      ensures ok <==> !Stuck(old(rings[active]))
      ensures rings[active].state == if ok then WriteOnly else ReadOnly
    {
      WriteSound(rings[active], size, item);
      WriteReachable(size, threads, s, item);
      var (r, written) := rings[active].Write(item);
      rings := rings[active := r];
      assert rings.Keys == old(rings.Keys);
      ok := written;
      if ok {
        count := Wrap32(count + 1);
      }
      s := Wrote(s, item, rings, ok);
    }

    /** The compare-and-swap of line 254. */
    method TryBeginSwitch(ghost t: nat) returns (ok: bool)
      requires Core(Between) && Idle(t)
      modifies this`state, this`s
      ensures Core(Between)
      ensures ok <==> old(state) == WritingState
      ensures s == if ok then Move(old(s), t, Sealing).(mode := SwitchingState) else old(s)
    {
      NextReachable(size, threads, s, TrySwitch(t));
      ok := state == WritingState;
      if ok {
        state := SwitchingState;
        s := Move(s, t, Sealing).(mode := SwitchingState);
      }
    }

    /** sync.Pool: some pooled ring, or a new one. */
    method PoolGet() returns (r: nat)
      requires pool <= rings.Keys && forall q :: q in rings ==> q < nextName
      requires forall q :: q in pool ==> rings[q] == NewRing(size)
      modifies this`pool, this`rings, this`nextName
      ensures r in old(pool) || r !in old(rings)
      ensures pool == old(pool) - {r} && rings == old(rings)[r := NewRing(size)]
      ensures r < nextName && old(nextName) <= nextName
    {
      var hit: bool := *;
      if hit && pool != {} {
        r :| r in pool;
        pool := pool - {r};
      } else {
        r := nextName;
        nextName := nextName + 1;
        rings := rings[r := NewRing(size)];
      }
    }

    /** Lines 265-268 and swapChannels: the active ring is sealed and taken out. */
    method SealAndSwap() returns (buf: nat)
      requires RingsSound(rings, size, nextName) && pool <= rings.Keys
      requires active in rings && passive in rings && active != passive
      requires active !in pool && passive !in pool && rings[passive] == NewRing(size)
      requires forall q :: q in pool ==> rings[q] == NewRing(size)
      modifies this`rings, this`nextName, this`active, this`passive, this`count, this`pool
      ensures buf == old(active) && active == old(passive) && count == 0
      ensures RingsSound(rings, size, nextName) && pool <= rings.Keys && old(rings).Keys <= rings.Keys
      ensures passive != buf && passive != active
      ensures passive in rings && (passive in old(pool) || passive !in old(rings))
      ensures pool == old(pool) - {passive}
      ensures rings == old(rings[active := rings[active].(state := ReadOnly)])[passive := NewRing(size)]
    {
      rings := rings[active := rings[active].(state := ReadOnly)];
      var newBuf := PoolGet();
      buf := active;
      active, passive := passive, newBuf;
      count := 0;
    }

    /** The taken ring goes to a new goroutine. */
    method TakeActive()
      requires FieldsOk(s.spawned, |s.retired|) && active != passive && rings[passive] == NewRing(size)
      requires active !in pool && passive !in pool
      requires forall q :: q in pool ==> rings[q] == NewRing(size)
      modifies this`rings, this`nextName, this`active, this`passive, this`count, this`pool,
               this`handoffs, this`jobs
      ensures FieldsOk(s.spawned + {Job(old(active), |s.retired|)}, |s.retired| + 1)
      ensures active == old(passive) && count == 0 && rings[active] == NewRing(size)
      ensures handoffs == old(handoffs) + [old(active)]
      ensures passive != old(active) && (passive in old(pool) || passive !in old(rings))
      ensures pool == old(pool) - {passive}
      ensures rings == old(rings[active := rings[active].(state := ReadOnly)])[passive := NewRing(size)]
    {
      var buf := SealAndSwap();
      handoffs := handoffs + [buf];
      HandOffAdded(old(handoffs), jobs, s.spawned, |s.retired|, buf);
      jobs := jobs + [Job(buf, |s.retired|)];
    }

    /** Lines 265-284, by a thread whose compare-and-swap succeeded. */
    method FinishSwitch(ghost t: nat)
      requires Core(Between) && t in s.threads && s.threads[t] == Sealing
      modifies this`rings, this`nextName, this`active, this`passive, this`count, this`state,
               this`pool, this`handoffs, this`jobs, this`s
      ensures FieldsOk(s.spawned, |s.retired|) && count == 0
      ensures Reachable(size, threads, s) && Switched(old(s), t, passive, s)
      ensures rings == s.rings && pool == s.pool && active == s.active && state == WritingState
      ensures rings[active] == NewRing(size)
      ensures handoffs == old(handoffs) + [old(active)]
    {
      SealingFacts(size, threads, s, t);
      TakeActive();
      state := WritingState;
      s := SwitchReachable(size, threads, s, t, passive);
    }

    method CompleteSwitch(ghost t: nat)
      requires Core(Between) && t in s.threads && s.threads[t] == Sealing
      modifies this`rings, this`nextName, this`active, this`passive, this`count, this`state,
               this`pool, this`handoffs, this`jobs, this`s
      ensures Core(Between) && Switched(old(s), t, passive, s) && rings[active] == NewRing(size)
      ensures handoffs == old(handoffs) + [old(active)]
    {
      FinishSwitch(t);
    }

    /** Without the heap, which a switch does not touch. */
    method SwitchRings(ghost t: nat) returns (ok: bool)
      requires Core(Between) && Idle(t)
      modifies this`rings, this`nextName, this`active, this`passive, this`count, this`state,
               this`pool, this`handoffs, this`jobs, this`s
      ensures Core(Between)
      ensures ok <==> old(state) == WritingState
      ensures !ok ==> s == old(s) && handoffs == old(handoffs)
      ensures ok ==> Retires(old(s), s)
      ensures ok ==> handoffs == old(handoffs) + [old(active)] && s.threads == old(s).threads
      ensures old(rings).Keys <= rings.Keys
    {
      ok := TryBeginSwitch(t);
      if ok {
        ghost var begun := s;
        CompleteSwitch(t);
        SwitchRetires(old(s), begun, t, passive, s);
      }
    }

    method SwitchChannel(ghost t: nat) returns (ok: bool)
      requires Valid() && Idle(t)
      modifies this`rings, this`nextName, this`active, this`passive, this`count, this`state,
               this`pool, this`handoffs, this`jobs, this`s
      ensures Valid()
      ensures ok <==> old(state) == WritingState
      ensures !ok ==> s == old(s) && handoffs == old(handoffs)
      ensures ok ==> Retires(old(s), s) && s.threads == old(s).threads
      ensures ok ==> handoffs == old(handoffs) + [old(active)]
    {
      ok := SwitchRings(t);
    }

    /** Lines 211-229: a sealed ring is retired first, unless another thread holds the mode. */
    method StoreSlow(ghost t: nat, item: Item) returns (err: Option<Error>)
      requires Core(Between) && IsMessage(item) && state != ClosedState && Idle(t)
      requires state == WritingState ==> rings[active].state == ReadOnly
      modifies this`rings, this`nextName, this`active, this`passive, this`count, this`state,
               this`pool, this`handoffs, this`jobs, this`s
      ensures Core(Between) && Writes(old(s), s, item, err)
      ensures handoffs == old(handoffs) + if |s.retired| == |old(s).retired| then [] else [old(active)]
      ensures old(rings).Keys <= rings.Keys
    {
      ModeFacts(size, threads, s);
      if rings[active].state == ReadOnly {
        var _ := SwitchRings(t);
      }
      var ok := WriteActive(item);
      ActiveLength(size, threads, s);
      err := if ok then None else Some(ErrReadOnly);
    }

    /** The fast path and the low path, without the heap, which they do not touch. */
    method Store(ghost t: nat, item: Item) returns (err: Option<Error>)
      requires Core(Between) && IsMessage(item) && (state != ClosedState ==> Idle(t))
      modifies this`rings, this`nextName, this`active, this`passive, this`count, this`state,
               this`pool, this`handoffs, this`jobs, this`s
      ensures Core(Between) && Writes(old(s), s, item, err)
      ensures handoffs == old(handoffs) + if |s.retired| == |old(s).retired| then [] else [old(active)]
      ensures old(rings).Keys <= rings.Keys
    {
      ModeFacts(size, threads, s);
      if state == ClosedState {
        return Some(ErrBufferClose);
      }
      if state == WritingState {
        var ok := WriteActive(item);
        if ok {
          ActiveLength(size, threads, s);
          return None;
        }
      }
      err := StoreSlow(t, item);
    }

    method Write(ghost t: nat, item: Item) returns (err: Option<Error>)
      requires Valid() && IsMessage(item) && (state != ClosedState ==> Idle(t))
      modifies this`rings, this`nextName, this`active, this`passive, this`count, this`state,
               this`pool, this`handoffs, this`jobs, this`s
      ensures Valid() && Writes(old(s), s, item, err)
      ensures err.None? ==> count == rings[active].count
      ensures s.heap == old(s).heap && s.numbered == old(s).numbered
      ensures handoffs == old(handoffs) + if |s.retired| == |old(s).retired| then [] else [old(active)]
    {
      err := Store(t, item);
    }

    /** The number is taken for the ring of goroutine k. */
    method NextNumberFor(k: nat) returns (ring: nat, ghost job: Job)
      requires Core(Between) && k < |handoffs|
      modifies this`sequence, this`handoffs, this`jobs, this`s
      ensures Core(Between) && sequence == old(sequence) + 1
      ensures job == old(jobs[k]) && job in old(s.spawned) && ring == job.ring && ring in rings
      ensures handoffs == Without(old(handoffs), k)
      ensures job.batch < |old(s.retired)| && NumberTaken(old(s), job, s)
    {
      ring, job := handoffs[k], jobs[k];
      assert ring in handoffs;
      sequence := sequence + 1;
      HandOffRemoved(handoffs, jobs, s.spawned, |s.retired|, k);
      handoffs, jobs := Without(handoffs, k), Without(jobs, k);
      s := NumberReachable(size, threads, s, job);
    }

    /** The new item is the last of those numbered. */
    method Carry(item: MinHeapItem, ghost hand: Hand, ghost others: set<Hand>)
      requires hand.number == sequence > 0 && s.numbered == others + {hand}
      requires Carries(numbered, carried, others, s.heap, currentSequence, sequence - 1)
      requires forall x :: x in numbered + [item] ==> x.buf in rings
      requires sequence >= currentSequence && forall h :: h in s.heap ==> h.number < sequence
      requires item.sequence == hand.number && item.buf == hand.job.ring
      modifies this`numbered, this`carried
      ensures CarriedOk() && numbered == old(numbered) + [item]
    {
      CarriesMore(numbered, carried, others, s.heap, currentSequence, sequence - 1, hand, item);
      numbered, carried := numbered + [item], carried + [hand];
    }

    /** Line 272, without the heap. */
    method NumberRing(k: nat) returns (item: MinHeapItem)
      requires Core(Between) && CarriedOk() && k < |handoffs|
      requires HeapIs(handOf, s.heap, currentSequence, sequence)
      modifies this`sequence, this`handoffs, this`jobs, this`numbered, this`carried, this`s
      ensures Core(Between) && CarriedOk() && sequence == old(sequence) + 1
      ensures HeapIs(handOf, s.heap, currentSequence, sequence)
      ensures handoffs == Without(old(handoffs), k)
      ensures fresh(item) && numbered == old(numbered) + [item]
      ensures old(jobs[k]).batch < |old(s.retired)| && NumberTaken(old(s), old(jobs[k]), s)
    {
      var ring;
      ghost var job;
      ring, job := NextNumberFor(k);
      HeapUpTo(handOf, s.heap, currentSequence, sequence - 1);
      item := new MinHeapItem(sequence, ring);
      Carry(item, Hand(sequence, job), old(s).numbered);
    }

    /** Line 272: goroutine k takes the next number for its ring. */
    method TakeNumber(k: nat) returns (item: MinHeapItem)
      requires Valid() && k < |handoffs|
      modifies this`sequence, this`handoffs, this`jobs, this`numbered, this`carried, this`s
      ensures Valid() && sequence == old(sequence) + 1
      ensures handoffs == Without(old(handoffs), k)
      ensures fresh(item) && numbered == old(numbered) + [item]
      ensures old(jobs[k]).batch < |old(s.retired)| && NumberTaken(old(s), old(jobs[k]), s)
    {
      item := NumberRing(k);
    }

    /** The heap's part of line 273. */
    method PushItem(k: nat, ghost hand: Hand)
      requires Core(Between) && HeapOk() && k < |numbered| && numbered[k] !in handOf
      requires currentSequence <= numbered[k].sequence <= sequence && numbered[k].buf in rings
      requires numbered[k].sequence == hand.number && numbered[k].buf == hand.job.ring
      requires forall x :: x in handOf ==> x.sequence != numbered[k].sequence
      modifies this`handOf, this`numbered, pendingHeap, Members(pendingHeap.heap), numbered[k]
      ensures Core(Between) && HeapHolds(s.heap + {hand}) && numbered == Without(old(numbered), k)
      ensures Members(pendingHeap.heap) == Members(old(pendingHeap.heap)) + {old(numbered[k])}
    {
      var item := numbered[k];
      HeapPushed(handOf, s.heap, currentSequence, sequence, item, hand);
      pendingHeap.Push(item);
      handOf := handOf[item := hand];
      numbered := Without(numbered, k);
    }

    /** The bookkeeping's part of it. */
    ghost method AddHand(was: seq<MinHeapItem>, k: nat)
      requires Core(Between) && k < |was| == |carried| && HeapHolds(s.heap + {carried[k]})
      requires Carries(was, carried, s.numbered, s.heap, currentSequence, sequence)
      requires numbered == Without(was, k) && forall x :: x in numbered ==> x.buf in rings
      modifies this`s, this`carried
      ensures Valid()
      ensures old(carried[k]) in old(s).numbered && HandPushed(old(s), old(carried[k]), s)
    {
      CarriesLess(was, carried, s.numbered, s.heap, currentSequence, sequence, k);
      s := PushReachable(size, threads, s, carried[k]);
      carried := Without(carried, k);
    }

    /** Line 273: the goroutine with the k-th of the numbers not pushed yet pushes its ring. */
    method PushHand(k: nat)
      requires Valid() && k < |numbered|
      modifies this`numbered, this`carried, this`handOf, this`s,
               pendingHeap, Members(pendingHeap.heap), numbered[k]
      ensures Valid() && numbered == Without(old(numbered), k)
      ensures Members(pendingHeap.heap) == Members(old(pendingHeap.heap)) + {old(numbered[k])}
      ensures old(carried[k]) in old(s).numbered && HandPushed(old(s), old(carried[k]), s)
    {
      ghost var was := numbered;
      CarriedIsNew(handOf, was, carried, s.numbered, s.heap, currentSequence, sequence, k);
      PushItem(k, carried[k]);
      AddHand(was, k);
    }

    /** Lines 482-485. */
    method ResetRing(r: nat)
      requires FieldsOk(s.spawned, |s.retired|) && currentBuffer == Some(r)
      requires state != ClosedState ==> r != active
      modifies this`rings, this`pool, this`currentBuffer
      ensures FieldsOk(s.spawned, |s.retired|) && currentBuffer == None
      ensures rings == old(rings[r := rings[r].Reset()]) && pool == old(pool) + {r}
    {
      OneRingSound(rings, size, nextName, r, rings[r].Reset());
      rings := rings[r := rings[r].Reset()];
      currentBuffer := None;
      pool := pool + {r};
    }

    method ResetCurrent()
      requires Core(Between) && currentBuffer.Some? && rings[currentBuffer.value].count == 0
      modifies this`rings, this`pool, this`currentBuffer, this`s
      ensures Core(s.reader) && Recycled(old(s), s) && rings.Keys == old(rings).Keys
    {
      if state != ClosedState { CurrentIsNotActive(size, threads, s); }
      ResetRing(currentBuffer.value);
      s := BeginReadReachable(size, threads, s);
    }

    /** Lines 480-486: a drained current ring is reset and put back in the pool. */
    method Recycle()
      requires Core(Between)
      modifies this`rings, this`pool, this`currentBuffer, this`s
      ensures Core(s.reader) && Recycled(old(s), s) && rings.Keys == old(rings).Keys
    {
      if currentBuffer.Some? && rings[currentBuffer.value].count == 0 {
        ResetCurrent();
      } else {
        s := BeginReadReachable(size, threads, s);
      }
    }

    /** An item just picked, the least. */
    ghost predicate InHand(item: MinHeapItem, reader: Reader)
      reads this, pendingHeap, Members(pendingHeap.heap)
    {
      && Core(reader) && HeapIs(handOf, s.heap, currentSequence, sequence)
      && pendingHeap.Valid() && item !in pendingHeap.heap && item in handOf
      && handOf.Keys == Members(pendingHeap.heap) + {item}
      && (forall x :: x in handOf ==> x.buf in rings && item.sequence <= x.sequence)
    }

    /** Lines 315-316. */
    method Take(buf: nat, ghost hand: Hand, ghost tries: nat)
      requires Core(Picking(tries)) && Least(hand, s.heap) && hand.number == currentSequence
      requires buf == hand.job.ring && buf in rings
      modifies this`currentBuffer, this`currentSequence, this`s
      ensures Core(Reading) && Compared(old(s), hand, s) && currentSequence == old(currentSequence) + 1
    {
      currentBuffer := Some(buf);
      currentSequence := currentSequence + 1;
      s := PickReachable(size, threads, s, hand);
    }

    method TakeItem(item: MinHeapItem, ghost tries: nat)
      requires InHand(item, Picking(tries)) && item.sequence == currentSequence
      modifies this`currentBuffer, this`currentSequence, this`handOf, this`s
      ensures Core(Reading) && HeapOk() && currentSequence == old(currentSequence) + 1
      ensures Compared(old(s), old(handOf[item]), s)
    {
      PickedIsLeast(handOf, s.heap, currentSequence, sequence, item);
      HeapPicked(handOf, s.heap, currentSequence, sequence, item);
      Take(item.buf, handOf[item], tries);
      handOf := handOf - {item};
    }

    method TakePicked(item: MinHeapItem, ghost tries: nat)
      requires InHand(item, Picking(tries)) && CarriedOk() && item.sequence == currentSequence
      modifies this`currentBuffer, this`currentSequence, this`handOf, this`s
      ensures ValidIn(Reading) && Picked(old(s), s, true)
    {
      CarriesOn(numbered, carried, s.numbered, s.heap, currentSequence, sequence, handOf[item]);
      TakeItem(item, tries);
      ComparedIsPicked(old(handOf), item, old(s), s);
    }

    /** Line 320. */
    method PutBack(item: MinHeapItem, ghost tries: nat)
      requires InHand(item, Picking(tries)) && item.sequence != currentSequence
      modifies this`s, pendingHeap, Members(pendingHeap.heap), item
      ensures Core(s.reader) && HeapOk() && Picked(old(s), s, false)
      ensures s.reader == if tries + 1 < MAX_RETIRES then Picking(tries + 1) else Between
      ensures Members(pendingHeap.heap) == Members(old(pendingHeap.heap)) + {item}
    {
      PickedIsLeast(handOf, s.heap, currentSequence, sequence, item);
      ghost var after := PickReachable(size, threads, s, handOf[item]);
      ComparedIsPicked(handOf, item, s, after);
      pendingHeap.Push(item);
      s := after;
    }

    /** Line 311: the heap is empty. */
    ghost method PickNothing(tries: nat)
      requires ValidIn(Picking(tries)) && pendingHeap.heap == []
      modifies this`s
      ensures ValidIn(Between) && Picked(old(s), s, false)
    {
      PickNothingReachable(size, threads, s);
      s := s.(reader := Between);
    }

    /** Lines 309-321, once: the item with the least number is taken if its turn has come. */
    method PickOnce(ghost tries: nat) returns (found: bool, empty: bool)
      requires ValidIn(Picking(tries))
      modifies this`currentBuffer, this`currentSequence, this`handOf, this`s,
               pendingHeap, Members(pendingHeap.heap)
      ensures ValidIn(s.reader) && Picked(old(s), s, found)
      ensures s.reader == if found then Reading
                          else if empty || tries + 1 >= MAX_RETIRES then Between else Picking(tries + 1)
      ensures empty ==> !found
      ensures Members(pendingHeap.heap) <= Members(old(pendingHeap.heap))
    {
      var next := pendingHeap.Pick();
      empty := next == null;
      if empty {
        PickNothing(tries);
        return false, true;
      }
      found := next.sequence == currentSequence;
      if found {
        TakePicked(next, tries);
      } else {
        PutBack(next, tries);
      }
    }

    method PickBufferFromHeap() returns (ok: bool)
      requires ValidIn(Picking(0)) && currentBuffer.None?
      modifies this`currentBuffer, this`currentSequence, this`handOf, this`s,
               pendingHeap, Members(pendingHeap.heap)
      ensures ValidIn(if ok then Reading else Between)
      ensures ok <==> InHeap(old(s.heap), old(currentSequence))
      ensures PickedOrNot(old(s), s, ok)
      ensures Members(pendingHeap.heap) <= Members(old(pendingHeap.heap))
    {
      var counter := 0;
      ok := false;
      while counter < MAX_RETIRES && !ok
        invariant counter <= MAX_RETIRES
        invariant ValidIn(s.reader)
        invariant s.reader == if ok then Reading else if counter < MAX_RETIRES then Picking(counter) else Between
        invariant if ok then PickedOrNot(old(s), s, ok) else Untaken(old(s), s)
        invariant Members(pendingHeap.heap) <= old(Members(pendingHeap.heap))
        invariant counter > 0 && !ok ==> !InHeap(old(s.heap), old(currentSequence))
        decreases MAX_RETIRES - counter, !ok
      {
        var empty;
        ghost var before := s;
        ok, empty := PickOnce(counter);
        PickedAfter(old(s), before, s, ok);
        if empty {
          return;
        }
        if !ok {
          counter := counter + 1;
        }
      }
    }

    /** The pop that safeRead and zeroCopyRead begin with. */
    method PopCurrent() returns (item: Item)
      requires Core(Reading) && currentBuffer.Some?
      modifies this`rings, this`s
      ensures Core(Between) && currentBuffer == old(currentBuffer)
      ensures item == NO_ITEM || IsMessage(item)
      ensures var (after, popped) := old(rings)[currentBuffer.value].Pop();
              item == popped && rings == old(rings)[currentBuffer.value := after]
      ensures s == Popped(old(s), rings, item)
    {
      var current := currentBuffer.value;
      if state != ClosedState { CurrentIsNotActive(size, threads, s); }
      PopSound(rings[current], size);
      ReadItemReachable(size, threads, s);
      var (r, popped) := rings[current].Pop();
      item := popped;
      rings := rings[current := r];
      assert rings.Keys == old(rings).Keys;
      s := Popped(s, rings, item);
    }

    /** Line 382 tests the size, line 437 the pointer. */
    method ReadCurrent() returns (r: Result<Item>)
      requires Core(Reading) && currentBuffer.Some?
      modifies this`rings, this`s
      ensures Core(Between) && ReadsFrom(old(s), s, readMode, r)
      ensures s.heap == old(s).heap && s.numbered == old(s).numbered && rings.Keys == old(rings).Keys
    {
      match readMode
      case SafeRead =>
        var item := PopCurrent();
        r := if item.size == 0 then Err(ErrRead) else Ok(item);
      case ZeroCopyRead =>
        var item := PopCurrent();
        r := if item.ptr == 0 then Err(ErrRead) else Ok(item);
      case OtherMode =>
        RefuseReadReachable(size, threads, s);
        s := s.(reader := Between);
        r := Err(ErrReadMode);
    }

    /** Lines 480-490: a ring to read from, if there is one. */
    method NextCurrent() returns (ok: bool)
      requires Valid()
      modifies this`rings, this`pool, this`currentBuffer, this`currentSequence, this`handOf, this`s,
               pendingHeap, Members(pendingHeap.heap)
      ensures ValidIn(if ok then Reading else Between) && Readies(old(s), s, ok)
      ensures Members(pendingHeap.heap) <= Members(old(pendingHeap.heap))
    {
      Recycle();
      ok := currentBuffer.Some?;
      if !ok {
        ghost var recycled := s;
        ok := PickBufferFromHeap();
        RecycledThenPicked(old(s), recycled, s, ok);
      }
    }

    /** A read from the ring that is ready. */
    method ReadReady() returns (r: Result<Item>)
      requires ValidIn(Reading) && currentBuffer.Some?
      modifies this`rings, this`s
      ensures Valid() && ReadsFrom(old(s), s, readMode, r)
    {
      r := ReadCurrent();
    }

    method TryRead() returns (r: Result<Item>, ghost ready: State)
      requires Valid()
      modifies this`rings, this`pool, this`currentBuffer, this`currentSequence, this`handOf, this`s,
               pendingHeap, Members(pendingHeap.heap)
      ensures Valid() && Reachable(size, threads, ready)
      ensures Readies(old(s), ready, r != Err(ErrNoBuffer))
      ensures Members(pendingHeap.heap) <= Members(old(pendingHeap.heap))
      ensures if r == Err(ErrNoBuffer) then s == ready else ReadsFrom(ready, s, readMode, r)
    {
      var ok := NextCurrent();
      ready := s;
      if !ok {
        return Err(ErrNoBuffer), ready;
      }
      r := ReadReady();
    }

    /** Lines 530-541. */
    method CloseMode(ghost t: nat)
      requires Core(Between) && t in s.threads && state == WritingState
      modifies this`state, this`stops, this`pool, this`s
      ensures Core(Between) && Stopped(old(s), s, t)
    {
      ModeFacts(size, threads, s);
      state := ClosedState;
      stops := stops + 1;
      pool := pool + {active, passive};
      s := CloseReachable(size, threads, s, t);
    }

    /** Lines 523-525. */
    method DropHand(ghost t: nat, buf: nat, ghost hand: Hand)
      requires Core(Between) && t in s.threads && s.threads[t] == Draining && Least(hand, s.heap)
      requires buf == hand.job.ring && buf in rings
      modifies this`pool, this`s
      ensures Core(Between) && Drains(old(s), hand, s)
    {
      DrainReachable(size, threads, s, t, hand);
      pool := pool + {buf};
      s := s.(heap := s.heap - {hand}, pool := pool);
    }

    /** The picked item's ring goes to the pool. */
    method DropItem(ghost t: nat, item: MinHeapItem)
      requires InHand(item, Between) && t in s.threads && s.threads[t] == Draining
      modifies this`pool, this`handOf, this`s
      ensures Core(Between) && HeapOk() && Drains(old(s), old(handOf[item]), s)
    {
      PickedIsLeast(handOf, s.heap, currentSequence, sequence, item);
      HeapDropped(handOf, s.heap, currentSequence, sequence, item);
      DropHand(t, item.buf, handOf[item]);
      handOf := handOf - {item};
    }

    method DropPicked(ghost t: nat, item: MinHeapItem)
      requires InHand(item, Between) && CarriedOk() && t in s.threads && s.threads[t] == Draining
      modifies this`pool, this`handOf, this`s
      ensures Valid() && Drains(old(s), old(handOf[item]), s)
    {
      CarriesStill(numbered, carried, s.numbered, s.heap, currentSequence, sequence, handOf[item]);
      DropItem(t, item);
    }

    /** Lines 522-525, once. */
    method DrainOne(ghost t: nat) returns (ghost hand: Hand)
      requires Valid() && t in s.threads && s.threads[t] == Draining && pendingHeap.heap != []
      modifies this`pool, this`handOf, this`s, pendingHeap, Members(pendingHeap.heap)
      ensures Valid() && Drains(old(s), hand, s)
      ensures Members(pendingHeap.heap) <= Members(old(pendingHeap.heap))
      ensures |pendingHeap.heap| < |old(pendingHeap.heap)|
    {
      var item := pendingHeap.Pick();
      hand := handOf[item];
      DropPicked(t, item);
    }

    method DrainMore(ghost t: nat, ghost from: State)
      requires Valid() && t in s.threads && s.threads[t] == Draining && pendingHeap.heap != []
      requires DrainsSome(from, s)
      modifies this`pool, this`handOf, this`s, pendingHeap, Members(pendingHeap.heap)
      ensures Valid() && DrainsSome(from, s)
      ensures Members(pendingHeap.heap) <= Members(old(pendingHeap.heap))
      ensures |pendingHeap.heap| < |old(pendingHeap.heap)|
    {
      ghost var before := s;
      ghost var hand := DrainOne(t);
      DrainsOneMore(from, before, hand, s);
    }

    method DrainProcessor(ghost t: nat)
      requires Valid() && t in s.threads && s.threads[t] == Draining
      modifies this`pool, this`handOf, this`s, pendingHeap, Members(pendingHeap.heap)
      ensures Valid() && pendingHeap.heap == [] && DrainsAll(old(s), s)
    {
      var n := pendingHeap.Len();
      while n > 0
        invariant Valid() && n == |pendingHeap.heap|
        invariant DrainsSome(old(s), s)
        invariant Members(pendingHeap.heap) <= old(Members(pendingHeap.heap))
        decreases n
      {
        DrainMore(t, old(s));
        n := pendingHeap.Len();
      }
    }

    /** Only a call in Writing mode has an effect: the mode is closed for good, the stop channel is closed,
        and every ring that no reader or goroutine holds goes to the pool. */
    method Close(ghost t: nat)
      requires Valid() && t in s.threads
      modifies this`state, this`stops, this`pool, this`handOf, this`s,
               pendingHeap, Members(pendingHeap.heap)
      ensures Valid() && (old(state) != WritingState ==> s == old(s))
      ensures old(state) == WritingState ==>
                pendingHeap.heap == [] && s == old(s).(mode := ClosedState, heap := {},
                  threads := old(s).threads[t := Draining], stops := old(s).stops + 1,
                  pool := old(s).pool + {active, passive} + RingsOf(old(s).heap))
    {
      if state == WritingState {
        CloseMode(t);
        DrainProcessor(t);
      }
    }
  }
}
