/** What every step of the pipeline keeps until Close: who holds each ring, what it contains, and
    how the sequence numbers are spread. */
module PipelineInv {
  import opened RingIndex
  import opened Rings
  import opened Pipeline

  // ---------- owners ----------

  /** Place p really refers to ring r, by the fields of the double buffer alone. */
  predicate Refers(s: State, p: Place, r: nat) {
    match p
    case AtActive => s.active == r
    case AtPassive => s.passive == r
    case AtThread(t) =>
      t in s.threads && (s.threads[t] == Swapping(r)
                         || (s.threads[t].Spawning? && s.threads[t].job.ring == r))
    case AtSpawned(b) => Job(r, b) in s.spawned
    case AtNumbered(n, b) => Hand(n, Job(r, b)) in s.numbered
    case AtHeap(n, b) => Hand(n, Job(r, b)) in s.heap
    case AtReader(n, b) => s.reader.Comparing? && s.reader.hand == Hand(n, Job(r, b))
    case AtCurrent => s.current == Some(r)
    case AtPool => r in s.pool
    case AtCollector => r in s.collected
  }

  /** Every ring is referred to from exactly one place. */
  ghost predicate Owned(s: State) {
    && s.rings.Keys == s.owner.Keys
    && (forall r :: r in s.owner ==> Refers(s, s.owner[r], r))
    && (forall p, r :: Refers(s, p, r) ==> r in s.owner && s.owner[r] == p)
  }

  /** One ring changes hands. */
  lemma RingMoves(s: State, t: State, r: nat, from: Place, to: Place)
    requires Owned(s) && (r in s.owner ==> s.owner[r] == from)
    requires t.owner == s.owner[r := to] && t.rings.Keys == s.rings.Keys + {r}
    requires Refers(t, to, r)
    requires forall p, q :: Refers(t, p, q) ==>
               (q == r && p == to) || (Refers(s, p, q) && !(q == r && p == from))
    requires forall p, q :: Refers(s, p, q) && q != r ==> Refers(t, p, q)
    ensures Owned(t)
  {
  }

  /** No ring changes hands. */
  lemma RingsStay(s: State, t: State)
    requires Owned(s) && t.owner == s.owner && t.rings.Keys == s.rings.Keys
    requires forall p, q :: Refers(t, p, q) ==> Refers(s, p, q)
    requires forall p, q :: Refers(s, p, q) ==> Refers(t, p, q)
    ensures Owned(t)
  {
  }

  // ---------- contents ----------

  /** The batch of the ring the reader took last. */
  function CurrentBatch(s: State): nat
    requires 2 <= NextNumber(s) <= |s.numbering| + 1
  {
    s.numbering[NextNumber(s) - 2].batch
  }

  datatype View = Pristine | Queue(taken: nat, items: seq<Item>) | Anything

  function BatchView(s: State, b: nat): View {
    if b < |s.retired| then Queue(0, s.retired[b].items) else Anything
  }

  /** What a ring holds follows from where it is. */
  function Expected(s: State, r: nat): View
    requires r in s.owner
  {
    match s.owner[r]
    case AtActive => Queue(0, s.filling)
    case AtPassive => Pristine
    case AtThread(t) =>
      if t in s.threads && s.threads[t].Spawning? then BatchView(s, s.threads[t].job.batch)
      else Pristine
    case AtSpawned(b) => BatchView(s, b)
    case AtNumbered(_, b) => BatchView(s, b)
    case AtHeap(_, b) => BatchView(s, b)
    case AtReader(_, b) => BatchView(s, b)
    case AtCurrent =>
      if 2 <= NextNumber(s) <= |s.numbering| + 1 && CurrentBatch(s) < |s.retired|
         && s.consumed <= |s.retired[CurrentBatch(s)].items|
      then Queue(s.consumed, s.retired[CurrentBatch(s)].items[s.consumed..])
      else Anything
    case AtPool => Pristine
    case AtCollector => Anything
  }

  ghost predicate Matches(r: Ring, capacity: nat, v: View) {
    && |r.buf| == capacity
    && match v
       case Pristine => r == NewRing(capacity)
       case Queue(t, q) => Holds(r, t, q) && t + |q| <= capacity
       case Anything => true
  }

  ghost predicate Contents(s: State) {
    && s.capacity < TWO31
    && s.rings.Keys == s.owner.Keys
    && forall r :: r in s.rings ==> Matches(s.rings[r], s.capacity, Expected(s, r))
  }

  /** Nothing but ring r0 has changed, and that as expected. */
  lemma ContentsFrame(s: State, t: State, r0: nat)
    requires Contents(s) && t.capacity == s.capacity
    requires t.rings.Keys == t.owner.Keys == s.rings.Keys + {r0}
    requires forall r :: r in s.rings && r != r0 ==>
               t.rings[r] == s.rings[r] && Expected(t, r) == Expected(s, r)
    requires Matches(t.rings[r0], t.capacity, Expected(t, r0))
    ensures Contents(t)
  {
  }

  /** Nothing at all has changed for the rings. */
  lemma ContentsSame(s: State, t: State)
    requires Contents(s) && t.capacity == s.capacity && t.rings == s.rings
    requires t.owner.Keys == s.owner.Keys
    requires forall r :: r in s.owner ==> Expected(t, r) == Expected(s, r)
    ensures Contents(t)
  {
  }

  // ---------- numbers ----------

  /** Ring r holds batch b, which has no number yet. */
  predicate Waiting(s: State, r: nat, b: nat) {
    b < |s.retired| && s.retired[b].ring == r && s.retired[b].number == 0
  }

  /** Number n was given to ring r for batch b, and has not been taken. */
  predicate Outstanding(s: State, n: nat, r: nat, b: nat) {
    1 <= NextNumber(s) <= n <= |s.numbering| && s.numbering[n - 1] == Job(r, b) && b < |s.retired|
  }

  /** The numbers attached to where a ring is are the ones that were issued. */
  predicate PlaceOk(s: State, r: nat)
    requires r in s.owner
  {
    match s.owner[r]
    case AtThread(t) =>
      t in s.threads && (s.threads[t].Spawning? ==> Waiting(s, r, s.threads[t].job.batch))
    case AtSpawned(b) => Waiting(s, r, b)
    case AtNumbered(n, b) => Outstanding(s, n, r, b)
    case AtHeap(n, b) => Outstanding(s, n, r, b)
    case AtReader(n, b) => Outstanding(s, n, r, b)
    case _ => true
  }

  ghost predicate Placed(s: State) {
    forall r :: r in s.owner ==> PlaceOk(s, r)
  }

  /** Ring r is on its way to the reader under number n. */
  predicate OnItsWay(p: Place, n: nat, b: nat) {
    p == AtNumbered(n, b) || p == AtHeap(n, b) || p == AtReader(n, b)
  }

  /** A batch without a number is still with the switching thread or its goroutine. */
  ghost predicate Unnumbered(s: State, b: nat)
    requires b < |s.retired|
  {
    var r := s.retired[b].ring;
    && r in s.owner
    && (s.owner[r] == AtSpawned(b)
        || (s.owner[r].AtThread? && s.owner[r].t in s.threads
            && s.threads[s.owner[r].t] == Spawning(Job(r, b))))
  }

  /** The n-th number issued is the number of its batch. */
  predicate NumberOk(s: State, n: nat)
    requires n < |s.numbering|
  {
    var job := s.numbering[n];
    && job.batch < |s.retired|
    && s.retired[job.batch].number == n + 1
    && s.retired[job.batch].ring == job.ring
  }

  /** A batch that has a number is the batch of that number. */
  predicate BatchOk(s: State, b: nat)
    requires b < |s.retired|
  {
    var n := s.retired[b].number;
    && |s.retired[b].items| <= s.capacity
    && n <= |s.numbering|
    && (n != 0 ==> s.numbering[n - 1].batch == b)
  }

  /** Numbers and batches match up, one to one. */
  ghost predicate Issued(s: State) {
    && |s.numbering| == s.sequence
    && 1 <= s.currentSequence && NextNumber(s) <= s.sequence + 1
    && (forall n :: 0 <= n < |s.numbering| ==> NumberOk(s, n))
    && (forall b :: 0 <= b < |s.retired| ==> BatchOk(s, b))
  }

  /** The n-th numbered ring is on its way to the reader. */
  ghost predicate Underway(s: State, n: nat)
    requires n < |s.numbering|
  {
    && s.numbering[n].ring in s.owner
    && OnItsWay(s.owner[s.numbering[n].ring], n + 1, s.numbering[n].batch)
  }

  /** Every batch not taken yet is somewhere. */
  ghost predicate NoneLost(s: State) {
    && (forall b :: 0 <= b < |s.retired| && s.retired[b].number == 0 ==> Unnumbered(s, b))
    && (forall n :: 0 <= NextNumber(s) - 1 <= n < |s.numbering| ==> Underway(s, n))
  }

  ghost predicate Numbers(s: State) {
    Issued(s) && NoneLost(s)
  }

  ghost predicate Turns(s: State) {
    && (s.reader == Counting || s.reader == Reading ==> s.current.Some?)
    && (s.reader.Picking? || s.reader.Comparing? ==> s.current.None?)
  }

  // ---------- streams ----------

  ghost function Flatten(batches: seq<seq<Item>>): seq<Item> {
    if batches == [] then []
    else Flatten(batches[..|batches| - 1]) + batches[|batches| - 1]
  }

  ghost function Batches(retired: seq<Retired>): (batches: seq<seq<Item>>)
    ensures |batches| == |retired|
    ensures forall b :: 0 <= b < |retired| ==> batches[b] == retired[b].items
  {
    seq(|retired|, b requires 0 <= b < |retired| => retired[b].items)
  }

  /** The batches of the first k numbers, in number order. */
  ghost function ByNumber(s: State, k: nat): (batches: seq<seq<Item>>)
    requires k <= |s.numbering|
    requires forall n :: 0 <= n < |s.numbering| ==> NumberOk(s, n)
    ensures |batches| == k
    ensures forall n :: 0 <= n < k ==>
              NumberOk(s, n) && batches[n] == s.retired[s.numbering[n].batch].items
  {
    seq(k, n requires 0 <= n < k =>
      assert NumberOk(s, n); s.retired[s.numbering[n].batch].items)
  }

  /** The current ring is that of the number taken last. */
  ghost predicate CurrentKnown(s: State) {
    s.current.Some? ==>
      && 2 <= NextNumber(s) <= |s.numbering| + 1
      && CurrentBatch(s) < |s.retired|
      && s.consumed <= |s.retired[CurrentBatch(s)].items|
  }

  /** What the current ring still holds. */
  ghost function Remaining(s: State): seq<Item>
    requires CurrentKnown(s)
  {
    if s.current.None? then [] else s.retired[CurrentBatch(s)].items[s.consumed..]
  }

  /** Written is the retired batches in switch order and the active ring; delivered is the taken
      batches in number order, short of what the current ring still holds. */
  ghost predicate Streams(s: State)
    requires Issued(s)
  {
    && s.written == Flatten(Batches(s.retired)) + s.filling
    && CurrentKnown(s)
    && s.delivered + Remaining(s) == Flatten(ByNumber(s, NextNumber(s) - 1))
  }

  ghost predicate PipeInv(s: State) {
    Owned(s) && Contents(s) && Placed(s) && Numbers(s) && Turns(s) && Streams(s)
  }

  lemma InitContents(capacity: nat, threads: set<nat>)
    requires capacity < TWO31
    ensures Contents(Init(capacity, threads))
  {
  }

  lemma InitNumbers(capacity: nat, threads: set<nat>)
    ensures Placed(Init(capacity, threads))
    ensures Numbers(Init(capacity, threads)) && Turns(Init(capacity, threads))
  {
  }

  lemma InitStreams(s: State)
    requires Issued(s)
    requires s.retired == [] && s.filling == [] && s.written == [] && s.delivered == []
    requires s.current.None? && NextNumber(s) == 1
    ensures Streams(s)
  {
  }

  lemma InitPipe(capacity: nat, threads: set<nat>)
    requires capacity < TWO31
    ensures PipeInv(Init(capacity, threads))
  {
    InitContents(capacity, threads);
    InitNumbers(capacity, threads);
    InitStreams(Init(capacity, threads));
  }
}
