/** Push and Pop of component/smart_buffer.go broken into their atomic operations, interleaved
    freely by any number of producers and consumers. */
module RingSteps {
  import opened RingIndex
  import opened Rings
  import opened SmartBuffers

  /** Where a producer is inside Push; `at` is the index it claimed. */
  datatype Producer =
    | PIdle
    | PLoadState(item: Item)
    | PLoadCount(item: Item)
    | PSealFull(item: Item)
    | PLoadHead(item: Item)
    | PCas(item: Item, seen: int)
    | PProbe(item: Item, at: int, i: nat)
    | PStore(item: Item, at: int)
    | PCount(item: Item)

  /** Where a consumer is inside Pop. */
  datatype Consumer =
    | CIdle
    | CLoadCount
    | CLoadTail
    | CCas(seen: int)
    | CRead(at: int, i: nat)
    | CClear(at: int, item: Item)
    | CCount(item: Item)

  /** One atomic operation of Push. */
  function Produce(r: Ring, p: Producer): (Ring, Producer)
    requires |r.buf| > 0
  {
    match p
    case PIdle => (r, p)
    case PLoadState(item) =>
      (r, if r.state == ReadOnly then PIdle else PLoadCount(item))
    case PLoadCount(item) =>
      (r, if r.count >= |r.buf| then PSealFull(item) else PLoadHead(item))
    case PSealFull(_) =>
      (if r.state == WriteOnly then r.(state := ReadOnly) else r, PIdle)
    case PLoadHead(item) => (r, PCas(item, r.head))
    case PCas(item, seen) =>
      if r.head == seen then (r.(head := Wrap32(seen + 1)), PProbe(item, seen, 0))
      else (r, PLoadState(item))
    case PProbe(item, at, i) =>
      SlotBounds(at, |r.buf|);
      (r, if r.buf[CalcPos(at, |r.buf|)].ptr == 0 || i + 1 >= MAX_RETRY then PStore(item, at)
          else PProbe(item, at, i + 1))
    case PStore(item, at) =>
      SlotBounds(at, |r.buf|);
      (r.(buf := r.buf[CalcPos(at, |r.buf|) := item]), PCount(item))
    case PCount(_) => (r.(count := Wrap32(r.count + 1)), PIdle)
  }

  /** One atomic operation of Pop. */
  function Consume(r: Ring, c: Consumer): (Ring, Consumer)
    requires |r.buf| > 0
  {
    match c
    case CIdle => (r, c)
    case CLoadCount => (r, if r.count == 0 then CIdle else CLoadTail)
    case CLoadTail => (r, CCas(r.tail))
    case CCas(seen) =>
      if r.tail == seen then (r.(tail := Wrap32(seen + 1)), CRead(seen, 0))
      else (r, CLoadCount)
    case CRead(at, i) =>
      SlotBounds(at, |r.buf|);
      var item := r.buf[CalcPos(at, |r.buf|)];
      (r, if item.ptr != 0 || i + 1 >= MAX_RETRY then CClear(at, item) else CRead(at, i + 1))
    case CClear(at, item) =>
      SlotBounds(at, |r.buf|);
      (r.(buf := r.buf[CalcPos(at, |r.buf|) := NO_ITEM]), CCount(item))
    case CCount(_) => (r.(count := Wrap32(r.count - 1)), CIdle)
  }

  datatype Publication = Publication(who: nat, item: Item)

  /** The ring, every thread's position, and the history since construction or Reset: successful
      claims on either side, items published by Push and items returned by Pop. */
  datatype System = System(
    ring: Ring,
    producers: map<nat, Producer>,
    consumers: map<nat, Consumer>,
    claimedIn: nat,
    claimedOut: nat,
    published: seq<Publication>,
    returned: seq<Item>)

  datatype Step =
    | BeginPush(p: nat, item: Item)
    | PushStep(p: nat)
    | BeginPop(c: nat)
    | PopStep(c: nat)
    | Seal
    | Reset

  /** No producer is between claim and count update, and the reader, which resets, is not popping. */
  predicate NoneInFlight(s: System) {
    && (forall p :: p in s.producers ==> !FLYING(s.producers[p]))
    && (forall c :: c in s.consumers ==> s.consumers[c] == CIdle)
  }

  /** A pushed pointer is never nil; a ring is reset when it is empty and nobody is storing in it. */
  predicate Enabled(s: System, step: Step) {
    match step
    case BeginPush(p, item) => p in s.producers && s.producers[p] == PIdle && item.ptr != 0
    case PushStep(p) => p in s.producers
    case BeginPop(c) => c in s.consumers && s.consumers[c] == CIdle
    case PopStep(c) => c in s.consumers
    case Seal => true
    case Reset => NoneInFlight(s) && s.ring.count == 0
  }

  function Do(s: System, step: Step): System
    requires |s.ring.buf| > 0 && Enabled(s, step)
  {
    match step
    case BeginPush(p, item) => s.(producers := s.producers[p := PLoadState(item)])
    case PushStep(p) =>
      var before := s.producers[p];
      var (r, after) := Produce(s.ring, before);
      s.(ring := r, producers := s.producers[p := after],
         claimedIn := s.claimedIn + if before.PCas? && after.PProbe? then 1 else 0,
         published := s.published
                      + if before.PCount? then [Publication(p, before.item)] else [])
    case BeginPop(c) => s.(consumers := s.consumers[c := CLoadCount])
    case PopStep(c) =>
      var before := s.consumers[c];
      var (r, after) := Consume(s.ring, before);
      s.(ring := r, consumers := s.consumers[c := after],
         claimedOut := s.claimedOut + if before.CCas? && after.CRead? then 1 else 0,
         returned := s.returned + if before.CCount? then [before.item] else [])
    case Seal => s.(ring := s.ring.(state := ReadOnly))
    case Reset => AfterReset(s)
  }

  /** The ring restarts, whatever the threads are doing, and so does the history. */
  function AfterReset(s: System): System {
    s.(ring := s.ring.Reset(), claimedIn := 0, claimedOut := 0, published := [], returned := [])
  }

  /** A step that is not enabled is skipped. */
  function Next(s: System, step: Step): (t: System)
    requires |s.ring.buf| > 0
    ensures |t.ring.buf| == |s.ring.buf|
    ensures t.producers.Keys == s.producers.Keys && t.consumers.Keys == s.consumers.Keys
  {
    if Enabled(s, step) then Do(s, step) else s
  }

  function Init(capacity: nat, producers: set<nat>, consumers: set<nat>): System {
    System(NewRing(capacity), map p | p in producers :: PIdle, map c | c in consumers :: CIdle,
           0, 0, [], [])
  }

  /** The state after a schedule. */
  function Run(s: System, steps: seq<Step>): (t: System)
    requires |s.ring.buf| > 0
    ensures |t.ring.buf| == |s.ring.buf|
    ensures t.producers.Keys == s.producers.Keys && t.consumers.Keys == s.consumers.Keys
  {
    if steps == [] then s else Next(Run(s, steps[..|steps| - 1]), steps[|steps| - 1])
  }

  // ---------- counting threads by where they are ----------

  ghost function Those<T>(m: map<nat, T>, where_: T -> bool): set<nat> {
    set i | i in m && where_(m[i])
  }

  lemma CountAfterMove<T>(m: map<nat, T>, where_: T -> bool, i: nat, after: T)
    requires i in m
    ensures |Those(m[i := after], where_)|
            == |Those(m, where_)| - (if where_(m[i]) then 1 else 0) + (if where_(after) then 1 else 0)
  {
    var rest := Those(m, where_) - {i};
    assert Those(m[i := after], where_) == rest + if where_(after) then {i} else {};
    assert Those(m, where_) == rest + if where_(m[i]) then {i} else {};
  }

  lemma CountIsZeroIff<T>(m: map<nat, T>, where_: T -> bool)
    ensures |Those(m, where_)| == 0 <==> forall i :: i in m ==> !where_(m[i])
  {
    if Those(m, where_) == {} {
      forall i | i in m ensures !where_(m[i]) {
        assert i !in Those(m, where_);
      }
    }
  }

  lemma CountAtMostAll<T>(m: map<nat, T>, where_: T -> bool)
    ensures |Those(m, where_)| <= |m.Keys|
  {
    SubsetCount(Those(m, where_), m.Keys);
  }

  lemma {:induction false} SubsetCount<T>(a: set<T>, b: set<T>)
    requires a <= b
    ensures |a| <= |b|
  {
    if a != {} {
      var x :| x in a;
      SubsetCount(a - {x}, b - {x});
    }
  }

  /** Claimed a slot, count not yet raised. */
  const FLYING: Producer -> bool := (p: Producer) => p.PProbe? || p.PStore? || p.PCount?

  /** Past the capacity check, count not yet raised. */
  const ADMITTED: Producer -> bool := (p: Producer) => p.PLoadHead? || p.PCas? || FLYING(p)

  /** Claimed a slot, count not yet lowered. */
  const DRAINING: Consumer -> bool := (c: Consumer) => c.CRead? || c.CClear? || c.CCount?

  /** Past the emptiness check, count not yet lowered. */
  const COMMITTED: Consumer -> bool := (c: Consumer) => c.CLoadTail? || c.CCas? || DRAINING(c)

  // ---------- accounting, any number of producers and consumers ----------

  function Balance(s: System): int { |s.published| - |s.returned| }

  ghost predicate Accounted(s: System) {
    && s.ring.count == Wrap32(Balance(s))
    && s.ring.head == Wrap32(s.claimedIn - 1)
    && s.ring.tail == Wrap32(s.claimedOut - 1)
    && s.claimedIn == |s.published| + |Those(s.producers, FLYING)|
    && s.claimedOut == |s.returned| + |Those(s.consumers, DRAINING)|
  }

  lemma AccountingPushStep(s: System, p: nat)
    requires |s.ring.buf| > 0 && Accounted(s) && p in s.producers
    ensures Accounted(Do(s, PushStep(p)))
  {
    CountAfterMove(s.producers, FLYING, p, Produce(s.ring, s.producers[p]).1);
    Wrap32Add(Balance(s), 1);
    Wrap32Add(s.claimedIn - 1, 1);
  }

  lemma AccountingPopStep(s: System, c: nat)
    requires |s.ring.buf| > 0 && Accounted(s) && c in s.consumers
    ensures Accounted(Do(s, PopStep(c)))
  {
    CountAfterMove(s.consumers, DRAINING, c, Consume(s.ring, s.consumers[c]).1);
    Wrap32Add(Balance(s), -1);
    Wrap32Add(s.claimedOut - 1, 1);
  }

  lemma AccountingReset(s: System)
    requires |s.ring.buf| > 0 && Accounted(s) && Enabled(s, Reset)
    ensures Accounted(Do(s, Reset))
  {
  }

  lemma AccountingKept(s: System, step: Step)
    requires |s.ring.buf| > 0 && Accounted(s)
    ensures Accounted(Next(s, step))
  {
    if Enabled(s, step) {
      match step
      case BeginPush(p, item) => CountAfterMove(s.producers, FLYING, p, PLoadState(item));
      case PushStep(p) => AccountingPushStep(s, p);
      case BeginPop(c) => CountAfterMove(s.consumers, DRAINING, c, CLoadCount);
      case PopStep(c) => AccountingPopStep(s, c);
      case Seal =>
      case Reset => AccountingReset(s);
    }
  }

  /** Why a ring must not be reset under a thread between claim and count update: the accounts
      survive a reset if and only if there is none. */
  lemma ResetKeepsAccountsIff(s: System)
    requires Accounted(s)
    ensures Accounted(AfterReset(s)) <==>
              && (forall p :: p in s.producers ==> !FLYING(s.producers[p]))
              && (forall c :: c in s.consumers ==> !DRAINING(s.consumers[c]))
  {
    CountIsZeroIff(s.producers, FLYING);
    CountIsZeroIff(s.consumers, DRAINING);
  }

  lemma AccountedInit(capacity: nat, ps: set<nat>, cs: set<nat>)
    ensures Accounted(Init(capacity, ps, cs))
  {
  }

  lemma {:induction false} AccountedReached(capacity: nat, ps: set<nat>, cs: set<nat>, steps: seq<Step>)
    requires capacity > 0
    ensures Accounted(Run(Init(capacity, ps, cs), steps))
  {
    if steps == [] {
      AccountedInit(capacity, ps, cs);
    } else {
      AccountedReached(capacity, ps, cs, steps[..|steps| - 1]);
      AccountingKept(Run(Init(capacity, ps, cs), steps[..|steps| - 1]), steps[|steps| - 1]);
    }
  }

  /** In every interleaving of any number of threads, both index fields are their claim counts
      wrapped, and on each side the claims are the completed calls plus the threads between claim
      and count update; so the count field is the claimed span of the ring, less the producers and
      plus the consumers caught there, in 32-bit arithmetic. */
  lemma Accounting(capacity: nat, ps: set<nat>, cs: set<nat>, steps: seq<Step>)
    requires capacity > 0
    ensures var s := Run(Init(capacity, ps, cs), steps);
            && Accounted(s)
            && s.ring.count == Wrap32(s.claimedIn - s.claimedOut
                                      - |Those(s.producers, FLYING)| + |Those(s.consumers, DRAINING)|)
  {
    AccountedReached(capacity, ps, cs, steps);
  }

  // ---------- the count with one consumer ----------

  ghost predicate Bounded(s: System) {
    && Balance(s) >= |Those(s.consumers, COMMITTED)|
    && Balance(s) + |Those(s.producers, ADMITTED)| <= |s.ring.buf| + |s.producers.Keys| - 1
  }

  /** A ring and thread count for which no 32-bit count can overflow. */
  predicate Sized(s: System) {
    && |s.ring.buf| > 0 && s.producers.Keys != {} && |s.consumers.Keys| <= 1
    && |s.ring.buf| + |s.producers.Keys| <= TWO31
  }

  lemma BoundPushStep(s: System, p: nat)
    requires Sized(s) && Accounted(s) && Bounded(s) && p in s.producers
    ensures Bounded(Do(s, PushStep(p)))
  {
    var after := Produce(s.ring, s.producers[p]).1;
    CountAfterMove(s.producers, ADMITTED, p, after);
    CountAtMostAll(s.producers[p := after], ADMITTED);
    assert s.producers[p := after].Keys == s.producers.Keys;
  }

  lemma BoundPopStep(s: System, c: nat)
    requires Sized(s) && Accounted(s) && Bounded(s) && c in s.consumers
    ensures Bounded(Do(s, PopStep(c)))
  {
    var after := Consume(s.ring, s.consumers[c]).1;
    CountAfterMove(s.consumers, COMMITTED, c, after);
    CountAtMostAll(s.consumers[c := after], COMMITTED);
    assert s.consumers[c := after].Keys == s.consumers.Keys;
  }

  lemma BoundReset(s: System)
    requires Sized(s) && Bounded(s) && Enabled(s, Reset)
    ensures Bounded(Do(s, Reset))
  {
    CountAtMostAll(s.producers, ADMITTED);
    assert Those(s.consumers, COMMITTED) == {};
  }

  lemma BoundKept(s: System, step: Step)
    requires Sized(s) && Accounted(s) && Bounded(s)
    ensures Bounded(Next(s, step))
  {
    if Enabled(s, step) {
      match step
      case BeginPush(p, item) => CountAfterMove(s.producers, ADMITTED, p, PLoadState(item));
      case PushStep(p) => BoundPushStep(s, p);
      case BeginPop(c) => CountAfterMove(s.consumers, COMMITTED, c, CLoadCount);
      case PopStep(c) => BoundPopStep(s, c);
      case Seal =>
      case Reset => BoundReset(s);
    }
  }

  lemma BoundedInit(capacity: nat, ps: set<nat>, cs: set<nat>)
    requires capacity > 0 && ps != {} && |cs| <= 1 && capacity + |ps| <= TWO31
    ensures Sized(Init(capacity, ps, cs)) && Bounded(Init(capacity, ps, cs))
  {
    var init := Init(capacity, ps, cs);
    assert Those(init.producers, ADMITTED) == {};
    assert Those(init.consumers, COMMITTED) == {};
    assert init.producers.Keys == ps && init.consumers.Keys == cs;
  }

  lemma {:induction false} BoundedReached(capacity: nat, ps: set<nat>, cs: set<nat>, steps: seq<Step>)
    requires capacity > 0 && ps != {} && |cs| <= 1 && capacity + |ps| <= TWO31
    ensures var s := Run(Init(capacity, ps, cs), steps);
            Sized(s) && Accounted(s) && Bounded(s)
  {
    BoundedInit(capacity, ps, cs);
    AccountedReached(capacity, ps, cs, steps);
    if steps != [] {
      var before := steps[..|steps| - 1];
      BoundedReached(capacity, ps, cs, before);
      BoundKept(Run(Init(capacity, ps, cs), before), steps[|steps| - 1]);
    }
  }

  lemma BoundedCount(s: System)
    requires Sized(s) && Accounted(s) && Bounded(s)
    ensures s.ring.count == |s.published| - |s.returned|
    ensures 0 <= s.ring.count <= |s.ring.buf| + |s.producers.Keys| - 1
  {
  }

  /** With P producers and one consumer the count is exact (it never wraps), never negative and
      never above capacity + P - 1. */
  lemma CountBound(capacity: nat, ps: set<nat>, cs: set<nat>, steps: seq<Step>)
    requires capacity > 0 && ps != {} && |cs| <= 1 && capacity + |ps| <= TWO31
    ensures var s := Run(Init(capacity, ps, cs), steps);
            && s.ring.count == |s.published| - |s.returned|
            && 0 <= s.ring.count <= capacity + |ps| - 1
            && s.claimedIn - s.claimedOut
               == s.ring.count + |Those(s.producers, FLYING)| - |Those(s.consumers, DRAINING)|
  {
    BoundedReached(capacity, ps, cs, steps);
    BoundedCount(Run(Init(capacity, ps, cs), steps));
    assert Init(capacity, ps, cs).producers.Keys == ps;
  }
}
