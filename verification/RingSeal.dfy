/** What a sealed ring (component/smart_buffer.go) can still receive from producers that were inside
    Push when it was sealed. */
module RingSeal {
  import opened RingIndex
  import opened Rings
  import opened RingRaces
  import opened RingSteps

  /** Past the state check and still able to publish. */
  const UNFROZEN: Producer -> bool := (p: Producer) => p.PLoadCount? || ADMITTED(p)

  ghost function NewlyPublished(s: System, t: System): seq<Publication>
    requires s.published <= t.published
  {
    t.published[|s.published|..]
  }

  /** State t came from sealed state s: it is still sealed, each new item came from a producer
      that was past the state check in s, no producer published twice, and one that has
      published is not past the check again. */
  ghost predicate FrozenSince(s: System, t: System) {
    && t.ring.state == ReadOnly
    && s.published <= t.published
    && Those(t.producers, UNFROZEN) <= Those(s.producers, UNFROZEN)
    && (forall i :: 0 <= i < |NewlyPublished(s, t)| ==>
          && NewlyPublished(s, t)[i].who in Those(s.producers, UNFROZEN)
          && NewlyPublished(s, t)[i].who !in Those(t.producers, UNFROZEN))
    && (forall i, j :: 0 <= i < j < |NewlyPublished(s, t)| ==>
          NewlyPublished(s, t)[i].who != NewlyPublished(s, t)[j].who)
  }

  lemma FrozenKept(s: System, t: System, step: Step)
    requires |t.ring.buf| > 0 && FrozenSince(s, t) && !step.Reset?
    ensures FrozenSince(s, Next(t, step))
  {
    var t' := Next(t, step);
    assert s.published <= t'.published;
    if step.PushStep? && Enabled(t, step) && t.producers[step.p].PCount? {
      var new_ := Publication(step.p, t.producers[step.p].item);
      assert NewlyPublished(s, t') == NewlyPublished(s, t) + [new_];
      assert step.p in Those(t.producers, UNFROZEN);
    } else {
      assert NewlyPublished(s, t') == NewlyPublished(s, t);
    }
  }

  lemma {:induction false} DistinctFitIn(pubs: seq<Publication>, whos: set<nat>)
    requires forall i :: 0 <= i < |pubs| ==> pubs[i].who in whos
    requires forall i, j :: 0 <= i < j < |pubs| ==> pubs[i].who != pubs[j].who
    ensures |pubs| <= |whos|
  {
    if pubs != [] {
      var last := |pubs| - 1;
      DistinctFitIn(pubs[..last], whos - {pubs[last].who});
    }
  }

  lemma {:induction false} FrozenRun(s: System, steps: seq<Step>)
    requires |s.ring.buf| > 0 && s.ring.state == ReadOnly && Reset !in steps
    ensures FrozenSince(s, Run(s, steps))
  {
    if steps != [] {
      FrozenRun(s, steps[..|steps| - 1]);
      FrozenKept(s, Run(s, steps[..|steps| - 1]), steps[|steps| - 1]);
    }
  }

  // ---------- claims still to come ----------

  /** Past the state check, head not read yet. */
  const CHECKED: Producer -> bool := (p: Producer) => p.PLoadCount? || p.PLoadHead?

  /** How many claims it takes until head is `seen`. */
  function Ahead(head: int, seen: int): nat { (seen - head) % TWO32 }

  /** The values of head, no more than `window` claims ahead, that some producer is about to claim. */
  ghost function Awaited(m: map<nat, Producer>, head: int, window: int): set<int> {
    set p | p in m && m[p].PCas? && Ahead(head, m[p].seen) < window :: m[p].seen
  }

  lemma AwaitedAfterMove(m: map<nat, Producer>, head: int, window: int, p: nat, after: Producer)
    requires p in m
    ensures |Awaited(m[p := after], head, window)|
            <= |Awaited(m, head, window)| + if after.PCas? then 1 else 0
  {
    var more := if after.PCas? then {after.seen} else {};
    SubsetCount(Awaited(m[p := after], head, window), Awaited(m, head, window) + more);
  }

  lemma AheadAfterClaim(head: int, seen: int)
    ensures Ahead(Wrap32(head + 1), seen)
            == if Ahead(head, seen) == 0 then TWO32 - 1 else Ahead(head, seen) - 1
  {
    var m := (head + 1 + TWO31) / TWO32;
    assert Wrap32(head + 1) == head + 1 - m * TWO32;
    ModShift(seen - head - 1, TWO32, m);
  }

  /** A claim is the end of all claims of the same value. */
  lemma AwaitedAfterClaim(m: map<nat, Producer>, head: int, window: int, p: nat, after: Producer)
    requires p in m && m[p].PCas? && m[p].seen == head && !after.PCas? && 0 < window <= TWO32
    ensures |Awaited(m[p := after], Wrap32(head + 1), window - 1)| < |Awaited(m, head, window)|
  {
    var then_ := Awaited(m[p := after], Wrap32(head + 1), window - 1);
    assert head in Awaited(m, head, window);
    forall x | x in then_ ensures x in Awaited(m, head, window) - {head} {
      AheadAfterClaim(head, x);
    }
    SubsetCount(then_, Awaited(m, head, window) - {head});
  }

  /** How many claims the producers past the check in s can still make in t. */
  ghost function Window(s: System, t: System): int {
    Claims(s) + |Those(s.producers, UNFROZEN)| - Claims(t)
  }

  ghost function Claims(s: System): nat { |s.published| + |Those(s.producers, FLYING)| }

  ghost function StillToCome(s: System, t: System): nat {
    Claims(t) + |Those(t.producers, CHECKED)| + |Awaited(t.producers, t.ring.head, Window(s, t))|
  }

  /** State t came from sealed state s. */
  ghost predicate Dwindles(s: System, t: System) {
    && t.ring.state == ReadOnly
    && Claims(s) <= Claims(t)
    && |t.published| + |Those(t.producers, UNFROZEN)| <= |s.published| + |Those(s.producers, UNFROZEN)|
    && StillToCome(s, t) <= StillToCome(s, s)
  }

  /** A producer past the check that has not claimed leaves room for its claim. */
  lemma WindowIsOpen(s: System, t: System, p: nat)
    requires Dwindles(s, t) && p in t.producers
    requires UNFROZEN(t.producers[p]) && !FLYING(t.producers[p])
    ensures Window(s, t) > 0
  {
    SubsetCount(Those(t.producers, FLYING) + {p}, Those(t.producers, UNFROZEN));
  }

  lemma DwindlesClaim(s: System, t: System, p: nat)
    requires |t.ring.buf| > 0 && Dwindles(s, t) && p in t.producers
    requires t.producers[p].PCas? && t.producers[p].seen == t.ring.head
    requires |Those(s.producers, UNFROZEN)| <= TWO32
    ensures Dwindles(s, Next(t, PushStep(p)))
  {
    var after := Produce(t.ring, t.producers[p]).1;
    CountAfterMove(t.producers, FLYING, p, after);
    CountAfterMove(t.producers, CHECKED, p, after);
    CountAfterMove(t.producers, UNFROZEN, p, after);
    WindowIsOpen(s, t, p);
    AwaitedAfterClaim(t.producers, t.ring.head, Window(s, t), p, after);
  }

  lemma DwindlesCount(s: System, t: System, p: nat)
    requires |t.ring.buf| > 0 && Dwindles(s, t) && p in t.producers
    requires t.producers[p].PCount?
    ensures Dwindles(s, Next(t, PushStep(p)))
  {
    var after := Produce(t.ring, t.producers[p]).1;
    CountAfterMove(t.producers, FLYING, p, after);
    CountAfterMove(t.producers, CHECKED, p, after);
    CountAfterMove(t.producers, UNFROZEN, p, after);
    AwaitedAfterMove(t.producers, t.ring.head, Window(s, t), p, after);
  }

  lemma DwindlesCheck(s: System, t: System, p: nat)
    requires |t.ring.buf| > 0 && Dwindles(s, t) && p in t.producers
    requires CHECKED(t.producers[p])
    ensures Dwindles(s, Next(t, PushStep(p)))
  {
    var after := Produce(t.ring, t.producers[p]).1;
    CountAfterMove(t.producers, FLYING, p, after);
    CountAfterMove(t.producers, CHECKED, p, after);
    CountAfterMove(t.producers, UNFROZEN, p, after);
    AwaitedAfterMove(t.producers, t.ring.head, Window(s, t), p, after);
  }

  lemma DwindlesStep(s: System, t: System, p: nat)
    requires |t.ring.buf| > 0 && Dwindles(s, t) && p in t.producers
    requires (t.producers[p].PCas? ==> t.producers[p].seen != t.ring.head) && !CHECKED(t.producers[p])
    requires !t.producers[p].PCount?
    ensures Dwindles(s, Next(t, PushStep(p)))
  {
    var after := Produce(t.ring, t.producers[p]).1;
    CountAfterMove(t.producers, FLYING, p, after);
    CountAfterMove(t.producers, CHECKED, p, after);
    CountAfterMove(t.producers, UNFROZEN, p, after);
    AwaitedAfterMove(t.producers, t.ring.head, Window(s, t), p, after);
  }

  lemma DwindlesKept(s: System, t: System, step: Step)
    requires |t.ring.buf| > 0 && Dwindles(s, t) && !step.Reset?
    requires |Those(s.producers, UNFROZEN)| <= TWO32
    ensures Dwindles(s, Next(t, step))
  {
    if Enabled(t, step) {
      match step
      case PushStep(p) =>
        if t.producers[p].PCas? && t.producers[p].seen == t.ring.head {
          DwindlesClaim(s, t, p);
        } else if t.producers[p].PCount? {
          DwindlesCount(s, t, p);
        } else if CHECKED(t.producers[p]) {
          DwindlesCheck(s, t, p);
        } else {
          DwindlesStep(s, t, p);
        }
      case BeginPush(p, item) =>
        CountAfterMove(t.producers, FLYING, p, PLoadState(item));
        CountAfterMove(t.producers, CHECKED, p, PLoadState(item));
        CountAfterMove(t.producers, UNFROZEN, p, PLoadState(item));
        AwaitedAfterMove(t.producers, t.ring.head, Window(s, t), p, PLoadState(item));
      case _ =>
    }
  }

  lemma {:induction false} DwindlesRun(s: System, steps: seq<Step>)
    requires |s.ring.buf| > 0 && s.ring.state == ReadOnly && Reset !in steps
    requires |Those(s.producers, UNFROZEN)| <= TWO32
    ensures Dwindles(s, Run(s, steps))
  {
    if steps != [] {
      DwindlesRun(s, steps[..|steps| - 1]);
      DwindlesKept(s, Run(s, steps[..|steps| - 1]), steps[|steps| - 1]);
    }
  }

  /** From any state in which the ring is sealed, and until it is reset, the ring stays sealed and
      each producer that was past the state check publishes at most once; and of those that are about
      to claim, only one for each value of head that they wait for, as a lost claim re-reads the
      state. */
  lemma {:induction false} FreezeBound(s: System, steps: seq<Step>)
    requires |s.ring.buf| > 0 && s.ring.state == ReadOnly && Reset !in steps
    ensures FrozenSince(s, Run(s, steps))
    ensures |Run(s, steps).published| - |s.published| <= |Those(s.producers, UNFROZEN)|
    ensures var n := |Those(s.producers, UNFROZEN)|;
            n <= TWO32 ==>
              |Run(s, steps).published| - |s.published|
              <= |Those(s.producers, FLYING)| + |Those(s.producers, CHECKED)|
                 + |Awaited(s.producers, s.ring.head, n)|
  {
    FrozenRun(s, steps);
    DistinctFitIn(NewlyPublished(s, Run(s, steps)), Those(s.producers, UNFROZEN));
    if |Those(s.producers, UNFROZEN)| <= TWO32 {
      DwindlesRun(s, steps);
    }
  }

  /** So a single one, unless one still waits for a value of head that is yet to come (head was reset,
      or has come around, since it read it). */
  lemma OneClaimWins(s: System, steps: seq<Step>)
    requires |s.ring.buf| > 0 && s.ring.state == ReadOnly && Reset !in steps
    requires |Those(s.producers, UNFROZEN)| <= TWO32
    requires forall p :: p in s.producers && s.producers[p].PCas? ==>
               s.producers[p].seen == s.ring.head
               || Ahead(s.ring.head, s.producers[p].seen) >= |Those(s.producers, UNFROZEN)|
    ensures |Run(s, steps).published| - |s.published|
            <= |Those(s.producers, FLYING)| + |Those(s.producers, CHECKED)| + 1
    ensures (forall p :: p in s.producers && s.producers[p].PCas? ==> s.producers[p].seen != s.ring.head) ==>
              |Run(s, steps).published| - |s.published|
              <= |Those(s.producers, FLYING)| + |Those(s.producers, CHECKED)|
  {
    FreezeBound(s, steps);
    var awaited := Awaited(s.producers, s.ring.head, |Those(s.producers, UNFROZEN)|);
    SubsetCount(awaited, {s.ring.head});
    if forall p :: p in s.producers && s.producers[p].PCas? ==> s.producers[p].seen != s.ring.head {
      assert awaited == {};
    }
  }

  /** Whatever the state, a switch that seals the ring leaves room for nothing but that. */
  lemma SealStops(s: System, steps: seq<Step>)
    requires |s.ring.buf| > 0 && Reset !in steps
    ensures Run(s, [Seal] + steps).ring.state == ReadOnly
    ensures |Run(s, [Seal] + steps).published| - |s.published| <= |Those(s.producers, UNFROZEN)|
    ensures (forall p :: p in s.producers ==> !UNFROZEN(s.producers[p])) ==>
              Run(s, [Seal] + steps).published == s.published
  {
    RunCons(s, Seal, steps);
    FreezeBound(Next(s, Seal), steps);
    if forall p :: p in s.producers ==> !UNFROZEN(s.producers[p]) {
      assert Those(s.producers, UNFROZEN) == {};
    }
  }

  /** And only a reset opens it again: then a producer that was turned away can publish. */
  lemma ResetReopens(s: System, p: nat) returns (steps: seq<Step>)
    requires |s.ring.buf| > 0 && s.ring.count == 0 && NoneInFlight(s)
    requires p in s.producers && s.producers[p] == PIdle
    ensures Reset !in steps
    ensures var t := Run(s, [Seal] + ([Reset] + steps));
            t.published == [Publication(p, ITEM)] && t.ring.state == WriteOnly && t.producers[p] == PIdle
  {
    var u := Next(Next(s, Seal), Reset);
    var admit := AdmitPush(u, p);
    var finish := FinishPush(Run(u, admit), p);
    steps := admit + finish;
    RunAppend(u, admit, finish);
    RunCons(Next(s, Seal), Reset, steps);
    RunCons(s, Seal, [Reset] + steps);
  }
}
