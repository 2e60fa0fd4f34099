/** What one call of Pop (component/smart_buffer.go) does while any number of other threads do what
    they like, told by what its own operations find in the ring and leave there. */
module PopCalls {
  import opened RingIndex
  import opened Rings
  import opened SmartBuffers
  import opened RingSteps
  import opened RingViews

  /** The count is checked, and then tail is read. */
  predicate Checks(t: seq<View>) {
    |t| >= 2 && Quiet(t[0]) && t[0].before.count != 0 && Quiet(t[1])
  }

  /** A round of the loop in which another thread changes tail before it is claimed. */
  predicate LostPop(t: seq<View>) {
    |t| == 3 && Checks(t) && t[2].before.tail != t[1].before.tail && Quiet(t[2])
  }

  /** A round of the loop, up to its claim and maybe further. */
  predicate ClaimsTail(t: seq<View>) {
    && |t| >= 3 && Checks(t)
    && t[2].before.tail == t[1].before.tail
    && t[2].after == t[2].before.(tail := Wrap32(t[2].before.tail + 1))
  }

  /** After the claim, reads of the claimed slot that all find it nil. */
  predicate Waiting(t: seq<View>)
    requires Sane(t)
  {
    ClaimsTail(t) && forall i :: 3 <= i < |t| ==> Quiet(t[i]) && Held(t[i], t[2].before.tail).ptr == 0
  }

  /** Another read, which is the third or finds an item. */
  predicate ReadsItem(t: seq<View>, item: Item)
    requires Sane(t)
  {
    && 4 <= |t| <= 6 && Waiting(t[..|t| - 1]) && Quiet(t[|t| - 1])
    && Held(t[|t| - 1], t[2].before.tail) == item
    && (item.ptr != 0 || |t| == 6)
  }

  /** Then the slot is cleared. */
  predicate ClearsSlot(t: seq<View>, item: Item)
    requires Sane(t)
  {
    |t| > 4 && ReadsItem(t[..|t| - 1], item) && Puts(t[|t| - 1], t[2].before.tail, NO_ITEM)
  }

  /** Then the count is lowered. */
  predicate Returns(t: seq<View>, item: Item)
    requires Sane(t)
  {
    && |t| > 5 && ClearsSlot(t[..|t| - 1], item)
    && t[|t| - 1].after == t[|t| - 1].before.(count := Wrap32(t[|t| - 1].before.count - 1))
  }

  predicate FindsEmpty(t: seq<View>) {
    |t| == 1 && Quiet(t[0]) && t[0].before.count == 0
  }

  /** What c has seen in this round of its loop. */
  predicate PopRound(t: seq<View>, c: Consumer)
    requires Sane(t)
  {
    match c
    case CIdle => true
    case CLoadCount => t == []
    case CLoadTail => |t| == 1 && Quiet(t[0]) && t[0].before.count != 0
    case CCas(seen) => |t| == 2 && Checks(t) && t[1].before.tail == seen
    case CRead(at, i) => |t| == 3 + i < 6 && Waiting(t) && t[2].before.tail == at
    case CClear(at, item) => ReadsItem(t, item) && t[2].before.tail == at
    case CCount(item) => ClearsSlot(t, item)
  }

  ghost function PopView(s: System, c: nat): (v: View)
    requires |s.ring.buf| > 0
    ensures |v.before.buf| > 0
  {
    View(s.ring, Next(s, PopStep(c)).ring)
  }

  /** The round goes on, or starts anew after a lost claim, or ends the call. */
  predicate PopGoesOn(t: seq<View>, c: Consumer)
    requires Sane(t)
  {
    match c
    case CIdle => true
    case CLoadCount => LostPop(t)
    case _ => PopRound(t, c)
  }

  lemma PopRoundKept(s: System, c: nat, t: seq<View>)
    requires |s.ring.buf| > 0 && Sane(t) && c in s.consumers && s.consumers[c] != CIdle
    requires PopRound(t, s.consumers[c])
    ensures PopGoesOn(t + [PopView(s, c)], Next(s, PopStep(c)).consumers[c])
  {
    assert (t + [PopView(s, c)])[..|t|] == t;
  }

  predicate LostPops(w: seq<View>) {
    w == [] || (|w| >= 3 && LostPops(w[..|w| - 3]) && LostPop(w[|w| - 3..]))
  }

  /** The first n operations are rounds that lost their claim. */
  predicate LostUpTo(w: seq<View>, n: nat)
    requires n <= |w|
  {
    LostPops(w[..n])
  }

  /** The views of c's operations since its last Pop began. */
  ghost function PopViews(init: System, steps: seq<Step>, c: nat): (w: seq<View>)
    requires |init.ring.buf| > 0
    ensures Sane(w)
  {
    if steps == [] then []
    else PopViewsOn(PopViews(init, steps[..|steps| - 1], c), Run(init, steps[..|steps| - 1]),
                    steps[|steps| - 1], c)
  }

  ghost function PopViewsOn(w: seq<View>, s: System, step: Step, c: nat): (w': seq<View>)
    requires |s.ring.buf| > 0 && Sane(w)
    ensures Sane(w')
  {
    if step == BeginPop(c) && Enabled(s, step) then []
    else if step == PopStep(c) && c in s.consumers && s.consumers[c] != CIdle then
      w + [PopView(s, c)]
    else w
  }

  ghost predicate PopSoFar(w: seq<View>, c: Consumer)
    requires Sane(w)
  {
    exists n: nat :: n <= |w| && LostUpTo(w, n) && PopRound(w[n..], c)
  }

  lemma LostOnceMore(w: seq<View>, n: nat)
    requires n <= |w| && LostUpTo(w, n) && LostPop(w[n..])
    ensures LostUpTo(w, |w|)
  {
    assert w[..|w|] == w && w[..n] == w[..|w| - 3];
  }

  lemma PopSettled(w: seq<View>, n: nat, v: View, c: Consumer)
    requires Sane(w) && |v.before.buf| > 0 && c != CIdle
    requires n <= |w| && LostUpTo(w, n) && PopGoesOn(w[n..] + [v], c)
    ensures PopSoFar(w + [v], c)
  {
    var w' := w + [v];
    assert w'[n..] == w[n..] + [v] && w'[..n] == w[..n];
    if c.CLoadCount? {
      LostOnceMore(w', n);
      assert PopRound(w'[|w'|..], c);
    }
  }

  lemma PopSoFarKept(s: System, c: nat, w: seq<View>)
    requires |s.ring.buf| > 0 && Sane(w) && c in s.consumers && s.consumers[c] != CIdle
    requires PopSoFar(w, s.consumers[c]) && Next(s, PopStep(c)).consumers[c] != CIdle
    ensures PopSoFar(w + [PopView(s, c)], Next(s, PopStep(c)).consumers[c])
  {
    var n: nat :| n <= |w| && LostUpTo(w, n) && PopRound(w[n..], s.consumers[c]);
    PopRoundKept(s, c, w[n..]);
    PopSettled(w, n, PopView(s, c), Next(s, PopStep(c)).consumers[c]);
  }

  lemma {:induction false} PopReached(capacity: nat, ps: set<nat>, cs: set<nat>, steps: seq<Step>, c: nat)
    requires capacity > 0 && c in cs
    ensures var init := Init(capacity, ps, cs);
            Run(init, steps).consumers[c] != CIdle ==>
              PopSoFar(PopViews(init, steps, c), Run(init, steps).consumers[c])
  {
    if steps != [] {
      var init, front, last := Init(capacity, ps, cs), steps[..|steps| - 1], steps[|steps| - 1];
      PopReached(capacity, ps, cs, front, c);
      var s := Run(init, front);
      if last == PopStep(c) && s.consumers[c] != CIdle && Next(s, last).consumers[c] != CIdle {
        PopSoFarKept(s, c, PopViews(init, front, c));
      } else if last == BeginPop(c) && Enabled(s, last) {
        assert LostUpTo([], 0) && PopRound([][0..], CLoadCount);
      }
    }
  }

  /** What the last operation, which took s to s', does in the round that began at n. */
  ghost predicate PopStepIs(s: System, s': System, c: nat, w: seq<View>, n: nat)
    requires Sane(w) && c in s.consumers && c in s'.consumers
  {
    && n <= |w| && LostUpTo(w, n)
    && (s'.claimedOut != s.claimedOut ==>
          s'.claimedOut == s.claimedOut + 1 && n + 3 == |w| && ClaimsTail(w[n..]))
    && (s'.returned != s.returned ==>
          |s'.returned| == |s.returned| + 1 && s'.returned[..|s.returned|] == s.returned
          && s'.consumers[c] == CIdle)
    && (s'.consumers[c] == CIdle ==>
          if s'.returned != s.returned then Returns(w[n..], s'.returned[|s.returned|])
          else FindsEmpty(w[n..]))
  }

  lemma PopEffects(s: System, c: nat, t: seq<View>)
    requires |s.ring.buf| > 0 && Sane(t) && c in s.consumers && s.consumers[c] != CIdle
    requires PopRound(t, s.consumers[c])
    ensures PopStepIs(s, Next(s, PopStep(c)), c, t + [PopView(s, c)], 0)
  {
    assert (t + [PopView(s, c)])[..|t|] == t && (t + [PopView(s, c)])[0..] == t + [PopView(s, c)];
  }

  lemma PopStepAfter(s: System, s': System, c: nat, w: seq<View>, v: View, n: nat)
    requires Sane(w) && |v.before.buf| > 0 && c in s.consumers && c in s'.consumers
    requires n <= |w| && LostUpTo(w, n) && PopStepIs(s, s', c, w[n..] + [v], 0)
    ensures PopStepIs(s, s', c, w + [v], n)
  {
    assert (w + [v])[n..] == w[n..] + [v] && (w + [v])[..n] == w[..n];
    assert (w[n..] + [v])[0..] == w[n..] + [v];
  }

  lemma PopStepExplained(s: System, c: nat, w: seq<View>)
    requires |s.ring.buf| > 0 && Sane(w) && c in s.consumers && s.consumers[c] != CIdle
    requires PopSoFar(w, s.consumers[c])
    ensures exists n: nat :: PopStepIs(s, Next(s, PopStep(c)), c, w + [PopView(s, c)], n)
  {
    var n: nat :| n <= |w| && LostUpTo(w, n) && PopRound(w[n..], s.consumers[c]);
    PopEffects(s, c, w[n..]);
    PopStepAfter(s, Next(s, PopStep(c)), c, w, PopView(s, c), n);
  }

  lemma OneMoreView(init: System, steps: seq<Step>, c: nat)
    requires |init.ring.buf| > 0 && c in init.consumers && Run(init, steps).consumers[c] != CIdle
    ensures Run(init, steps + [PopStep(c)]) == Next(Run(init, steps), PopStep(c))
    ensures PopViews(init, steps + [PopStep(c)], c)
            == PopViews(init, steps, c) + [PopView(Run(init, steps), c)]
  {
    assert (steps + [PopStep(c)])[..|steps|] == steps;
  }

  /** What an operation of c does after any schedule, told by c's operations since its Pop began:
      rounds that lost their claim, and then the last round.  A claim comes after a check of the
      count in that very round; and the call ends when the ring is found empty, or when what the last
      read of the claimed slot found is returned, the slot cleared and the count lowered.  Earlier
      reads found nil, and the last one did only if it was the third. */
  lemma {:induction false} PopIsItsLoop(capacity: nat, ps: set<nat>, cs: set<nat>, steps: seq<Step>, c: nat)
    requires capacity > 0 && c in cs
    ensures var init := Init(capacity, ps, cs);
            var s, s' := Run(init, steps), Run(init, steps + [PopStep(c)]);
            if s.consumers[c] == CIdle then s' == s
            else exists n: nat :: PopStepIs(s, s', c, PopViews(init, steps + [PopStep(c)], c), n)
  {
    var init := Init(capacity, ps, cs);
    var s := Run(init, steps);
    if s.consumers[c] == CIdle {
      assert (steps + [PopStep(c)])[..|steps|] == steps;
      assert s.consumers[c := CIdle] == s.consumers;
    } else {
      PopReached(capacity, ps, cs, steps, c);
      OneMoreView(init, steps, c);
      PopStepExplained(s, c, PopViews(init, steps, c));
    }
  }

  // ---------- one consumer ----------

  ghost function Own(steps: seq<Step>, c: nat): nat {
    if steps == [] then 0
    else Own(steps[..|steps| - 1], c) + if steps[|steps| - 1] == PopStep(c) then 1 else 0
  }

  function InSlot(s: System, at: int): Item
    requires |s.ring.buf| > 0
  {
    SlotBounds(at, |s.ring.buf|);
    s.ring.buf[CalcPos(at, |s.ring.buf|)]
  }

  /** Consumer c, in the call in which it claimed index `at`, will not return nil. */
  ghost predicate Served(s: System, c: nat, at: int, before: nat)
    requires |s.ring.buf| > 0
  {
    && c in s.consumers && before <= |s.returned|
    && if |s.returned| > before then s.returned[before].ptr != 0
       else
         match s.consumers[c]
         case CRead(at', i) => at' == at && InSlot(s, at).ptr != 0
         case CClear(_, item) => item.ptr != 0
         case CCount(item) => item.ptr != 0
         case _ => false
  }

  /** Consumer c is where its own `own` operations since the claim have brought it. */
  ghost predicate WaitsOrServed(s: System, c: nat, at: int, before: nat, own: nat)
    requires |s.ring.buf| > 0
  {
    Served(s, c, at, before)
    || (|s.returned| == before && c in s.consumers && s.consumers[c] == CRead(at, own))
  }

  /** A pushed pointer is never nil. */
  ghost predicate RealItems(s: System) {
    forall p :: p in s.producers && s.producers[p] != PIdle ==> s.producers[p].item.ptr != 0
  }

  lemma ServedKept(s: System, step: Step, c: nat, at: int, before: nat)
    requires |s.ring.buf| > 0 && s.consumers.Keys == {c} && RealItems(s)
    requires Served(s, c, at, before) && !step.Reset?
    ensures RealItems(Next(s, step)) && Served(Next(s, step), c, at, before)
  {
  }

  lemma {:induction false} ServedAlways(s: System, steps: seq<Step>, c: nat, at: int, before: nat)
    requires |s.ring.buf| > 0 && s.consumers.Keys == {c} && RealItems(s)
    requires Served(s, c, at, before) && Reset !in steps
    ensures Served(Run(s, steps), c, at, before) && RealItems(Run(s, steps))
  {
    if steps != [] {
      ServedAlways(s, steps[..|steps| - 1], c, at, before);
      ServedKept(Run(s, steps[..|steps| - 1]), steps[|steps| - 1], c, at, before);
    }
  }

  lemma WaitKept(s: System, step: Step, c: nat, at: int, before: nat, own: nat)
    requires |s.ring.buf| > 0 && s.consumers.Keys == {c} && RealItems(s) && !step.Reset?
    requires WaitsOrServed(s, c, at, before, own) && (step == PopStep(c) ==> own + 1 < 3)
    ensures RealItems(Next(s, step))
    ensures WaitsOrServed(Next(s, step), c, at, before, own + if step == PopStep(c) then 1 else 0)
  {
    if Served(s, c, at, before) {
      ServedKept(s, step, c, at, before);
    }
  }

  lemma {:induction false} WaitsThreeTimes(s: System, steps: seq<Step>, c: nat, at: int)
    requires |s.ring.buf| > 0 && s.consumers.Keys == {c} && RealItems(s)
    requires s.consumers[c] == CRead(at, 0) && Own(steps, c) < 3 && Reset !in steps
    ensures RealItems(Run(s, steps))
    ensures WaitsOrServed(Run(s, steps), c, at, |s.returned|, Own(steps, c))
  {
    if steps != [] {
      WaitsThreeTimes(s, steps[..|steps| - 1], c, at);
      WaitKept(Run(s, steps[..|steps| - 1]), steps[|steps| - 1], c, at, |s.returned|,
               Own(steps[..|steps| - 1], c));
    }
  }

  lemma ItemsStayReal(s: System, step: Step)
    requires |s.ring.buf| > 0 && RealItems(s)
    ensures RealItems(Next(s, step))
  {
  }

  lemma {:induction false} ItemsAreReal(capacity: nat, ps: set<nat>, cs: set<nat>, steps: seq<Step>)
    requires capacity > 0
    ensures RealItems(Run(Init(capacity, ps, cs), steps))
  {
    if steps != [] {
      ItemsAreReal(capacity, ps, cs, steps[..|steps| - 1]);
      ItemsStayReal(Run(Init(capacity, ps, cs), steps[..|steps| - 1]), steps[|steps| - 1]);
    }
  }

  /** With one consumer and any number of producers: if at any time before its third read the slot
      that it claimed holds an item, its Pop does not return nil, whatever happens afterwards. */
  lemma {:induction false} PopTakesWhatArrives(capacity: nat, ps: set<nat>, c: nat, claimed: seq<Step>,
                                               early: seq<Step>, late: seq<Step>, at: int)
    requires capacity > 0 && Reset !in early + late
    requires Run(Init(capacity, ps, {c}), claimed).consumers[c] == CRead(at, 0)
    requires Own(early, c) < 3
    requires InSlot(Run(Run(Init(capacity, ps, {c}), claimed), early), at).ptr != 0
    ensures var s := Run(Init(capacity, ps, {c}), claimed);
            var t := Run(Run(s, early), late);
            |t.returned| > |s.returned| ==> t.returned[|s.returned|].ptr != 0
  {
    var s := Run(Init(capacity, ps, {c}), claimed);
    ItemsAreReal(capacity, ps, {c}, claimed);
    WaitsThreeTimes(s, early, c, at);
    ServedAlways(Run(s, early), late, c, at, |s.returned|);
  }

  /** Consumer c, which is reading the slot of the index it claimed, will return x. */
  ghost predicate Bound(s: System, c: nat, at: int, before: nat, x: Item)
    requires |s.ring.buf| > 0
  {
    && c in s.consumers && before <= |s.returned|
    && if |s.returned| > before then s.returned[before] == x
       else
         match s.consumers[c]
         case CRead(at', _) => at' == at && InSlot(s, at) == x
         case CClear(_, item) => item == x
         case CCount(item) => item == x
         case _ => false
  }

  /** A store into the slot of index `at`. */
  ghost predicate StoresAt(s: System, step: Step, at: int)
    requires |s.ring.buf| > 0
  {
    && step.PushStep? && step.p in s.producers && s.producers[step.p].PStore?
    && CalcPos(s.producers[step.p].at, |s.ring.buf|) == CalcPos(at, |s.ring.buf|)
  }

  ghost predicate Untouched(s: System, steps: seq<Step>, at: int)
    requires |s.ring.buf| > 0
  {
    forall k :: 0 <= k < |steps| ==> !StoresAt(Run(s, steps[..k]), steps[k], at)
  }

  /** With one consumer: an item that lies in the claimed slot while the Pop is still reading it is
      what that Pop returns, unless another is stored there. */
  lemma {:induction false} PopReturnsThatItem(s: System, steps: seq<Step>, c: nat, at: int, x: Item)
    requires |s.ring.buf| > 0 && s.consumers.Keys == {c} && s.consumers[c].CRead? && s.consumers[c].at == at
    requires InSlot(s, at) == x && x.ptr != 0 && Reset !in steps && Untouched(s, steps, at)
    ensures Bound(Run(s, steps), c, at, |s.returned|, x)
  {
    if steps != [] {
      var front, last := steps[..|steps| - 1], steps[|steps| - 1];
      forall k | 0 <= k < |front| ensures !StoresAt(Run(s, front[..k]), front[k], at) {
        assert front[..k] == steps[..k];
      }
      PopReturnsThatItem(s, front, c, at, x);
      assert !StoresAt(Run(s, front), last, at);
      BoundKept(Run(s, front), last, c, at, |s.returned|, x);
    }
  }

  lemma BoundKept(s: System, step: Step, c: nat, at: int, before: nat, x: Item)
    requires |s.ring.buf| > 0 && s.consumers.Keys == {c} && x.ptr != 0
    requires Bound(s, c, at, before, x) && !step.Reset? && !StoresAt(s, step, at)
    ensures Bound(Next(s, step), c, at, before, x)
  {
  }

  // ---------- undisturbed ----------

  /** How many operations a Pop that nobody disturbs takes from here on. */
  function Left(r: Ring, c: Consumer): nat {
    match c
    case CIdle => 0
    case CLoadCount => 8
    case CLoadTail => 7
    case CCas(seen) => if r.tail == seen then 6 else 9
    case CRead(_, i) => if i + 1 >= MAX_RETRY then 3 else 5 - i
    case CClear(_, _) => 2
    case CCount(_) => 1
  }

  lemma LeftFalls(s: System, c: nat)
    requires |s.ring.buf| > 0 && c in s.consumers
    ensures var t := Next(s, PopStep(c));
            t.consumers[c] == CIdle || Left(t.ring, t.consumers[c]) < Left(s.ring, s.consumers[c])
  {
  }

  lemma {:induction false} AloneFor(s: System, c: nat, n: nat)
    requires |s.ring.buf| > 0 && c in s.consumers
    ensures var t := Run(s, seq(n, _ => PopStep(c)));
            t.consumers[c] == CIdle || Left(t.ring, t.consumers[c]) + n <= Left(s.ring, s.consumers[c])
  {
    if n > 0 {
      AloneFor(s, c, n - 1);
      assert seq(n, _ => PopStep(c))[..n - 1] == seq(n - 1, _ => PopStep(c));
      LeftFalls(Run(s, seq(n - 1, _ => PopStep(c))), c);
    }
  }

  /** Wherever a Pop is, even at a claim that it is about to lose, it ends within nine operations of
      its own if the other threads pause. */
  lemma {:induction false} PopEndsAlone(s: System, c: nat, n: nat)
    requires |s.ring.buf| > 0 && c in s.consumers && n >= 9
    ensures Run(s, seq(n, _ => PopStep(c))).consumers[c] == CIdle
  {
    AloneFor(s, c, n);
  }

  /** Where a Pop that nobody disturbs has brought the ring that it found as r. */
  ghost predicate AloneOn(r: Ring, now: Ring, c: Consumer)
    requires |r.buf| > 0
  {
    SlotBounds(r.tail, |r.buf|);
    var claimed, item := r.(tail := Wrap32(r.tail + 1)), r.buf[CalcPos(r.tail, |r.buf|)];
    match c
    case CIdle => now == r.Pop().0
    case CLoadCount => now == r
    case CLoadTail => now == r && r.count != 0
    case CCas(seen) => now == r && r.count != 0 && seen == r.tail
    case CRead(at, _) => now == claimed && r.count != 0 && at == r.tail
    case CClear(at, x) => now == claimed && r.count != 0 && at == r.tail && x == item
    case CCount(x) =>
      && r.count != 0 && x == item
      && now == claimed.(buf := r.buf[CalcPos(r.tail, |r.buf|) := NO_ITEM])
  }

  lemma AloneOnKept(r: Ring, s: System, c: nat)
    requires |r.buf| > 0 && |s.ring.buf| > 0 && c in s.consumers && AloneOn(r, s.ring, s.consumers[c])
    ensures AloneOn(r, Next(s, PopStep(c)).ring, Next(s, PopStep(c)).consumers[c])
    ensures Next(s, PopStep(c)).returned != s.returned ==>
              Next(s, PopStep(c)).returned == s.returned + [r.Pop().1] && r.count != 0
              && s.consumers[c] != CIdle && Next(s, PopStep(c)).consumers[c] == CIdle
    ensures s.consumers[c] != CIdle && Next(s, PopStep(c)).consumers[c] == CIdle && r.count != 0 ==>
              Next(s, PopStep(c)).returned != s.returned
  {
  }

  lemma {:induction false} AloneRun(r: Ring, s: System, c: nat, n: nat)
    requires |r.buf| > 0 && |s.ring.buf| > 0 && c in s.consumers && AloneOn(r, s.ring, s.consumers[c])
    requires s.consumers[c] != CIdle
    ensures var t := Run(s, seq(n, _ => PopStep(c)));
            && AloneOn(r, t.ring, t.consumers[c])
            && t.returned == s.returned + if t.consumers[c] == CIdle && r.count != 0 then [r.Pop().1] else []
  {
    if n > 0 {
      AloneRun(r, s, c, n - 1);
      assert seq(n, _ => PopStep(c))[..n - 1] == seq(n - 1, _ => PopStep(c));
      AloneOnKept(r, Run(s, seq(n - 1, _ => PopStep(c))), c);
    }
  }

  /** The operations of a Pop that nobody disturbs add up to the ring's Pop. */
  lemma {:induction false} PopAlone(s: System, c: nat, n: nat)
    requires |s.ring.buf| > 0 && c in s.consumers && s.consumers[c] == CIdle && n >= 9
    ensures var t := Run(Next(s, BeginPop(c)), seq(n, _ => PopStep(c)));
            && t.consumers[c] == CIdle && t.ring == s.ring.Pop().0
            && t.returned == s.returned + if s.ring.count != 0 then [s.ring.Pop().1] else []
  {
    AloneRun(s.ring, Next(s, BeginPop(c)), c, n);
    PopEndsAlone(Next(s, BeginPop(c)), c, n);
  }
}
