/** What one call of Push (component/smart_buffer.go) does while any number of other threads do what
    they like, told by what its own operations find in the ring and leave there. */
module PushCalls {
  import opened RingIndex
  import opened Rings
  import opened SmartBuffers
  import opened RingSteps
  import opened RingViews

  predicate Unsealed(v: View) { Quiet(v) && v.before.state != ReadOnly }

  predicate Roomy(v: View) { Quiet(v) && v.before.count < |v.before.buf| }

  /** The state and the count are checked, and then head is read. */
  predicate Checks(t: seq<View>) {
    |t| >= 3 && Unsealed(t[0]) && Roomy(t[1]) && Quiet(t[2])
  }

  /** A round of the loop in which another thread changes head before it is claimed. */
  predicate LostPush(t: seq<View>) {
    |t| == 4 && Checks(t) && t[3].before.head != t[2].before.head && Quiet(t[3])
  }

  /** A round of the loop, up to its claim and maybe further. */
  predicate ClaimsHead(t: seq<View>) {
    && |t| >= 4 && Checks(t)
    && t[3].before.head == t[2].before.head
    && t[3].after == t[3].before.(head := Wrap32(t[3].before.head + 1))
  }

  /** After the claim, reads of the claimed slot that all find an item. */
  predicate Probing(t: seq<View>)
    requires Sane(t)
  {
    ClaimsHead(t) && forall i :: 4 <= i < |t| ==> Quiet(t[i]) && Held(t[i], t[3].before.head).ptr != 0
  }

  /** Another read, which is the third or finds none. */
  predicate Probed(t: seq<View>)
    requires Sane(t)
  {
    && 5 <= |t| <= 7 && Probing(t[..|t| - 1]) && Quiet(t[|t| - 1])
    && (|t| == 7 || Held(t[|t| - 1], t[3].before.head).ptr == 0)
  }

  /** Then the item is stored there. */
  predicate StoresItem(t: seq<View>, item: Item)
    requires Sane(t)
  {
    |t| > 5 && Probed(t[..|t| - 1]) && Puts(t[|t| - 1], t[3].before.head, item)
  }

  /** Then it is counted. */
  predicate Publishes(t: seq<View>, item: Item)
    requires Sane(t)
  {
    && |t| > 6 && StoresItem(t[..|t| - 1], item)
    && t[|t| - 1].after == t[|t| - 1].before.(count := Wrap32(t[|t| - 1].before.count + 1))
  }

  predicate FindsSealed(t: seq<View>) {
    |t| == 1 && Quiet(t[0]) && t[0].before.state == ReadOnly
  }

  /** A full ring is sealed if it is writable. */
  predicate FindsFull(t: seq<View>) {
    && |t| == 3 && Unsealed(t[0]) && Quiet(t[1]) && t[1].before.count >= |t[1].before.buf|
    && t[2].after == if t[2].before.state == WriteOnly then t[2].before.(state := ReadOnly) else t[2].before
  }

  /** What p has seen in this round of its loop. */
  predicate PushRound(t: seq<View>, p: Producer, item: Item)
    requires Sane(t)
  {
    p != PIdle ==>
      p.item == item &&
      match p
      case PLoadState(_) => t == []
      case PLoadCount(_) => |t| == 1 && Unsealed(t[0])
      case PSealFull(_) =>
        |t| == 2 && Unsealed(t[0]) && Quiet(t[1]) && t[1].before.count >= |t[1].before.buf|
      case PLoadHead(_) => |t| == 2 && Unsealed(t[0]) && Roomy(t[1])
      case PCas(_, seen) => |t| == 3 && Checks(t) && t[2].before.head == seen
      case PProbe(_, at, i) => |t| == 4 + i < 7 && Probing(t) && t[3].before.head == at
      case PStore(_, at) => Probed(t) && t[3].before.head == at
      case PCount(_) => StoresItem(t, item)
      case _ => true
  }

  predicate PushEnds(t: seq<View>, item: Item)
    requires Sane(t)
  {
    FindsSealed(t) || FindsFull(t) || Publishes(t, item)
  }

  ghost function PushView(s: System, p: nat): (v: View)
    requires |s.ring.buf| > 0
    ensures |v.before.buf| > 0
  {
    View(s.ring, Next(s, PushStep(p)).ring)
  }

  /** The round goes on, or starts anew after a lost claim, or ends the call. */
  predicate PushGoesOn(t: seq<View>, p: Producer, item: Item)
    requires Sane(t)
  {
    match p
    case PIdle => PushEnds(t, item)
    case PLoadState(x) => x == item && LostPush(t)
    case _ => PushRound(t, p, item)
  }

  lemma PushRoundKept(s: System, p: nat, t: seq<View>, item: Item)
    requires |s.ring.buf| > 0 && Sane(t) && p in s.producers && s.producers[p] != PIdle
    requires PushRound(t, s.producers[p], item)
    ensures PushGoesOn(t + [PushView(s, p)], Next(s, PushStep(p)).producers[p], item)
  {
    assert (t + [PushView(s, p)])[..|t|] == t;
  }

  predicate LostPushes(w: seq<View>) {
    w == [] || (|w| >= 4 && LostPushes(w[..|w| - 4]) && LostPush(w[|w| - 4..]))
  }

  /** The first n operations are rounds that lost their claim. */
  predicate LostUpTo(w: seq<View>, n: nat)
    requires n <= |w|
  {
    LostPushes(w[..n])
  }

  /** The views of p's operations since its last Push began. */
  ghost function PushViews(init: System, steps: seq<Step>, p: nat): (w: seq<View>)
    requires |init.ring.buf| > 0
    ensures Sane(w)
  {
    if steps == [] then []
    else PushViewsOn(PushViews(init, steps[..|steps| - 1], p), Run(init, steps[..|steps| - 1]),
                     steps[|steps| - 1], p)
  }

  ghost function PushViewsOn(w: seq<View>, s: System, step: Step, p: nat): (w': seq<View>)
    requires |s.ring.buf| > 0 && Sane(w)
    ensures Sane(w')
  {
    if step.BeginPush? && step.p == p && Enabled(s, step) then []
    else if step == PushStep(p) && p in s.producers && s.producers[p] != PIdle then
      w + [PushView(s, p)]
    else w
  }

  /** The item that p's last Push was given. */
  ghost function Given(init: System, steps: seq<Step>, p: nat): Item
    requires |init.ring.buf| > 0
  {
    if steps == [] then NO_ITEM
    else GivenOn(Given(init, steps[..|steps| - 1], p), Run(init, steps[..|steps| - 1]),
                 steps[|steps| - 1], p)
  }

  ghost function GivenOn(item: Item, s: System, step: Step, p: nat): Item {
    if step.BeginPush? && step.p == p && Enabled(s, step) then step.item else item
  }

  ghost predicate PushSoFar(w: seq<View>, p: Producer, item: Item)
    requires Sane(w)
  {
    exists n: nat :: n <= |w| && LostUpTo(w, n) && PushRound(w[n..], p, item)
  }

  lemma LostOnceMore(w: seq<View>, n: nat)
    requires n <= |w| && LostUpTo(w, n) && LostPush(w[n..])
    ensures LostUpTo(w, |w|)
  {
    assert w[..|w|] == w && w[..n] == w[..|w| - 4];
  }

  /** A call that has just ended. */
  ghost predicate PushDone(w: seq<View>, item: Item, n: nat)
    requires Sane(w)
  {
    n <= |w| && LostUpTo(w, n) && PushEnds(w[n..], item)
  }

  ghost predicate PushSoFarOrDone(w: seq<View>, p: Producer, item: Item)
    requires Sane(w)
  {
    if p == PIdle then exists n: nat :: PushDone(w, item, n) else PushSoFar(w, p, item)
  }

  lemma PushSettled(w: seq<View>, n: nat, v: View, p: Producer, item: Item)
    requires Sane(w) && |v.before.buf| > 0
    requires n <= |w| && LostUpTo(w, n) && PushGoesOn(w[n..] + [v], p, item)
    ensures PushSoFarOrDone(w + [v], p, item)
  {
    var w' := w + [v];
    assert w'[n..] == w[n..] + [v] && w'[..n] == w[..n];
    if p == PIdle {
      assert PushDone(w', item, n);
    } else if p.PLoadState? {
      LostOnceMore(w', n);
      assert PushRound(w'[|w'|..], p, item);
    }
  }

  lemma PushSoFarKept(s: System, p: nat, w: seq<View>, item: Item)
    requires |s.ring.buf| > 0 && Sane(w) && p in s.producers && s.producers[p] != PIdle
    requires PushSoFar(w, s.producers[p], item)
    ensures PushSoFarOrDone(w + [PushView(s, p)], Next(s, PushStep(p)).producers[p], item)
  {
    var n: nat :| n <= |w| && LostUpTo(w, n) && PushRound(w[n..], s.producers[p], item);
    PushRoundKept(s, p, w[n..], item);
    PushSettled(w, n, PushView(s, p), Next(s, PushStep(p)).producers[p], item);
  }

  lemma {:induction false} PushReached(capacity: nat, ps: set<nat>, cs: set<nat>, steps: seq<Step>, p: nat)
    requires capacity > 0 && p in ps
    ensures var init := Init(capacity, ps, cs);
            Run(init, steps).producers[p] != PIdle ==>
              PushSoFar(PushViews(init, steps, p), Run(init, steps).producers[p], Given(init, steps, p))
  {
    if steps != [] {
      var init, front, last := Init(capacity, ps, cs), steps[..|steps| - 1], steps[|steps| - 1];
      PushReached(capacity, ps, cs, front, p);
      var s := Run(init, front);
      if last == PushStep(p) && s.producers[p] != PIdle {
        PushSoFarKept(s, p, PushViews(init, front, p), Given(init, front, p));
      } else if last.BeginPush? && last.p == p && Enabled(s, last) {
        assert LostUpTo([], 0) && PushRound([][0..], PLoadState(last.item), last.item);
      }
    }
  }

  /** What the last operation, which took s to s', does in the round that began at n. */
  ghost predicate PushStepIs(s: System, s': System, p: nat, w: seq<View>, item: Item, n: nat)
    requires Sane(w) && p in s.producers && p in s'.producers
  {
    && n <= |w| && LostUpTo(w, n)
    && (s'.claimedIn != s.claimedIn ==> s'.claimedIn == s.claimedIn + 1 && n + 4 == |w| && ClaimsHead(w[n..]))
    && (s'.published != s.published ==>
          s'.published == s.published + [Publication(p, item)] && s'.producers[p] == PIdle)
    && (s'.producers[p] == PIdle ==>
          if s'.published != s.published then Publishes(w[n..], item)
          else FindsSealed(w[n..]) || FindsFull(w[n..]))
  }

  lemma PushEffects(s: System, p: nat, t: seq<View>, item: Item)
    requires |s.ring.buf| > 0 && Sane(t) && p in s.producers && s.producers[p] != PIdle
    requires PushRound(t, s.producers[p], item)
    ensures PushStepIs(s, Next(s, PushStep(p)), p, t + [PushView(s, p)], item, 0)
  {
    assert (t + [PushView(s, p)])[..|t|] == t && (t + [PushView(s, p)])[0..] == t + [PushView(s, p)];
  }

  lemma PushStepAfter(s: System, s': System, p: nat, w: seq<View>, v: View, item: Item, n: nat)
    requires Sane(w) && |v.before.buf| > 0 && p in s.producers && p in s'.producers
    requires n <= |w| && LostUpTo(w, n) && PushStepIs(s, s', p, w[n..] + [v], item, 0)
    ensures PushStepIs(s, s', p, w + [v], item, n)
  {
    assert (w + [v])[n..] == w[n..] + [v] && (w + [v])[..n] == w[..n];
    assert (w[n..] + [v])[0..] == w[n..] + [v];
  }

  lemma PushStepExplained(s: System, p: nat, w: seq<View>, item: Item)
    requires |s.ring.buf| > 0 && Sane(w) && p in s.producers && s.producers[p] != PIdle
    requires PushSoFar(w, s.producers[p], item)
    ensures exists n: nat :: PushStepIs(s, Next(s, PushStep(p)), p, w + [PushView(s, p)], item, n)
  {
    var n: nat :| n <= |w| && LostUpTo(w, n) && PushRound(w[n..], s.producers[p], item);
    PushEffects(s, p, w[n..], item);
    PushStepAfter(s, Next(s, PushStep(p)), p, w, PushView(s, p), item, n);
  }

  lemma OneMoreView(init: System, steps: seq<Step>, p: nat)
    requires |init.ring.buf| > 0 && p in init.producers && Run(init, steps).producers[p] != PIdle
    ensures Run(init, steps + [PushStep(p)]) == Next(Run(init, steps), PushStep(p))
    ensures PushViews(init, steps + [PushStep(p)], p)
            == PushViews(init, steps, p) + [PushView(Run(init, steps), p)]
  {
    assert (steps + [PushStep(p)])[..|steps|] == steps;
  }

  /** What an operation of p does after any schedule, told by p's operations since its Push began:
      rounds that lost their claim, and then the last round.  A claim comes after a check of the
      state and one of the count in that very round; and the call ends refused, by a sealed or a full
      ring, or when the item it was given is stored and counted, in the slot claimed, once a read of
      that slot found it nil or three did not. */
  lemma {:induction false} PushIsItsLoop(capacity: nat, ps: set<nat>, cs: set<nat>, steps: seq<Step>, p: nat)
    requires capacity > 0 && p in ps
    ensures var init := Init(capacity, ps, cs);
            var s, s' := Run(init, steps), Run(init, steps + [PushStep(p)]);
            if s.producers[p] == PIdle then s' == s
            else exists n: nat :: PushStepIs(s, s', p, PushViews(init, steps + [PushStep(p)], p),
                                             Given(init, steps, p), n)
  {
    var init := Init(capacity, ps, cs);
    var s := Run(init, steps);
    if s.producers[p] == PIdle {
      assert (steps + [PushStep(p)])[..|steps|] == steps;
      assert s.producers[p := PIdle] == s.producers;
    } else {
      PushReached(capacity, ps, cs, steps, p);
      OneMoreView(init, steps, p);
      PushStepExplained(s, p, PushViews(init, steps, p), Given(init, steps, p));
    }
  }

  // ---------- undisturbed ----------

  /** How many operations a Push that nobody disturbs takes from here on. */
  function Left(r: Ring, p: Producer): nat {
    match p
    case PIdle => 0
    case PLoadState(_) => 9
    case PLoadCount(_) => 8
    case PSealFull(_) => 1
    case PLoadHead(_) => 7
    case PCas(_, seen) => if r.head == seen then 6 else 10
    case PProbe(_, _, i) => if i + 1 >= MAX_RETRY then 3 else 5 - i
    case PStore(_, _) => 2
    case PCount(_) => 1
  }

  lemma LeftFalls(s: System, p: nat)
    requires |s.ring.buf| > 0 && p in s.producers
    ensures var t := Next(s, PushStep(p));
            t.producers[p] == PIdle || Left(t.ring, t.producers[p]) < Left(s.ring, s.producers[p])
  {
  }

  lemma {:induction false} AloneFor(s: System, p: nat, n: nat)
    requires |s.ring.buf| > 0 && p in s.producers
    ensures var t := Run(s, seq(n, _ => PushStep(p)));
            t.producers[p] == PIdle || Left(t.ring, t.producers[p]) + n <= Left(s.ring, s.producers[p])
  {
    if n > 0 {
      AloneFor(s, p, n - 1);
      assert seq(n, _ => PushStep(p))[..n - 1] == seq(n - 1, _ => PushStep(p));
      LeftFalls(Run(s, seq(n - 1, _ => PushStep(p))), p);
    }
  }

  /** Wherever a Push is, even at a claim that it is about to lose, it ends within ten operations of
      its own if the other threads pause. */
  lemma {:induction false} PushEndsAlone(s: System, p: nat, n: nat)
    requires |s.ring.buf| > 0 && p in s.producers && n >= 10
    ensures Run(s, seq(n, _ => PushStep(p))).producers[p] == PIdle
  {
    AloneFor(s, p, n);
  }

  /** Where a Push that nobody disturbs has brought the ring that it found as r. */
  ghost predicate AloneOn(r: Ring, item: Item, now: Ring, p: Producer)
    requires |r.buf| > 0
  {
    var claimed := r.(head := Wrap32(r.head + 1));
    match p
    case PIdle => now == r.Push(item).0
    case PLoadState(x) => x == item && now == r
    case PLoadCount(x) => x == item && now == r && r.state != ReadOnly
    case PSealFull(x) => x == item && now == r && r.state != ReadOnly && r.count >= |r.buf|
    case PLoadHead(x) => x == item && now == r && r.state != ReadOnly && r.count < |r.buf|
    case PCas(x, seen) =>
      x == item && now == r && r.state != ReadOnly && r.count < |r.buf| && seen == r.head
    case PProbe(x, at, _) =>
      x == item && now == claimed && r.state != ReadOnly && r.count < |r.buf| && at == r.head
    case PStore(x, at) =>
      x == item && now == claimed && r.state != ReadOnly && r.count < |r.buf| && at == r.head
    case PCount(x) =>
      SlotBounds(r.head, |r.buf|);
      && x == item && r.state != ReadOnly && r.count < |r.buf|
      && now == claimed.(buf := r.buf[CalcPos(r.head, |r.buf|) := item])
  }

  lemma AloneOnKept(r: Ring, item: Item, s: System, p: nat)
    requires |r.buf| > 0 && |s.ring.buf| > 0 && p in s.producers && AloneOn(r, item, s.ring, s.producers[p])
    ensures AloneOn(r, item, Next(s, PushStep(p)).ring, Next(s, PushStep(p)).producers[p])
  {
  }

  lemma {:induction false} AloneRun(r: Ring, item: Item, s: System, p: nat, n: nat)
    requires |r.buf| > 0 && |s.ring.buf| > 0 && p in s.producers && AloneOn(r, item, s.ring, s.producers[p])
    ensures var t := Run(s, seq(n, _ => PushStep(p)));
            AloneOn(r, item, t.ring, t.producers[p])
  {
    if n > 0 {
      AloneRun(r, item, s, p, n - 1);
      assert seq(n, _ => PushStep(p))[..n - 1] == seq(n - 1, _ => PushStep(p));
      AloneOnKept(r, item, Run(s, seq(n - 1, _ => PushStep(p))), p);
    }
  }

  /** The operations of a Push that nobody disturbs add up to the ring's Push. */
  lemma {:induction false} PushAlone(s: System, p: nat, item: Item, n: nat)
    requires |s.ring.buf| > 0 && p in s.producers && s.producers[p] == PIdle && item.ptr != 0 && n >= 10
    ensures var t := Run(Next(s, BeginPush(p, item)), seq(n, _ => PushStep(p)));
            t.producers[p] == PIdle && t.ring == s.ring.Push(item).0
  {
    AloneRun(s.ring, item, Next(s, BeginPush(p, item)), p, n);
    PushEndsAlone(Next(s, BeginPush(p, item)), p, n);
  }
}
