/** Where the ring of component/smart_buffer.go stops being a bounded queue: the checks of `count`
    and the claims of an index are separate operations, and Pop tests `count == 0`. */
module RingRaces {
  import opened RingIndex
  import opened Rings
  import opened RingSteps

  const ITEM := Item(1, 1)

  lemma {:induction false} RunAppend(s: System, a: seq<Step>, b: seq<Step>)
    requires |s.ring.buf| > 0
    ensures Run(s, a + b) == Run(Run(s, a), b)
  {
    if b == [] {
      assert a + b == a;
    } else {
      var front := b[..|b| - 1];
      RunAppend(s, a, front);
      assert (a + b)[..|a + b| - 1] == a + front;
    }
  }

  lemma RunAppend4(s: System, a: seq<Step>, b: seq<Step>, c: seq<Step>, d: seq<Step>)
    requires |s.ring.buf| > 0
    ensures Run(s, a + b + c + d) == Run(Run(Run(Run(s, a), b), c), d)
  {
    RunAppend(s, a, b);
    RunAppend(s, a + b, c);
    RunAppend(s, a + b + c, d);
  }

  lemma RunCons(s: System, step: Step, rest: seq<Step>)
    requires |s.ring.buf| > 0
    ensures Run(s, [step] + rest) == Run(Next(s, step), rest)
  {
    assert [step][..0] == [];
    assert Run(s, [step]) == Next(Run(s, []), step);
    RunAppend(s, [step], rest);
  }

  lemma RunTwo(s: System, a: Step, b: Step)
    requires |s.ring.buf| > 0
    ensures Run(s, [a, b]) == Next(Next(s, a), b)
  {
    RunCons(s, a, [b]);
    RunCons(Next(s, a), b, []);
    assert [a, b] == [a] + [b] && [b] == [b] + [];
    assert Run(Next(Next(s, a), b), []) == Next(Next(s, a), b);
  }

  /** Thread p, alone, from the claim it is about to make to the end of Push. */
  ghost predicate Pushed(s: System, t: System, p: nat)
    requires p in s.producers
  {
    && t.ring.count == Wrap32(s.ring.count + 1)
    && t.ring.state == s.ring.state
    && |t.ring.buf| == |s.ring.buf|
    && t.producers == s.producers[p := PIdle]
    && t.consumers == s.consumers
    && s.producers[p] != PIdle
    && t.published == s.published + [Publication(p, s.producers[p].item)] && t.returned == s.returned
  }

  lemma {:induction false} FinishPush(s: System, p: nat) returns (steps: seq<Step>)
    requires |s.ring.buf| > 0 && p in s.producers && ADMITTED(s.producers[p])
    requires s.producers[p].PCas? ==> s.producers[p].seen == s.ring.head
    ensures Pushed(s, Run(s, steps), p) && Reset !in steps
    decreases match s.producers[p]
              case PLoadHead(_) => 10
              case PCas(_, _) => 9
              case PProbe(_, _, i) => if i <= 5 then 8 - i else 3
              case PStore(_, _) => 1
              case _ => 0
  {
    var t := Next(s, PushStep(p));
    if s.producers[p].PCount? {
      RunCons(s, PushStep(p), []);
      assert Run(t, []) == t;
      steps := [PushStep(p)] + [];
    } else {
      var rest := FinishPush(t, p);
      RunCons(s, PushStep(p), rest);
      assert s.producers[p := t.producers[p]][p := PIdle] == s.producers[p := PIdle];
      steps := [PushStep(p)] + rest;
    }
  }

  /** A producer starts a Push and passes both checks. */
  lemma AdmitPush(s: System, p: nat) returns (steps: seq<Step>)
    requires |s.ring.buf| > 0 && p in s.producers && s.producers[p] == PIdle
    requires s.ring.state != ReadOnly && s.ring.count < |s.ring.buf|
    ensures Run(s, steps) == s.(producers := s.producers[p := PLoadHead(ITEM)]) && Reset !in steps
  {
    var s1 := s.(producers := s.producers[p := PLoadState(ITEM)]);
    var s2 := s.(producers := s.producers[p := PLoadCount(ITEM)]);
    var s3 := s.(producers := s.producers[p := PLoadHead(ITEM)]);
    assert s2 == Next(s1, PushStep(p)) by {
      assert s1.producers[p := PLoadCount(ITEM)] == s2.producers;
    }
    assert s3 == Next(s2, PushStep(p)) by {
      assert s2.producers[p := PLoadHead(ITEM)] == s3.producers;
    }
    RunTwo(s1, PushStep(p), PushStep(p));
    RunCons(s, BeginPush(p, ITEM), [PushStep(p), PushStep(p)]);
    steps := [BeginPush(p, ITEM)] + [PushStep(p), PushStep(p)];
  }

  ghost predicate Open(s: System, n: nat) {
    && |s.ring.buf| > 0 && s.ring.count == n && s.ring.state == WriteOnly
    && (forall p :: p in s.producers ==> s.producers[p] == PIdle)
  }

  lemma {:induction false} Fill(s: System, p: nat, n: nat) returns (steps: seq<Step>)
    requires Open(s, 0) && p in s.producers && n <= |s.ring.buf| < TWO31
    ensures Open(Run(s, steps), n) && Reset !in steps
    ensures Run(s, steps).consumers == s.consumers
    ensures |Run(s, steps).published| == |s.published| + n && Run(s, steps).returned == s.returned
  {
    if n == 0 {
      steps := [];
    } else {
      var before := Fill(s, p, n - 1);
      var t := Run(s, before);
      var admit := AdmitPush(t, p);
      var u := Run(t, admit);
      var finish := FinishPush(u, p);
      RunAppend(s, before, admit);
      RunAppend(s, before + admit, finish);
      steps := before + admit + finish;
    }
  }

  /** All of qs pass both checks. */
  ghost predicate AdmittedAll(s: System, t: System, qs: set<nat>) {
    && t.ring == s.ring && t.consumers == s.consumers && t.producers.Keys == s.producers.Keys
    && t.published == s.published && t.returned == s.returned
    && (forall p :: p in s.producers ==>
          t.producers[p] == if p in qs then PLoadHead(ITEM) else s.producers[p])
  }

  lemma {:induction false} AdmitAll(s: System, qs: set<nat>) returns (steps: seq<Step>)
    requires |s.ring.buf| > 0 && qs <= s.producers.Keys
    requires forall p :: p in qs ==> s.producers[p] == PIdle
    requires s.ring.state != ReadOnly && s.ring.count < |s.ring.buf|
    ensures AdmittedAll(s, Run(s, steps), qs)
  {
    if qs == {} {
      steps := [];
    } else {
      var p :| p in qs;
      var before := AdmitAll(s, qs - {p});
      var last := AdmitPush(Run(s, before), p);
      RunAppend(s, before, last);
      steps := before + last;
    }
  }

  /** Everybody who has passed the checks stores, whatever the count has become since. */
  lemma {:induction false} FinishAll(s: System, qs: set<nat>) returns (steps: seq<Step>)
    requires |s.ring.buf| > 0 && qs <= s.producers.Keys
    requires forall p :: p in qs ==> s.producers[p] == PLoadHead(ITEM)
    ensures |Run(s, steps).published| == |s.published| + |qs| && Run(s, steps).returned == s.returned
    decreases |qs|
  {
    if qs == {} {
      steps := [];
    } else {
      var p :| p in qs;
      var first := FinishPush(s, p);
      var rest := FinishAll(Run(s, first), qs - {p});
      RunAppend(s, first, rest);
      steps := first + rest;
    }
  }

  lemma {:induction false} SubsetOfSize(a: set<nat>, k: nat) returns (b: set<nat>)
    requires k <= |a|
    ensures b <= a && |b| == k
  {
    if k == 0 {
      b := {};
    } else {
      var x :| x in a;
      var rest := SubsetOfSize(a - {x}, k - 1);
      b := rest + {x};
    }
  }

  lemma PublishBeyond(capacity: nat, ps: set<nat>, cs: set<nat>, k: nat) returns (steps: seq<Step>)
    requires 0 < capacity < TWO31 && ps != {} && k <= |ps|
    ensures var s := Run(Init(capacity, ps, cs), steps);
            |s.published| == capacity - 1 + k && s.returned == []
  {
    var s := Init(capacity, ps, cs);
    var p :| p in ps;
    var qs := SubsetOfSize(ps, k);
    var fill := Fill(s, p, capacity - 1);
    var admit := AdmitAll(Run(s, fill), qs);
    var finish := FinishAll(Run(Run(s, fill), admit), qs);
    RunAppend(s, fill, admit);
    RunAppend(s, fill + admit, finish);
    steps := fill + admit + finish;
  }

  /** Producers that all see room for one item all store. */
  lemma Overfill(capacity: nat, ps: set<nat>, cs: set<nat>, k: nat) returns (steps: seq<Step>)
    requires 0 < capacity < TWO31 && ps != {} && k <= |ps|
    ensures Run(Init(capacity, ps, cs), steps).ring.count == Wrap32(capacity - 1 + k)
  {
    steps := PublishBeyond(capacity, ps, cs, k);
    AccountedReached(capacity, ps, cs, steps);
  }

  /** The bound on the count is reached: all producers can pass the check for the last place. */
  lemma CountBoundReached(capacity: nat, ps: set<nat>, cs: set<nat>) returns (steps: seq<Step>)
    requires 0 < capacity < TWO31 && ps != {} && capacity + |ps| <= TWO31
    ensures Run(Init(capacity, ps, cs), steps).ring.count == capacity + |ps| - 1
  {
    steps := Overfill(capacity, ps, cs, |ps|);
  }

  // ---------- two consumers ----------

  ghost predicate Popped(s: System, t: System, c: nat)
    requires c in s.consumers
  {
    && t.ring.count == Wrap32(s.ring.count - 1)
    && t.ring.state == s.ring.state
    && |t.ring.buf| == |s.ring.buf|
    && t.producers == s.producers
    && t.consumers == s.consumers[c := CIdle]
    && t.published == s.published && |t.returned| == |s.returned| + 1
  }

  lemma {:induction false} FinishPop(s: System, c: nat) returns (steps: seq<Step>)
    requires |s.ring.buf| > 0 && c in s.consumers && COMMITTED(s.consumers[c])
    requires s.consumers[c].CCas? ==> s.consumers[c].seen == s.ring.tail
    ensures Popped(s, Run(s, steps), c) && Reset !in steps
    decreases match s.consumers[c]
              case CLoadTail => 10
              case CCas(_) => 9
              case CRead(_, i) => if i <= 5 then 8 - i else 3
              case CClear(_, _) => 1
              case _ => 0
  {
    var t := Next(s, PopStep(c));
    if s.consumers[c].CCount? {
      RunCons(s, PopStep(c), []);
      assert Run(t, []) == t;
      steps := [PopStep(c)] + [];
    } else {
      var rest := FinishPop(t, c);
      RunCons(s, PopStep(c), rest);
      assert s.consumers[c := t.consumers[c]][c := CIdle] == s.consumers[c := CIdle];
      steps := [PopStep(c)] + rest;
    }
  }

  lemma CommitPop(s: System, c: nat) returns (steps: seq<Step>)
    requires |s.ring.buf| > 0 && c in s.consumers && s.consumers[c] == CIdle && s.ring.count != 0
    ensures Run(s, steps) == s.(consumers := s.consumers[c := CLoadTail]) && Reset !in steps
  {
    var s1 := Next(s, BeginPop(c));
    var s2 := Next(s1, PopStep(c));
    steps := [BeginPop(c)] + ([PopStep(c)] + []);
    RunCons(s, BeginPop(c), [PopStep(c)] + []);
    RunCons(s1, PopStep(c), []);
    assert Run(s2, []) == s2;
    assert s2.consumers == s.consumers[c := CLoadTail];
  }

  /** Two consumers that both see the last item both pop. */
  lemma RaceToPop(s: System, c: nat, d: nat) returns (steps: seq<Step>)
    requires |s.ring.buf| > 0 && s.ring.count == 1 && c != d
    requires c in s.consumers && s.consumers[c] == CIdle
    requires d in s.consumers && s.consumers[d] == CIdle
    ensures Run(s, steps).ring.count == -1
  {
    var first := CommitPop(s, c);
    var t1 := Run(s, first);
    var second := CommitPop(t1, d);
    var t2 := Run(t1, second);
    var finishFirst := FinishPop(t2, c);
    var t3 := Run(t2, finishFirst);
    var finishSecond := FinishPop(t3, d);
    RunAppend4(s, first, second, finishFirst, finishSecond);
    steps := first + second + finishFirst + finishSecond;
  }

  lemma Underflow(capacity: nat, ps: set<nat>, cs: set<nat>, p: nat, c: nat, d: nat)
      returns (steps: seq<Step>)
    requires 0 < capacity < TWO31 && p in ps && c in cs && d in cs && c != d
    ensures Run(Init(capacity, ps, cs), steps).ring.count == -1
  {
    var s := Init(capacity, ps, cs);
    var fill := Fill(s, p, 1);
    var race := RaceToPop(Run(s, fill), c, d);
    RunAppend(s, fill, race);
    steps := fill + race;
  }

  lemma TwoMembers(a: set<nat>) returns (x: nat, y: nat)
    requires |a| >= 2
    ensures x in a && y in a && x != y
  {
    x :| x in a;
    assert |a - {x}| == |a| - 1;
    y :| y in a - {x};
  }

  ghost function Count(capacity: nat, ps: set<nat>, cs: set<nat>, steps: seq<Step>): int
    requires capacity > 0
  {
    Run(Init(capacity, ps, cs), steps).ring.count
  }

  lemma UnderflowIsPossible(capacity: nat, ps: set<nat>, cs: set<nat>)
    requires 0 < capacity < TWO31 && ps != {} && |cs| >= 2
    ensures exists steps :: Count(capacity, ps, cs, steps) == -1
  {
    var p :| p in ps;
    var c, d := TwoMembers(cs);
    var steps := Underflow(capacity, ps, cs, p, c, d);
    assert Count(capacity, ps, cs, steps) == -1;
  }

  /** The count stays between zero and the capacity, whatever the interleaving, if and only if
      there are one producer and at most one consumer. */
  lemma {:induction false} WithinCapacityIff(capacity: nat, ps: set<nat>, cs: set<nat>)
    requires 0 < capacity < TWO31 && ps != {}
    ensures (forall steps :: 0 <= Count(capacity, ps, cs, steps) <= capacity) <==> |ps| == 1 && |cs| <= 1
  {
    if |cs| >= 2 {
      UnderflowIsPossible(capacity, ps, cs);
    } else if |ps| >= 2 {
      var steps := Overfill(capacity, ps, cs, 2);
      assert !(0 <= Count(capacity, ps, cs, steps) <= capacity);
    } else {
      forall steps ensures 0 <= Count(capacity, ps, cs, steps) <= capacity {
        CountBound(capacity, ps, cs, steps);
      }
    }
  }

  /** The count never goes negative, whatever the interleaving, if and only if there is at most
      one consumer and so few producers that its largest value fits.  Once negative it is not zero,
      so every later Pop goes on claiming slots. */
  lemma {:induction false} NeverNegativeIff(capacity: nat, ps: set<nat>, cs: set<nat>)
    requires 0 < capacity < TWO31 && ps != {}
    ensures (forall steps :: Count(capacity, ps, cs, steps) >= 0)
            <==> |cs| <= 1 && capacity + |ps| <= TWO31
  {
    if |cs| >= 2 {
      UnderflowIsPossible(capacity, ps, cs);
    } else if capacity + |ps| > TWO31 {
      var steps := Overfill(capacity, ps, cs, TWO31 + 1 - capacity);
      assert Count(capacity, ps, cs, steps) == Wrap32(TWO31);
    } else {
      forall steps ensures Count(capacity, ps, cs, steps) >= 0 {
        CountBound(capacity, ps, cs, steps);
      }
    }
  }
}
