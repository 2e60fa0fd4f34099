/** Every step of the pipeline keeps the sequence numbers where they belong. */
module PipelineNumbers {
  import opened Pipeline
  import opened PipelineInv

  /** The fields the numbers are kept in. */
  ghost predicate SameNumbers(s: State, t: State) {
    && t.capacity == s.capacity && t.retired == s.retired && t.numbering == s.numbering
    && t.sequence == s.sequence && t.currentSequence >= 1 && NextNumber(t) == NextNumber(s)
  }

  /** What the numbers say about the whereabouts of ring r survives. */
  ghost predicate SameWhereabouts(s: State, t: State, r: nat)
  {
    r in s.owner ==>
      && r in t.owner
      && (forall n, b :: OnItsWay(s.owner[r], n, b) ==> OnItsWay(t.owner[r], n, b))
      && (forall b :: s.owner[r] == AtSpawned(b) ==> t.owner[r] == AtSpawned(b))
      && (s.owner[r].AtThread? && s.owner[r].t in s.threads ==>
            forall b :: s.threads[s.owner[r].t] == Spawning(Job(r, b)) ==>
              || t.owner[r] == AtSpawned(b)
              || (t.owner[r] == s.owner[r] && s.owner[r].t in t.threads
                  && t.threads[s.owner[r].t] == Spawning(Job(r, b))))
  }

  lemma NumbersFrame(s: State, t: State)
    requires NoneLost(s) && SameNumbers(s, t)
    requires forall r :: r in s.owner ==> SameWhereabouts(s, t, r)
    ensures NoneLost(t)
    ensures Issued(s) ==> Issued(t)
  {
    if Issued(s) {
      forall n | 0 <= n < |t.numbering| ensures NumberOk(t, n) { assert NumberOk(s, n); }
      forall b | 0 <= b < |t.retired| ensures BatchOk(t, b) { assert BatchOk(s, b); }
    }
    forall b | 0 <= b < |t.retired| && t.retired[b].number == 0 ensures Unnumbered(t, b) {
      assert Unnumbered(s, b) && SameWhereabouts(s, t, t.retired[b].ring);
    }
    forall n | 0 <= NextNumber(t) - 1 <= n < |t.numbering| ensures Underway(t, n) {
      assert Underway(s, n) && SameWhereabouts(s, t, t.numbering[n].ring);
    }
  }

  /** Steps that change no owner and move a thread that is not about to spawn. */
  lemma StillNumbers(s: State, t: State)
    requires Placed(s) && Numbers(s) && SameNumbers(s, t) && t.owner == s.owner
    requires forall x :: x in s.threads ==> x in t.threads
    requires forall x :: x in s.threads && t.threads[x] != s.threads[x] ==>
               !s.threads[x].Spawning? && !t.threads[x].Spawning?
    ensures Placed(t) && Numbers(t)
  {
    forall r | r in s.owner ensures SameWhereabouts(s, t, r) && PlaceOk(t, r) {
      assert PlaceOk(s, r);
    }
    NumbersFrame(s, t);
  }

  /** A ring moves between places that carry no number. */
  lemma FreeRingNumbers(s: State, t: State, r0: nat)
    requires Placed(s) && Numbers(s) && SameNumbers(s, t)
    requires t.owner.Keys == s.owner.Keys + {r0}
    requires forall r :: r in s.owner && r != r0 ==> t.owner[r] == s.owner[r]
    requires r0 in s.owner ==> s.owner[r0] == AtPool || s.owner[r0] == AtCurrent
    requires PlaceOk(t, r0)
    requires forall x :: x in s.threads ==> x in t.threads
    requires forall x :: x in s.threads && t.threads[x] != s.threads[x] ==>
               !s.threads[x].Spawning? && !t.threads[x].Spawning?
    ensures Placed(t) && Numbers(t)
  {
    forall r | r in s.owner ensures SameWhereabouts(s, t, r) {
    }
    forall r | r in s.owner && r != r0 ensures PlaceOk(t, r) {
      assert PlaceOk(s, r);
    }
    NumbersFrame(s, t);
  }

  /** A numbered ring moves on under its number. */
  lemma HandNumbers(s: State, t: State, r0: nat, n: nat, b: nat, to: Place)
    requires Placed(s) && Numbers(s) && SameNumbers(s, t) && t.threads == s.threads
    requires r0 in s.owner && OnItsWay(s.owner[r0], n, b)
    requires OnItsWay(to, n, b) && t.owner == s.owner[r0 := to]
    ensures Placed(t) && Numbers(t)
  {
    forall r | r in s.owner ensures SameWhereabouts(s, t, r) && PlaceOk(t, r) {
      assert PlaceOk(s, r);
    }
    NumbersFrame(s, t);
  }

  lemma SpawnNumbers(s: State, x: nat)
    requires Owned(s) && Placed(s) && Numbers(s) && Enabled(s, Spawn(x))
    ensures Placed(Do(s, Spawn(x))) && Numbers(Do(s, Spawn(x)))
  {
    var t := Do(s, Spawn(x));
    assert Refers(s, AtThread(x), s.threads[x].job.ring);
    forall r | r in s.owner ensures SameWhereabouts(s, t, r) && PlaceOk(t, r) {
      assert PlaceOk(s, r);
      assert Refers(s, s.owner[r], r);
    }
    NumbersFrame(s, t);
  }

  // ---------- the switch opens a batch without a number ----------

  lemma SwapPlaced(s: State, x: nat)
    requires Owned(s) && Placed(s) && Enabled(s, Swap(x))
    ensures Placed(DoSwap(s, x))
  {
  }

  lemma SwapNoneLost(s: State, x: nat)
    requires Owned(s) && NoneLost(s) && Enabled(s, Swap(x))
    ensures NoneLost(DoSwap(s, x))
  {
    var t := DoSwap(s, x);
    assert Refers(s, AtActive, s.active);
    assert Refers(s, AtPassive, s.passive);
    assert Refers(s, AtThread(x), s.threads[x].newRing);
    forall b | 0 <= b < |t.retired| && t.retired[b].number == 0 ensures Unnumbered(t, b) {
      if b < |s.retired| {
        assert Unnumbered(s, b);
      }
    }
    forall n | 0 <= NextNumber(t) - 1 <= n < |t.numbering| ensures Underway(t, n) {
      assert Underway(s, n);
    }
  }

  lemma SwapNumbers(s: State, x: nat)
    requires Owned(s) && Placed(s) && Numbers(s) && Enabled(s, Swap(x))
    requires |s.filling| <= s.capacity
    ensures Placed(DoSwap(s, x)) && Numbers(DoSwap(s, x))
  {
    var t := DoSwap(s, x);
    SwapPlaced(s, x);
    SwapNoneLost(s, x);
    forall n | 0 <= n < |t.numbering| ensures NumberOk(t, n) { assert NumberOk(s, n); }
    forall b | 0 <= b < |t.retired| ensures BatchOk(t, b) {
      assert b < |s.retired| ==> BatchOk(s, b);
    }
  }

  // ---------- a goroutine takes the next number for its batch ----------

  lemma TakeNumberPlaced(s: State, job: Job)
    requires Owned(s) && Placed(s) && Issued(s) && Enabled(s, TakeNumber(job))
    ensures Placed(DoTakeNumber(s, job))
  {
    assert Refers(s, AtSpawned(job.batch), job.ring);
    assert PlaceOk(s, job.ring);
    forall r | r in DoTakeNumber(s, job).owner ensures PlaceOk(DoTakeNumber(s, job), r) {
      assert PlaceOk(s, r) && Refers(s, s.owner[r], r);
    }
  }

  lemma TakeNumberNoneLost(s: State, job: Job)
    requires Owned(s) && Placed(s) && Issued(s) && NoneLost(s) && Enabled(s, TakeNumber(job))
    ensures NoneLost(DoTakeNumber(s, job))
  {
    var t := DoTakeNumber(s, job);
    assert Refers(s, AtSpawned(job.batch), job.ring);
    assert PlaceOk(s, job.ring);
    forall b | 0 <= b < |t.retired| && t.retired[b].number == 0 ensures Unnumbered(t, b) {
      assert Unnumbered(s, b);
    }
    forall n | 0 <= NextNumber(t) - 1 <= n < |t.numbering| ensures Underway(t, n) {
      if n < |s.numbering| {
        assert Underway(s, n);
      }
    }
  }

  lemma TakeNumberIssued(s: State, job: Job)
    requires Issued(s) && Enabled(s, TakeNumber(job)) && Waiting(s, job.ring, job.batch)
    ensures Issued(DoTakeNumber(s, job))
  {
    var t := DoTakeNumber(s, job);
    forall n | 0 <= n < |t.numbering| ensures NumberOk(t, n) {
      assert n < |s.numbering| ==> NumberOk(s, n);
    }
    forall b | 0 <= b < |t.retired| ensures BatchOk(t, b) {
      assert BatchOk(s, b);
    }
  }

  lemma TakeNumberNumbers(s: State, job: Job)
    requires Owned(s) && Placed(s) && Numbers(s) && Enabled(s, TakeNumber(job))
    ensures Placed(DoTakeNumber(s, job)) && Numbers(DoTakeNumber(s, job))
  {
    assert Refers(s, AtSpawned(job.batch), job.ring);
    assert PlaceOk(s, job.ring);
    TakeNumberPlaced(s, job);
    TakeNumberNoneLost(s, job);
    TakeNumberIssued(s, job);
  }

  // ---------- the reader installs the ring whose turn has come ----------

  /** The picked ring is outstanding under its number. */
  lemma HeldNumber(s: State)
    requires Owned(s) && Placed(s) && Enabled(s, Compare)
    ensures var hand := s.reader.hand;
            && Outstanding(s, hand.number, hand.job.ring, hand.job.batch)
            && hand.job.ring in s.owner
            && s.owner[hand.job.ring] == AtReader(hand.number, hand.job.batch)
  {
    var hand := s.reader.hand;
    assert Refers(s, AtReader(hand.number, hand.job.batch), hand.job.ring);
    assert PlaceOk(s, hand.job.ring);
  }

  lemma InstallPlaced(s: State)
    requires Owned(s) && Placed(s) && Enabled(s, Compare)
    requires s.reader.hand.number == s.currentSequence
    ensures Placed(DoCompare(s))
  {
    var t := DoCompare(s);
    var r0 := s.reader.hand.job.ring;
    HeldNumber(s);
    forall r | r in t.owner ensures PlaceOk(t, r) {
      assert PlaceOk(s, r) && (r != r0 ==> Refers(s, s.owner[r], r));
    }
  }

  lemma InstallNumbers(s: State)
    requires Owned(s) && Placed(s) && Numbers(s) && Enabled(s, Compare)
    requires s.reader.hand.number == s.currentSequence
    ensures Placed(DoCompare(s)) && Numbers(DoCompare(s)) && Turns(DoCompare(s))
  {
    var t := DoCompare(s);
    HeldNumber(s);
    InstallPlaced(s);
    forall b | 0 <= b < |t.retired| && t.retired[b].number == 0 ensures Unnumbered(t, b) {
      assert Unnumbered(s, b);
    }
    forall n | 0 <= NextNumber(t) - 1 <= n < |t.numbering| ensures Underway(t, n) {
      assert Underway(s, n);
    }
    forall n | 0 <= n < |t.numbering| ensures NumberOk(t, n) { assert NumberOk(s, n); }
    forall b | 0 <= b < |t.retired| ensures BatchOk(t, b) { assert BatchOk(s, b); }
  }
}
