/** The order in which the pipeline delivers: by sequence number always, as written exactly when
    the nonempty rings were numbered in the order of the switches. */
module PipelineOrder {
  import opened RingIndex
  import opened Rings
  import opened Pipeline
  import opened PipelineInv
  import opened PipelineRuns
  import opened PipelineTheorems

  // ---------- concatenated batches ----------

  lemma {:induction false} FlattenPrefix(batches: seq<seq<Item>>, k: nat)
    requires k <= |batches|
    ensures Flatten(batches[..k]) <= Flatten(batches)
  {
    if k == |batches| {
      assert batches[..k] == batches;
    } else {
      var front := batches[..|batches| - 1];
      FlattenPrefix(front, k);
      assert front[..k] == batches[..k];
    }
  }

  /** Where batch i starts. */
  ghost function Start(batches: seq<seq<Item>>, i: nat): nat
    requires i <= |batches|
  {
    |Flatten(batches[..i])|
  }

  lemma FlattenAt(batches: seq<seq<Item>>, i: nat, k: nat)
    requires i < k <= |batches| && batches[i] != []
    ensures Start(batches, i) < Start(batches, k) <= |Flatten(batches)|
    ensures Flatten(batches)[Start(batches, i)] == batches[i][0]
  {
    var upTo := batches[..i + 1];
    assert upTo[..i] == batches[..i];
    FlattenPrefix(batches, i + 1);
    FlattenPrefix(batches, k);
    FlattenPrefix(batches[..k], i + 1);
    assert batches[..k][..i + 1] == upTo;
  }

  /** Empty batches do not move the start of what follows. */
  lemma {:induction false} SameStart(batches: seq<seq<Item>>, i: nat, k: nat)
    requires i <= k <= |batches|
    requires forall b :: i <= b < k ==> batches[b] == []
    ensures Flatten(batches[..k]) == Flatten(batches[..i])
  {
    if i < k {
      SameStart(batches, i, k - 1);
      assert batches[..k][..k - 1] == batches[..k - 1];
    }
  }

  // ---------- order ----------

  predicate Full(s: State, b: nat) {
    b < |s.retired| && s.retired[b].items != []
  }

  /** Batch b is among the first k numbered. */
  predicate NumberedWithin(s: State, b: nat, k: nat) {
    b < |s.retired| && 1 <= s.retired[b].number <= k
  }

  /** The n-th number went to an empty ring, or every nonempty ring retired before had one. */
  ghost predicate InTurn(s: State, n: nat)
    requires n < |s.numbering|
  {
    var b := s.numbering[n].batch;
    Full(s, b) ==> forall c: nat :: c < b && Full(s, c) ==> NumberedWithin(s, c, n)
  }

  /** The nonempty rings among the first k numbered are the nonempty rings retired first, in order. */
  ghost predicate FullInOrder(s: State, k: nat) {
    k <= |s.numbering| && forall n :: 0 <= n < k ==> InTurn(s, n)
  }

  /** The first k numbers went to the first k switches, in order. */
  predicate InSwitchOrder(s: State, k: nat) {
    k <= |s.numbering| && forall n :: 0 <= n < k ==> s.numbering[n].batch == n
  }

  lemma SwitchOrderSuffices(s: State, k: nat)
    requires Issued(s) && InSwitchOrder(s, k)
    ensures FullInOrder(s, k)
  {
    forall n | 0 <= n < k ensures InTurn(s, n) {
      forall c: nat | c < n ensures NumberedWithin(s, c, n) {
        assert NumberOk(s, c) && s.numbering[c].batch == c;
      }
    }
  }

  /** The first k numbered batches in number order amount to the first m retired ones. */
  ghost predicate Amounts(s: State, k: nat, m: nat)
    requires Issued(s) && k <= |s.numbering|
  {
    && m <= |s.retired|
    && Flatten(ByNumber(s, k)) == Flatten(Batches(s.retired)[..m])
    && forall c: nat :: Full(s, c) ==> (c < m <==> NumberedWithin(s, c, k))
  }

  /** One number more settles its own batch and no other. */
  lemma OneMoreNumber(s: State, k: nat, c: nat)
    requires Issued(s) && k < |s.numbering| && c < |s.retired|
    ensures NumberedWithin(s, c, k + 1) <==> NumberedWithin(s, c, k) || c == s.numbering[k].batch
    ensures !NumberedWithin(s, s.numbering[k].batch, k)
  {
    assert BatchOk(s, c) && NumberOk(s, k);
  }

  /** A nonempty batch retired after one without a number has none either. */
  lemma NoneAfter(s: State, k: nat, b: nat, c: nat)
    requires Issued(s) && FullInOrder(s, k) && b < c && Full(s, b) && Full(s, c)
    ensures NumberedWithin(s, c, k) ==> NumberedWithin(s, b, k)
  {
    assert BatchOk(s, c);
    if NumberedWithin(s, c, k) {
      assert InTurn(s, s.retired[c].number - 1);
    }
  }

  /** The next numbered batch is nonempty, and all nonempty ones before it are among the first k. */
  lemma OneMoreFull(s: State, k: nat, m: nat)
    requires Issued(s) && k < |s.numbering| && Amounts(s, k, m) && InTurn(s, k) && FullInOrder(s, k)
    requires Full(s, s.numbering[k].batch)
    ensures Amounts(s, k + 1, s.numbering[k].batch + 1)
  {
    var b := s.numbering[k].batch;
    var all := Batches(s.retired);
    OneMoreNumber(s, k, b);
    forall c: nat | Full(s, c) ensures c < b + 1 <==> NumberedWithin(s, c, k + 1) {
      OneMoreNumber(s, k, c);
      if b < c {
        NoneAfter(s, k, b, c);
      }
    }
    assert m <= b;
    forall c: nat | m <= c < b ensures all[c] == [] {
      assert Full(s, c) ==> NumberedWithin(s, c, k);
    }
    SameStart(all, m, b);
    assert all[..b + 1][..b] == all[..b];
    ByNumberGrows(s, k + 1);
  }

  /** The next numbered batch is empty. */
  lemma OneMoreEmpty(s: State, k: nat, m: nat)
    requires Issued(s) && k < |s.numbering| && Amounts(s, k, m)
    requires !Full(s, s.numbering[k].batch)
    ensures Amounts(s, k + 1, m)
  {
    ByNumberGrows(s, k + 1);
    forall c: nat | Full(s, c) ensures c < m <==> NumberedWithin(s, c, k + 1) {
      OneMoreNumber(s, k, c);
    }
  }

  lemma {:induction false} OrderAmounts(s: State, k: nat) returns (m: nat)
    requires Issued(s) && FullInOrder(s, k)
    ensures Amounts(s, k, m)
  {
    if k == 0 {
      m := 0;
      assert ByNumber(s, 0) == [] == Batches(s.retired)[..0];
    } else {
      var before := OrderAmounts(s, k - 1);
      assert InTurn(s, k - 1);
      if Full(s, s.numbering[k - 1].batch) {
        OneMoreFull(s, k - 1, before);
        m := s.numbering[k - 1].batch + 1;
      } else {
        OneMoreEmpty(s, k - 1, before);
        m := before;
      }
    }
  }

  /** How many rings the reader has finished, or taken a message from. */
  ghost function Opened(s: State): nat
    requires Issued(s) && CurrentKnown(s)
  {
    NextNumber(s) - if s.current.Some? && s.consumed == 0 then 2 else 1
  }

  /** The delivered stream stays within the opened batches, in number order. */
  lemma DeliveredWithin(s: State)
    requires Issued(s) && Streams(s)
    ensures Opened(s) <= |s.numbering|
    ensures s.delivered <= Flatten(ByNumber(s, Opened(s)))
  {
    var k := NextNumber(s) - 1;
    if s.current.Some? && s.consumed == 0 {
      ByNumberGrows(s, k);
      assert Remaining(s) == s.retired[s.numbering[k - 1].batch].items;
      assert s.delivered == Flatten(ByNumber(s, k - 1)) by {
        SameSuffix(s.delivered, Flatten(ByNumber(s, k - 1)), Remaining(s));
      }
    }
  }

  lemma SameSuffix(a: seq<Item>, b: seq<Item>, suffix: seq<Item>)
    requires a + suffix == b + suffix
    ensures a == b
  {
    assert |a| == |b|;
    assert (a + suffix)[..|a|] == a && (b + suffix)[..|b|] == b;
  }

  /** In order, the delivered stream is a prefix of the written one. */
  lemma OrderSuffices(s: State)
    requires Issued(s) && Streams(s) && FullInOrder(s, Opened(s))
    ensures s.delivered <= s.written
  {
    DeliveredWithin(s);
    var m := OrderAmounts(s, Opened(s));
    FlattenPrefix(Batches(s.retired), m);
  }

  /** In every run the delivered stream is a prefix of the batches concatenated by sequence
      number, each in the order written; when the numbers were taken in switch order it is a
      prefix of what was written. */
  lemma DeliveredInOrder(capacity: nat, threads: set<nat>, steps: seq<Step>)
    requires capacity < TWO31
    ensures var s := Run(Init(capacity, threads), steps);
            s.mode != ClosedState ==>
              && Issued(s)
              && s.written == Flatten(Batches(s.retired)) + s.filling
              && s.delivered <= Flatten(ByNumber(s, |s.numbering|))
              && (InSwitchOrder(s, |s.numbering|) ==> s.delivered <= s.written)
  {
    Reached(capacity, threads, steps);
    var s := Run(Init(capacity, threads), steps);
    if s.mode != ClosedState {
      DeliveredWithin(s);
      var k := Opened(s);
      assert ByNumber(s, |s.numbering|)[..k] == ByNumber(s, k);
      FlattenPrefix(ByNumber(s, |s.numbering|), k);
      if InSwitchOrder(s, |s.numbering|) {
        SwitchOrderSuffices(s, k);
        OrderSuffices(s);
      }
    }
  }

  // ---------- the order is necessary ----------

  ghost predicate Distinct(items: seq<Item>) {
    forall i, j :: 0 <= i < j < |items| ==> items[i] != items[j]
  }

  /** All batches but the last one taken are delivered whole. */
  lemma DeliveredLength(s: State)
    requires Issued(s) && Streams(s) && NextNumber(s) >= 2
    ensures NumberOk(s, NextNumber(s) - 2)
    ensures s.delivered <= Flatten(ByNumber(s, NextNumber(s) - 1))
    ensures |s.delivered| + |Remaining(s)|
            == |Flatten(ByNumber(s, NextNumber(s) - 2))|
               + |s.retired[s.numbering[NextNumber(s) - 2].batch].items|
    ensures s.current.Some? ==>
              |Remaining(s)| == |s.retired[s.numbering[NextNumber(s) - 2].batch].items| - s.consumed
  {
    ByNumberGrows(s, NextNumber(s) - 1);
    assert |s.delivered + Remaining(s)| == |s.delivered| + |Remaining(s)|;
  }

  lemma OpenedIsReached(s: State, n: nat)
    requires Issued(s) && Streams(s) && n < Opened(s)
    requires n < |s.numbering| && Full(s, s.numbering[n].batch)
    ensures |Flatten(ByNumber(s, n))| < |s.delivered|
  {
    var k := NextNumber(s) - 1;
    DeliveredLength(s);
    if n < k - 1 {
      var upTo := ByNumber(s, k - 1);
      FlattenAt(upTo, n, k - 1);
      assert upTo[..n] == ByNumber(s, n) && upTo[..k - 1] == upTo;
    }
  }

  /** The first message of every opened nonempty batch has been delivered. */
  lemma FirstDelivered(s: State, n: nat)
    requires Issued(s) && Streams(s) && n < Opened(s)
    requires n < |s.numbering| && Full(s, s.numbering[n].batch)
    ensures var start := |Flatten(ByNumber(s, n))|;
            start < |s.delivered| && s.delivered[start] == s.retired[s.numbering[n].batch].items[0]
  {
    var all := ByNumber(s, NextNumber(s) - 1);
    OpenedIsReached(s, n);
    DeliveredLength(s);
    FlattenAt(all, n, |all|);
    assert all[..n] == ByNumber(s, n);
  }

  /** Two nonempty batches do not start at the same place. */
  lemma StartsApart(batches: seq<seq<Item>>, m: nat, c: nat, b: nat)
    requires m <= c < b <= |batches| && batches[c] != []
    ensures Start(batches, m) < Start(batches, b)
  {
    FlattenAt(batches, c, b);
    FlattenPrefix(batches[..c], m);
    assert batches[..c][..m] == batches[..m];
  }

  /** Distinct messages: the batch opened next starts where the batches in order end. */
  lemma OpensThere(s: State, n: nat, m: nat)
    requires Issued(s) && Streams(s) && Distinct(s.written) && s.delivered <= s.written
    requires n < Opened(s) && n < |s.numbering| && Full(s, s.numbering[n].batch)
    requires Amounts(s, n, m)
    ensures Start(Batches(s.retired), m) == Start(Batches(s.retired), s.numbering[n].batch)
  {
    var all, b := Batches(s.retired), s.numbering[n].batch;
    FirstDelivered(s, n);
    FlattenAt(all, b, |all|);
    assert all[..|all|] == all;
    assert s.written[Start(all, m)] == s.delivered[Start(all, m)] == s.written[Start(all, b)];
  }

  /** After n numbers in order, the next opened batch, if nonempty, is the next nonempty one. */
  lemma NextInTurn(s: State, n: nat)
    requires Issued(s) && Streams(s) && Distinct(s.written)
    requires s.delivered <= s.written && n < Opened(s) && FullInOrder(s, n)
    ensures n < |s.numbering| && InTurn(s, n)
  {
    DeliveredWithin(s);
    var b := s.numbering[n].batch;
    if Full(s, b) {
      var m := OrderAmounts(s, n);
      OpensThere(s, n, m);
      forall c: nat | c < b && Full(s, c) ensures NumberedWithin(s, c, n) {
        if m <= c {
          StartsApart(Batches(s.retired), m, c, b);
        }
      }
    }
  }

  lemma {:induction false} PrefixForcesOrder(s: State, k: nat)
    requires Issued(s) && Streams(s) && Distinct(s.written)
    requires s.delivered <= s.written && k <= Opened(s)
    ensures FullInOrder(s, k)
  {
    if k > 0 {
      PrefixForcesOrder(s, k - 1);
      NextInTurn(s, k - 1);
    }
  }

  /** Exactly when: for distinct messages, the delivered stream is a prefix of the written one if
      and only if each nonempty ring opened so far was numbered after every nonempty ring retired
      before it.  Empty rings may be numbered at any time. */
  lemma {:induction false} InOrderIff(capacity: nat, threads: set<nat>, steps: seq<Step>)
    requires capacity < TWO31
    ensures var s := Run(Init(capacity, threads), steps);
            s.mode != ClosedState && Distinct(s.written) ==>
              && Issued(s) && CurrentKnown(s)
              && (s.delivered <= s.written <==> FullInOrder(s, Opened(s)))
  {
    Reached(capacity, threads, steps);
    var s := Run(Init(capacity, threads), steps);
    if s.mode != ClosedState && Distinct(s.written) {
      if s.delivered <= s.written {
        PrefixForcesOrder(s, Opened(s));
      }
      if FullInOrder(s, Opened(s)) {
        OrderSuffices(s);
      }
    }
  }
}
