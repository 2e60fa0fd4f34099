/** Every step of the pipeline keeps what was written and what was delivered tied to the batches. */
module PipelineStreams {
  import opened Rings
  import opened Pipeline
  import opened PipelineInv
  import opened PipelineContents

  lemma StreamsFrame(s: State, t: State)
    requires Issued(s) && Streams(s) && Issued(t) && SameHistory(s, t)
    requires t.written == s.written && t.delivered == s.delivered && t.current == s.current
    ensures Streams(t)
  {
  }

  lemma WriteStreams(s: State, item: Item)
    requires Issued(s) && Streams(s) && Enabled(s, Write(item)) && Issued(DoWrite(s, item))
    ensures Streams(DoWrite(s, item))
  {
    var t := DoWrite(s, item);
    assert Batches(t.retired) == Batches(s.retired);
    assert ByNumber(t, NextNumber(t) - 1) == ByNumber(s, NextNumber(s) - 1);
    assert Flatten(Batches(s.retired)) + (s.filling + [item])
           == Flatten(Batches(s.retired)) + s.filling + [item];
  }

  lemma SwapStreams(s: State, x: nat)
    requires Issued(s) && Streams(s) && Enabled(s, Swap(x)) && Issued(DoSwap(s, x))
    ensures Streams(DoSwap(s, x))
  {
    var t := DoSwap(s, x);
    assert Batches(t.retired) == Batches(s.retired) + [s.filling];
    assert (Batches(s.retired) + [s.filling])[..|s.retired|] == Batches(s.retired);
    assert ByNumber(t, NextNumber(t) - 1) == ByNumber(s, NextNumber(s) - 1);
    if s.current.Some? {
      assert CurrentBatch(t) == CurrentBatch(s);
    }
  }

  lemma TakeNumberStreams(s: State, job: Job)
    requires Issued(s) && Streams(s) && Enabled(s, TakeNumber(job)) && Issued(DoTakeNumber(s, job))
    ensures Streams(DoTakeNumber(s, job))
  {
    var t := DoTakeNumber(s, job);
    assert Batches(t.retired) == Batches(s.retired);
    assert ByNumber(t, NextNumber(t) - 1) == ByNumber(s, NextNumber(s) - 1);
  }

  lemma InstallStreams(s: State)
    requires Issued(s) && Streams(s) && Turns(s) && Enabled(s, Compare) && Issued(DoCompare(s))
    requires s.reader.hand.number == s.currentSequence <= |s.numbering|
    requires s.numbering[s.currentSequence - 1] == s.reader.hand.job
    ensures Streams(DoCompare(s))
  {
    var t := DoCompare(s);
    var k := NextNumber(s) - 1;
    assert NumberOk(s, k);
    var batch := s.retired[s.reader.hand.job.batch].items;
    assert ByNumber(t, k + 1) == ByNumber(s, k) + [batch];
    assert (ByNumber(s, k) + [batch])[..k] == ByNumber(s, k);
    assert Remaining(t) == batch;
    assert s.delivered + [] == s.delivered;
  }

  lemma RecycleStreams(s: State)
    requires Issued(s) && Streams(s) && Enabled(s, BeginRead) && Issued(DoBeginRead(s))
    requires s.current.Some? && s.rings[s.current.value].count == 0
    requires s.consumed == |s.retired[CurrentBatch(s)].items|
    ensures Streams(DoBeginRead(s))
  {
  }

  lemma OneMore(delivered: seq<Item>, items: seq<Item>, k: nat)
    requires k < |items|
    ensures delivered + [items[k]] + items[k + 1..] == delivered + items[k..]
  {
  }

  lemma ReadItemStreams(s: State)
    requires Owned(s) && Contents(s) && Issued(s) && Streams(s)
    requires Enabled(s, ReadItem) && Issued(DoReadItem(s))
    ensures Streams(DoReadItem(s))
  {
    var t := DoReadItem(s);
    var items := s.retired[CurrentBatch(s)].items;
    ReadItemRing(s);
    assert Batches(t.retired) == Batches(s.retired);
    assert ByNumber(t, NextNumber(t) - 1) == ByNumber(s, NextNumber(s) - 1);
    if s.consumed < |items| {
      OneMore(s.delivered, items, s.consumed);
    }
  }
}
