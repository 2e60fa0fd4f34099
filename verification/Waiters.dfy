/** Waiting readers and their wake-up channels (waiters.go), without WaiterManager.Close, which the
    double buffer never calls. */
module Waiters {

  const MAX_WAITERS_PER_BATCH := 64
  const MAX_TOTAL_WAITERS := 1024

  /** A channel of capacity one. */
  class Chan {
    var full: bool

    constructor ()
      ensures !full
    {
      full := false;
    }

    /** A non-blocking send. */
    method Send() returns (sent: bool)
      modifies this
      ensures full && sent == !old(full)
    {
      sent := !full;
      full := true;
    }

    method Receive() returns (received: bool)
      modifies this
      ensures !full && received == old(full)
    {
      received := full;
      full := false;
    }
  }

  /** The variadic _min, whose comment says max. */
  method Min(values: seq<int>) returns (m: int)
    requires values != []
    ensures (exists j :: 0 <= j < |values| && m == values[j])
    ensures forall j :: 0 <= j < |values| ==> m <= values[j]
  {
    m := values[0];
    for i := 1 to |values|
      invariant m in values && forall j :: 0 <= j < i ==> m <= values[j]
    {
      if values[i] < m {
        m := values[i];
      }
    }
  }

  function Least(a: int, b: int): int {
    if a <= b then a else b
  }

  /** How many of `waiting` readers n new messages wake. */
  function WakeUps(n: int, waiting: nat): nat {
    Least(Least(64, if n < 0 then 0 else n), waiting)
  }

  predicate Distinct<T(==)>(s: seq<T>) {
    forall i, j :: 0 <= i < j < |s| ==> s[i] != s[j]
  }

  function Elements<T>(s: seq<T>): set<T> {
    set x | x in s
  }

  lemma ElementsSnoc<T>(s: seq<T>, x: T)
    ensures Elements(s + [x]) == Elements(s) + {x}
  {
  }

  lemma {:induction false} DistinctCount<T>(s: seq<T>)
    requires Distinct(s)
    ensures |Elements(s)| == |s|
  {
    if s != [] {
      var front := s[..|s| - 1];
      DistinctCount(front);
      ElementsSnoc(front, s[|s| - 1]);
      assert s == front + [s[|s| - 1]];
      assert s[|s| - 1] !in Elements(front);
    } else {
      assert Elements(s) == {};
    }
  }

  lemma ElementsConcat<T>(s: seq<T>, t: seq<T>)
    ensures Elements(s + t) == Elements(s) + Elements(t)
  {
  }

  lemma UnionAssociates<T>(a: set<T>, b: set<T>, c: set<T>)
    ensures a + b + c == a + (b + c)
  {
  }

  lemma RemovedTwice<K, V>(m: map<K, V>, a: set<K>, b: set<K>)
    ensures (m - a) - b == m - (a + b)
  {
  }

  /** The count when everybody asked for, or everybody there is, has been removed. */
  lemma RemovedEnough<K, V>(m: map<K, V>, removed: set<K>, asked: nat)
    requires removed <= m.Keys && |removed| <= asked
    requires |removed| == asked || (m - removed).Keys == {}
    ensures |removed| == Least(asked, |m|)
  {
    assert |m| == |m.Keys|;
    assert |m.Keys - removed| == |m.Keys| - |removed|;
    assert (m - removed).Keys == m.Keys - removed;
  }

  /** The range loop over the map: whatever its order, it collects as many entries as asked for,
      or all. */
  method TakeBatch(ws: map<nat, Chan>, batchSize: int) returns (ids: seq<nat>, batch: seq<Chan>)
    requires batchSize > 0
    ensures Distinct(ids) && Elements(ids) <= ws.Keys
    ensures |ids| == |batch| <= batchSize && (|ids| == batchSize || Elements(ids) == ws.Keys)
    ensures forall i :: 0 <= i < |ids| ==> ids[i] in ws && batch[i] == ws[ids[i]]
  {
    ids, batch := [], [];
    var rest := ws.Keys;
    while rest != {} && |batch| < batchSize
      invariant forall i :: i in rest <==> i in ws && i !in ids
      invariant Distinct(ids)
      invariant |ids| == |batch| <= batchSize
      invariant forall i :: 0 <= i < |ids| ==> ids[i] in ws && batch[i] == ws[ids[i]]
      decreases rest
    {
      var id: nat :| id in rest;
      rest := rest - {id};
      batch := batch + [ws[id]];
      ids := ids + [id];
    }
    assert rest == ws.Keys - Elements(ids);
  }

  /** Which of the channels hold a token. */
  ghost function Full(chans: set<Chan>): set<Chan>
    reads chans
  {
    set c | c in chans && c.full
  }

  /** Sends to each channel of a batch; a channel that is full takes nothing. */
  method SendAll(batch: seq<Chan>, ghost chans: set<Chan>) returns (sent: nat)
    requires Elements(batch) <= chans
    modifies Elements(batch)
    ensures Full(chans) == old(Full(chans)) + Elements(batch)
    ensures sent <= |batch|
    ensures Distinct(batch) && old(Full(chans)) !! Elements(batch) ==> sent == |batch|
  {
    sent := 0;
    for i := 0 to |batch|
      invariant sent <= i
      invariant Full(chans) == old(Full(chans)) + Elements(batch[..i])
      invariant Distinct(batch) && old(Full(chans)) !! Elements(batch) ==> sent == i
    {
      assert batch[..i + 1] == batch[..i] + [batch[i]];
      ElementsSnoc(batch[..i], batch[i]);
      assert batch[i] in Elements(batch);
      ghost var before := Full(chans);
      var ok := batch[i].Send();
      assert Full(chans) == before + {batch[i]};
      if ok {
        sent := sent + 1;
      }
    }
    assert batch[..|batch|] == batch;
  }

  /** The channels of some waiters. */
  ghost function Channels(ws: map<nat, Chan>, ids: set<nat>): set<Chan>
    requires ids <= ws.Keys
  {
    set i | i in ids :: ws[i]
  }

  lemma ChannelsOfBoth(ws: map<nat, Chan>, a: set<nat>, b: set<nat>)
    requires a <= ws.Keys && b <= (ws - a).Keys
    ensures Channels(ws, a + b) == Channels(ws, a) + Channels(ws - a, b)
  {
  }

  /** One more batch to delete. */
  lemma Grown(all: map<nat, Chan>, shouldDelete: seq<nat>, ids: seq<nat>)
    requires Elements(shouldDelete) <= all.Keys && Distinct(ids)
    requires Elements(ids) <= (all - Elements(shouldDelete)).Keys
    ensures Elements(shouldDelete + ids) == Elements(shouldDelete) + Elements(ids) <= all.Keys
    ensures |Elements(shouldDelete + ids)| == |Elements(shouldDelete)| + |ids|
    ensures all - Elements(shouldDelete) - Elements(ids) == all - Elements(shouldDelete + ids)
    ensures Channels(all, Elements(shouldDelete + ids))
            == Channels(all, Elements(shouldDelete)) + Channels(all - Elements(shouldDelete), Elements(ids))
  {
    ElementsConcat(shouldDelete, ids);
    DistinctCount(ids);
    ChannelsOfBoth(all, Elements(shouldDelete), Elements(ids));
    RemovedTwice(all, Elements(shouldDelete), Elements(ids));
  }

  predicate Injective(ws: map<nat, Chan>) {
    forall i, j :: i in ws && j in ws && i != j ==> ws[i] != ws[j]
  }

  /** Every registration there has been has a number up to the last, and a notified one is over. */
  predicate Numbered(notified: set<nat>, waiting: set<nat>, currentID: nat) {
    && (forall i :: i in waiting ==> i !in notified && 1 <= i <= currentID)
    && (forall i :: i in notified ==> 1 <= i <= currentID)
  }

  lemma NumberedAfter(notified: set<nat>, ws: map<nat, Chan>, currentID: nat, woken: set<nat>)
    requires Numbered(notified, ws.Keys, currentID) && woken <= ws.Keys
    ensures Numbered(notified + woken, (ws - woken).Keys, currentID)
  {
  }

  class WaiterManager {
    var ws: map<nat, Chan>
    var pool: set<Chan>
    var currentID: nat
    var closed: bool
    ghost var notified: set<nat>        // the registrations that were sent a token

    /** Registered and pooled channels are different and empty, and no waiting registration has been
        sent a token. */
    ghost predicate Valid()
      reads this, ws.Values, pool
    {
      && !closed && Injective(ws) && ws.Values !! pool && Full(ws.Values + pool) == {}
      && Numbered(notified, ws.Keys, currentID)
    }

    constructor ()
      ensures Valid() && ws == map[] && pool == {} && currentID == 0
    {
      ws, pool, currentID, closed, notified := map[], {}, 0, false, {};
    }

    /** sync.Pool: some pooled channel, or a new one. */
    method PoolGet() returns (c: Chan)
      modifies this`pool
      ensures c in old(pool) || (fresh(c) && !c.full)
      ensures pool == old(pool) - {c}
    {
      var hit: bool := *;
      if hit && pool != {} {
        c :| c in pool;
        pool := pool - {c};
      } else {
        c := new Chan();
      }
    }

    /** The garbage collector may empty the pool at any time. */
    method PoolDrop(c: Chan)
      requires Valid()
      modifies this`pool
      ensures Valid() && pool == old(pool) - {c}
    {
      pool := pool - {c};
    }

    /** A number never used before, and an empty channel that nobody else has. */
    method Register() returns (id: nat, ch: Chan)
      requires Valid()
      modifies this
      ensures Valid() && !ch.full
      ensures id == old(currentID) + 1 == currentID && notified == old(notified)
      ensures ws == old(ws)[id := ch] && (ch in old(pool) || fresh(ch)) && pool == old(pool) - {ch}
    {
      ghost var chans := ws.Values + pool;
      id := currentID + 1;
      currentID := id;
      ch := PoolGet();
      ws := ws[id := ch];
      assert !ch.full by {
        assert ch in chans && ch.full ==> ch in Full(chans);
      }
      assert Full(ws.Values + pool) == {} by {
        assert Full(chans) == {} && ws.Values + pool <= chans + {ch};
        FullOfFewer(ws.Values + pool - {ch}, chans);
      }
    }

    /** A waiter that was notified, in time or not, is no longer registered, and its channel does
        not return to the pool. */
    method Unregister(id: nat)
      requires Valid()
      modifies this`ws, this`pool
      ensures Valid() && ws == old(ws) - {id}
      ensures pool == if id in old(ws) then old(pool) + {old(ws)[id]} else old(pool)
    {
      if id !in ws {
        return;
      }
      pool := pool + {ws[id]};
      ws := ws - {id};
    }

    /** The waiter takes its token. */
    method Receive(ch: Chan) returns (received: bool)
      requires Valid()
      modifies ch
      ensures Valid() && received == old(ch.full) && (received ==> ch !in ws.Values && ch !in pool)
    {
      assert ch in ws.Values + pool && ch.full ==> ch in Full(ws.Values + pool);
      received := ch.Receive();
    }

    method DeleteAll(ids: seq<nat>)
      modifies this`ws
      ensures ws == old(ws) - Elements(ids)
    {
      for k := 0 to |ids|
        invariant ws == old(ws) - Elements(ids[..k])
      {
        assert ids[..k + 1] == ids[..k] + [ids[k]];
        ElementsSnoc(ids[..k], ids[k]);
        ws := ws - {ids[k]};
      }
      assert ids[..|ids|] == ids;
    }

    /** Lines 90-111: some waiters get a token, if their channels take one, and are removed.  The
        list of those to delete grows over the rounds. */
    method NotifyRound(batchSize: nat, shouldDelete: seq<nat>, ghost chans: set<Chan>)
      returns (ids: seq<nat>, sent: nat)
      requires ws.Keys != {} && batchSize > 0 && Elements(shouldDelete) !! ws.Keys
      requires ws.Values <= chans
      modifies this`ws, this`notified, ws.Values
      ensures Distinct(ids) && Elements(ids) <= old(ws).Keys && ws == old(ws) - Elements(ids)
      ensures ids != [] && sent <= |ids| <= batchSize && (|ids| == batchSize || ws.Keys == {})
      ensures Full(chans) == old(Full(chans)) + Channels(old(ws), Elements(ids))
      ensures Injective(old(ws)) && old(Full(chans)) !! old(ws).Values ==> sent == |ids|
      ensures unchanged(this`pool, this`currentID, this`closed) && notified == old(notified) + Elements(ids)
    {
      var batch;
      ids, batch := TakeBatch(ws, batchSize);
      notified := notified + Elements(ids);
      assert forall c :: c in batch ==> c in ws.Values;
      assert Elements(batch) == Channels(ws, Elements(ids));
      sent := SendAll(batch, chans);
      ElementsConcat(shouldDelete, ids);
      DeleteAll(shouldDelete + ids);
      assert ws == old(ws) - Elements(ids);
    }

    /** Lines 88-116.  Whatever the channels hold, the loop ends, for each round removes waiters, and
        no more is sent than asked for.  If the waiters' channels are empty and different, exactly
        as many are woken. */
    method NotifyLoop(totalToNotify: nat, ghost chans: set<Chan>) returns (sent: nat, ghost woken: set<nat>)
      requires ws.Keys != {} && 0 < totalToNotify <= MAX_TOTAL_WAITERS && ws.Values <= chans
      modifies this`ws, this`notified, ws.Values
      ensures sent <= totalToNotify
      ensures woken <= old(ws).Keys && ws == old(ws) - woken
      ensures Full(chans) == old(Full(chans)) + Channels(old(ws), woken)
      ensures Injective(old(ws)) && old(Full(chans)) !! old(ws).Values ==>
                sent == |woken| == Least(totalToNotify, |old(ws)|)
      ensures unchanged(this`pool, this`currentID, this`closed) && notified == old(notified) + woken
    {
      ghost var all, clean := ws, Injective(ws) && Full(chans) !! ws.Values;
      var shouldDelete: seq<nat> := [];
      var remaining: nat := totalToNotify;
      sent, woken := 0, {};
      while remaining > 0 && ws.Keys != {}
        invariant unchanged(this`pool, this`currentID, this`closed) && notified == old(notified) + woken
        invariant sent + remaining == totalToNotify
        invariant woken == Elements(shouldDelete) <= all.Keys && ws == all - woken
        invariant Full(chans) == old(Full(chans)) + Channels(all, woken)
        invariant clean ==> sent == |woken|
        invariant clean && woken != {} ==> remaining == 0 || ws.Keys == {}
        decreases ws.Keys
      {
        var limits := [MAX_TOTAL_WAITERS, remaining];
        var batchSize := Min(limits);
        assert batchSize == remaining by { assert batchSize <= limits[1]; }
        assert clean ==> ws == all && Full(chans) == old(Full(chans));
        ghost var before := ws;
        var ids, n := NotifyRound(batchSize, shouldDelete, chans);
        sent, remaining := sent + n, remaining - n;
        Grown(all, shouldDelete, ids);
        UnionAssociates(old(notified), woken, Elements(ids));
        UnionAssociates(old(Full(chans)), Channels(all, woken), Channels(before, Elements(ids)));
        shouldDelete := shouldDelete + ids;
        woken := Elements(shouldDelete);
      }
      if clean {
        RemovedEnough(all, woken, totalToNotify);
      }
    }

    /** Wakes as many waiters as asked for, or all there are, and leaves the others registered. */
    method Wake(totalToNotify: nat) returns (ghost woken: set<nat>)
      requires Valid() && ws.Keys != {} && 0 < totalToNotify <= MAX_TOTAL_WAITERS
      modifies this`ws, this`notified, ws.Values
      ensures Valid()
      ensures woken <= old(ws).Keys && ws == old(ws) - woken && |woken| == Least(totalToNotify, |old(ws)|)
      ensures Full(old(ws).Values) == Channels(old(ws), woken)
      ensures notified == old(notified) + woken && woken !! old(notified)
    {
      var sent;
      sent, woken := NotifyLoop(totalToNotify, ws.Values + pool);
      AfterWake(old(ws), woken, pool);
      NumberedAfter(old(notified), old(ws), currentID, woken);
    }

    /** Wakes exactly min(64, n) waiters, or all there are, and leaves the others registered. */
    method Notify(n: int) returns (ghost woken: set<nat>)
      requires Valid()
      modifies this`ws, this`notified, ws.Values
      ensures Valid()
      ensures woken <= old(ws).Keys && ws == old(ws) - woken && |woken| == WakeUps(n, |old(ws)|)
      ensures Full(old(ws).Values) == Channels(old(ws), woken)
      ensures notified == old(notified) + woken && woken !! old(notified)
    {
      woken := {};
      FullOfFewer(ws.Values, ws.Values + pool);
      if |ws| == 0 || closed {
        return;
      }
      var limits := [MAX_WAITERS_PER_BATCH, n, MAX_TOTAL_WAITERS];
      var totalToNotify := Min(limits);
      assert totalToNotify <= limits[0] && totalToNotify <= limits[1];
      if totalToNotify <= 0 {
        return;
      }
      assert Least(totalToNotify, |ws|) == WakeUps(n, |ws|);
      woken := Wake(totalToNotify);
    }
  }

  lemma FullOfFewer(some: set<Chan>, chans: set<Chan>)
    requires some <= chans
    ensures Full(some) == Full(chans) * some
  {
  }

  /** Whoever is not woken has another channel. */
  lemma WokenApart(ws: map<nat, Chan>, woken: set<nat>, pool: set<Chan>)
    requires woken <= ws.Keys && Injective(ws) && ws.Values !! pool
    ensures Channels(ws, woken) !! (ws - woken).Values + pool
    ensures Injective(ws - woken) && (ws - woken).Values <= ws.Values && Channels(ws, woken) <= ws.Values
  {
  }

  lemma AfterWake(ws: map<nat, Chan>, woken: set<nat>, pool: set<Chan>)
    requires woken <= ws.Keys && Injective(ws) && ws.Values !! pool
    requires Full(ws.Values + pool) == Channels(ws, woken)
    ensures Injective(ws - woken) && (ws - woken).Values !! pool
    ensures Full((ws - woken).Values + pool) == {} && Full(ws.Values) == Channels(ws, woken)
  {
    WokenApart(ws, woken, pool);
    FullOfFewer((ws - woken).Values + pool, ws.Values + pool);
    FullOfFewer(ws.Values, ws.Values + pool);
  }
}
