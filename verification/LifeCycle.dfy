/** The pools that keep medium and large payloads alive (life_cycle.go).  Addresses are numbers and
    times are nanoseconds; the clock is read once per call. */
module LifeCycle {

  const SECOND := 1_000_000_000
  const MINUTE := 60 * SECOND
  const MEDIUM_POOL_TTL := 2 * MINUTE
  const MAX_CLEAN_COUNTS := 200

  datatype BigDataEntry = BigDataEntry(size: nat, owner: nat, ref: int)

  function Least(a: nat, b: nat): nat {
    if a <= b then a else b
  }

  // ---------- sums over maps ----------

  ghost function Total(pool: map<nat, BigDataEntry>): nat {
    if pool == map[] then 0
    else
      var p :| p in pool;
      pool[p].size + Total(pool - {p})
  }

  /** Entries may be summed in any order. */
  lemma {:induction false} TotalWithout(pool: map<nat, BigDataEntry>, q: nat)
    requires q in pool
    ensures Total(pool) == pool[q].size + Total(pool - {q})
    decreases |pool|
  {
    var p :| p in pool && Total(pool) == pool[p].size + Total(pool - {p});
    if p != q {
      assert (pool - {p}).Keys < pool.Keys && |pool - {p}| == |(pool - {p}).Keys|;
      TotalWithout(pool - {p}, q);
      assert (pool - {q}).Keys < pool.Keys && |pool - {q}| == |(pool - {q}).Keys|;
      TotalWithout(pool - {q}, p);
      assert pool - {p} - {q} == pool - {q} - {p};
    }
  }

  lemma TotalWith(pool: map<nat, BigDataEntry>, q: nat, e: BigDataEntry)
    ensures Total(pool[q := e]) == e.size + Total(pool - {q})
  {
    TotalWithout(pool[q := e], q);
    assert pool[q := e] - {q} == pool - {q};
  }

  lemma TotalAbsent(pool: map<nat, BigDataEntry>, q: nat)
    requires q !in pool
    ensures pool - {q} == pool
  {
  }

  // ---------- bounded sweeps ----------

  /** Addresses found so far in a sweep over a map, of those it is after. */
  ghost predicate Sweeping(wanted: set<nat>, rest: set<nat>, removed: set<nat>, count: nat) {
    && removed <= wanted && removed !! rest && wanted <= removed + rest
    && |removed| == count
  }

  lemma Swept(wanted: set<nat>, rest: set<nat>, removed: set<nat>, count: nat)
    requires Sweeping(wanted, rest, removed, count) && count <= MAX_CLEAN_COUNTS + 1
    requires rest == {} || count == MAX_CLEAN_COUNTS + 1
    ensures |removed| == Least(MAX_CLEAN_COUNTS + 1, |wanted|)
  {
    if rest == {} {
      assert removed == wanted;
    } else {
      assert |wanted - removed| == |wanted| - |removed|;
    }
  }

  lemma SweepsOn(wanted: set<nat>, rest: set<nat>, removed: set<nat>, count: nat, p: nat)
    requires Sweeping(wanted, rest, removed, count) && p in rest
    ensures p !in wanted ==> Sweeping(wanted, rest - {p}, removed, count)
    ensures p in wanted ==> Sweeping(wanted, rest - {p}, removed + {p}, count + 1)
  {
  }

  lemma RemovedToo<V>(m: map<nat, V>, removed: set<nat>, p: nat)
    ensures m - removed - {p} == m - (removed + {p})
  {
  }

  // ---------- large payloads ----------

  ghost function Unreferenced(pool: map<nat, BigDataEntry>): set<nat> {
    set p | p in pool && pool[p].ref == 0
  }

  class BigDataPool {
    var pool: map<nat, BigDataEntry>
    var currentSize: int
    const maxSize: int
    ghost var lost: nat     // sizes of the entries that cleanup removed or a repeated Put replaced

    /** The size counter also counts what was lost. */
    ghost predicate Valid()
      reads this
    {
      currentSize == Total(pool) + lost
    }

    constructor (maxSize: int)
      ensures Valid() && pool == map[] && currentSize == 0 && lost == 0
    {
      pool, currentSize, this.maxSize, lost := map[], 0, maxSize, 0;
    }

    method Put(ptr: nat, size: nat)
      modifies this`pool, this`currentSize, this`lost
      ensures pool == old(pool)[ptr := BigDataEntry(size, ptr, 1)]
      ensures lost == old(lost) + if ptr in old(pool) then old(pool)[ptr].size else 0
      ensures currentSize == old(currentSize) + size
      ensures old(Valid()) ==> Valid() && currentSize >= 0
    {
      TotalWith(pool, ptr, BigDataEntry(size, ptr, 1));
      if ptr in pool {
        TotalWithout(pool, ptr);
        lost := lost + pool[ptr].size;
      } else {
        TotalAbsent(pool, ptr);
      }
      currentSize := currentSize + size;
      pool := pool[ptr := BigDataEntry(size, ptr, 1)];
    }

    method Release(ptr: nat)
      modifies this`pool
      ensures pool == if ptr in old(pool) then old(pool)[ptr := old(pool)[ptr].(ref := old(pool)[ptr].ref - 1)]
                      else old(pool)
      ensures old(Valid()) ==> Valid() && currentSize >= 0
    {
      if ptr !in pool {
        return;
      }
      var entry := pool[ptr];
      TotalWithout(pool, ptr);
      TotalWith(pool, ptr, entry.(ref := entry.ref - 1));
      pool := pool[ptr := entry.(ref := entry.ref - 1)];
    }

    /** The books stay balanced if and only if the caller gives the size that was recorded. */
    method Free(ptr: nat, size: int)
      modifies this`pool, this`currentSize
      ensures pool == old(pool) - {ptr}
      ensures currentSize == old(currentSize) - if ptr in old(pool) then size else 0
      ensures old(Valid()) ==> (Valid() <==> (ptr in old(pool) ==> size == old(pool)[ptr].size))
      ensures Valid() ==> currentSize >= 0
    {
      if ptr in pool {
        TotalWithout(pool, ptr);
        currentSize := currentSize - size;
        pool := pool - {ptr};
      } else {
        TotalAbsent(pool, ptr);
      }
    }

    /** Line 159. */
    method Drop(ptr: nat)
      requires ptr in pool
      modifies this`pool, this`lost
      ensures pool == old(pool) - {ptr} && lost + Total(pool) == old(lost) + Total(old(pool))
    {
      TotalWithout(pool, ptr);
      lost := lost + pool[ptr].size;
      pool := pool - {ptr};
    }

    /** Removes unreferenced entries only, at most 201 of them and all if there are no more. */
    method Cleanup() returns (ghost removed: set<nat>)
      modifies this`pool, this`lost
      ensures removed <= Unreferenced(old(pool)) && pool == old(pool) - removed
      ensures |removed| == Least(201, |Unreferenced(old(pool))|)
      ensures lost + Total(pool) == old(lost) + Total(old(pool))
      ensures old(Valid()) ==> Valid() && currentSize >= 0
    {
      ghost var wanted := Unreferenced(pool);
      removed := {};
      if |pool| == 0 {
        Swept(wanted, {}, {}, 0);
        return;
      }
      var count: nat := 0;
      var rest := pool.Keys;
      while rest != {} && count <= MAX_CLEAN_COUNTS
        invariant rest <= pool.Keys
        invariant Sweeping(wanted, rest, removed, count) && count <= MAX_CLEAN_COUNTS + 1
        invariant pool == old(pool) - removed
        invariant lost + Total(pool) == old(lost) + Total(old(pool))
        decreases rest
      {
        var ptr: nat :| ptr in rest;
        SweepsOn(wanted, rest, removed, count, ptr);
        rest := rest - {ptr};
        if pool[ptr].ref != 0 {
          continue;
        }
        Drop(ptr);
        RemovedToo(old(pool), removed, ptr);
        removed := removed + {ptr};
        count := count + 1;
      }
      Swept(wanted, rest, removed, count);
    }
  }

  // ---------- medium payloads ----------

  ghost function Older(cache: map<nat, int>, now: int, age: int): set<nat> {
    set p | p in cache && now - cache[p] > age
  }

  /** What one cleanup may remove: entries older than a minute, as many as its limit allows. */
  ghost predicate CleanedBy(cache: map<nat, int>, now: int, removed: set<nat>) {
    && removed <= Older(cache, now, 60 * SECOND)
    && |removed| == Least(201, |Older(cache, now, 60 * SECOND)|)
  }

  /** Valid at a time is cached, and younger than two minutes. */
  predicate ValidAt(cache: map<nat, int>, now: int, p: nat) {
    p in cache && now - cache[p] < 120 * SECOND
  }

  lemma {:induction false} SubsetWith(a: set<nat>, k: nat, p: nat) returns (b: set<nat>)
    requires p in a && 1 <= k <= |a|
    ensures b <= a && |b| == k && p in b
  {
    if k == 1 {
      b := {p};
    } else {
      assert |a - {p}| == |a| - 1;
      var q :| q in a - {p};
      var rest := SubsetWith(a - {q}, k - 1, p);
      b := rest + {q};
    }
  }

  /** A valid entry stays valid through a cleanup, whatever the iteration order, if and only if it
      is at most a minute old; the second minute of its validity is not guaranteed. */
  lemma {:induction false} StaysValidIff(cache: map<nat, int>, now: int, p: nat)
    requires ValidAt(cache, now, p)
    ensures (forall removed :: CleanedBy(cache, now, removed) ==> ValidAt(cache - removed, now, p))
            <==> now - cache[p] <= 60 * SECOND
  {
    if now - cache[p] > MINUTE {
      var older := Older(cache, now, MINUTE);
      assert older != {} && |older| >= 1;
      var removed := SubsetWith(older, Least(MAX_CLEAN_COUNTS + 1, |older|), p);
      assert CleanedBy(cache, now, removed);
    }
  }

  class MediumPool {
    var cache: map<nat, int>

    constructor ()
      ensures cache == map[]
    {
      cache := map[];
    }

    method Put(ptr: nat, t: int)
      modifies this`cache
      ensures cache == old(cache)[ptr := t]
    {
      cache := cache[ptr := t];
    }

    method IsValid(ptr: nat, now: int) returns (valid: bool)
      ensures valid <==> ValidAt(cache, now, ptr)
    {
      if ptr !in cache {
        return false;
      }
      valid := now - cache[ptr] < MEDIUM_POOL_TTL;
    }

    method Release(ptr: nat)
      modifies this`cache
      ensures cache == old(cache) - {ptr}
    {
      cache := cache - {ptr};
    }

    /** Removes entries older than a minute only, although an entry is valid for two; at most 201 of
        them and all if there are no more. */
    method Cleanup(now: int) returns (ghost removed: set<nat>)
      modifies this`cache
      ensures CleanedBy(old(cache), now, removed) && cache == old(cache) - removed
    {
      ghost var wanted := Older(cache, now, MINUTE);
      removed := {};
      if |cache| == 0 {
        Swept(wanted, {}, {}, 0);
        return;
      }
      var count: nat := 0;
      var rest := cache.Keys;
      while rest != {} && count <= MAX_CLEAN_COUNTS
        invariant rest <= cache.Keys
        invariant Sweeping(wanted, rest, removed, count) && count <= MAX_CLEAN_COUNTS + 1
        invariant cache == old(cache) - removed
        decreases rest
      {
        var ptr: nat :| ptr in rest;
        SweepsOn(wanted, rest, removed, count, ptr);
        rest := rest - {ptr};
        if now - cache[ptr] > MINUTE {
          RemovedToo(old(cache), removed, ptr);
          cache := cache - {ptr};
          removed := removed + {ptr};
          count := count + 1;
        }
      }
      Swept(wanted, rest, removed, count);
    }
  }
}
