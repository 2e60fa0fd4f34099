/** The small payloads over whole runs: for which callers the store with its shared arrays is an
    ideal one, in which every message and every chunk has its bytes to itself, however the pool
    behaves. */
module PayloadRuns {
  import opened ByteType
  import opened Payloads

  /** What callers and readers do.  Each release of a handle is one through a copy that was not
      released before, as a second one through the same copy does nothing. */
  datatype Op =
    | Write(bytes: seq<byte>)
    | Read(k: nat, safe: bool)
    | Release(i: nat)
    | Store(i: nat, bytes: seq<byte>)     // a reader stores into its unreleased chunk

  // ---------- without sharing ----------

  datatype Handle = Handle(bytes: seq<byte>, pooled: bool, releases: nat)

  datatype Ideal = Ideal(queue: seq<seq<byte>>, handles: seq<Handle>)

  function IdealNext(t: Ideal, op: Op): Ideal {
    match op
    case Write(bytes) =>
      if 0 < |bytes| < SMALL_DATA_THRESHOLD then t.(queue := t.queue + [bytes]) else t
    case Read(k, safe) =>
      if k < |t.queue| then
        Ideal(Without(t.queue, k), t.handles + [Handle(t.queue[k], safe, 0)])
      else t
    case Release(i) =>
      if i < |t.handles| then
        t.(handles := t.handles[i := t.handles[i].(releases := t.handles[i].releases + 1)])
      else t
    case Store(i, bytes) =>
      if MayStore(t, i, bytes) then t.(handles := t.handles[i := t.handles[i].(bytes := bytes)]) else t
  }

  predicate MayStore(t: Ideal, i: nat, bytes: seq<byte>) {
    i < |t.handles| && t.handles[i].releases == 0 && |bytes| == |t.handles[i].bytes|
  }

  function Ideals(script: seq<Op>): Ideal {
    if script == [] then Ideal([], [])
    else IdealNext(Ideals(script[..|script| - 1]), script[|script| - 1])
  }

  /** What a caller can see to: no safely read chunk is released through two copies of its handle. */
  predicate ReleasedOnce(t: Ideal) {
    forall i :: 0 <= i < |t.handles| && t.handles[i].pooled ==> t.handles[i].releases <= 1
  }

  // ---------- with sharing ----------

  datatype Option<T> = None | Some(value: T)

  /** A queued message or a chunk: the first `size` bytes of an array. */
  datatype Slice = Slice(buf: nat, size: nat)

  datatype Real = Real(
    memory: map<nat, seq<byte>>,    // the arrays of the store, by name
    next: nat,                      // names from here on are not in use
    queue: seq<Slice>,
    pool: multiset<nat>,
    chunks: seq<Slice>)

  /** What the pool does at one operation: what it forgets, and what it then hands out. */
  datatype Whim = Whim(forget: multiset<nat>, pick: Option<nat>)

  const KEEP_ALL := Whim(multiset{}, None)

  function Bytes(r: Real, x: Slice): seq<byte> {
    if x.buf in r.memory && x.size <= |r.memory[x.buf]| then r.memory[x.buf][..x.size] else []
  }

  function NewArray(r: Real, size: nat): (out: (Real, nat))
    ensures out.1 in out.0.memory && size <= |out.0.memory[out.1]|
    ensures out.0.queue == r.queue && out.0.chunks == r.chunks
  {
    var length := if size < INITIALIZE_BUF_SIZE then INITIALIZE_BUF_SIZE else size;
    (r.(memory := r.memory[r.next := seq(length, _ => 0 as byte)], next := r.next + 1), r.next)
  }

  /** A pooled array if one is handed out that is long enough, and otherwise a new one. */
  function Buffer(r: Real, size: nat, whim: Whim): (out: (Real, nat))
    ensures out.1 in out.0.memory && size <= |out.0.memory[out.1]|
    ensures out.0.queue == r.queue && out.0.chunks == r.chunks
  {
    if whim.pick.Some? && whim.pick.value in r.pool then
      var b := whim.pick.value;
      var r' := r.(pool := r.pool - multiset{b});
      if b in r.memory && size <= |r.memory[b]| then (r', b) else NewArray(r', size)
    else NewArray(r, size)
  }

  function Fill(r: Real, buf: nat, bytes: seq<byte>): Real
    requires buf in r.memory && |bytes| <= |r.memory[buf]|
  {
    r.(memory := r.memory[buf := bytes + r.memory[buf][|bytes|..]])
  }

  /** A copy of the bytes in an array handed out by the pool. */
  function Copied(r: Real, bytes: seq<byte>, whim: Whim): (out: (Real, nat))
    ensures out.0.queue == r.queue && out.0.chunks == r.chunks
  {
    var (r', buf) := Buffer(r, |bytes|, whim);
    (Fill(r', buf, bytes), buf)
  }

  /** The store's part of an operation that t says is possible. */
  function RealNext(r0: Real, t: Ideal, op: Op, whim: Whim): (r': Real)
    requires Alike(r0, t)
    ensures Alike(r', IdealNext(t, op))
  {
    RealStep(r0.(pool := r0.pool - whim.forget), t, op, whim)
  }

  predicate Alike(r: Real, t: Ideal) {
    |t.queue| == |r.queue| && |t.handles| == |r.chunks|
  }

  function RealStep(r: Real, t: Ideal, op: Op, whim: Whim): (r': Real)
    requires Alike(r, t)
    ensures Alike(r', IdealNext(t, op))
  {
    match op
    case Write(bytes) =>
      if 0 < |bytes| < SMALL_DATA_THRESHOLD then
        var (r', buf) := Copied(r, bytes, whim);
        r'.(queue := r.queue + [Slice(buf, |bytes|)])
      else r
    case Read(k, safe) =>
      if k < |r.queue| then
        var r1 := r.(queue := Without(r.queue, k));
        if safe then
          var (r2, buf) := Copied(r1, Bytes(r, r.queue[k]), whim);
          r2.(chunks := r2.chunks + [Slice(buf, r.queue[k].size)])
        else r1.(chunks := r1.chunks + [r.queue[k]])
      else r
    case Release(i) =>
      if i < |r.chunks| && t.handles[i].pooled then r.(pool := r.pool + multiset{r.chunks[i].buf}) else r
    case Store(i, bytes) =>
      if MayStore(t, i, bytes) && r.chunks[i].buf in r.memory && |bytes| <= |r.memory[r.chunks[i].buf]|
      then Fill(r, r.chunks[i].buf, bytes) else r
  }

  function Reals(script: seq<Op>, whims: seq<Whim>): (r: Real)
    requires |whims| == |script|
    ensures Alike(r, Ideals(script))
  {
    if script == [] then Real(map[], 0, [], multiset{}, [])
    else
      var n := |script| - 1;
      RealNext(Reals(script[..n], whims[..n]), Ideals(script[..n]), script[n], whims[n])
  }

  // ---------- isolation ----------

  predicate Held(t: Ideal, i: nat) {
    i < |t.handles| && t.handles[i].releases == 0
  }

  predicate IsArray(r: Real, x: Slice) {
    x.buf in r.memory && x.size <= |r.memory[x.buf]|
  }

  /** Names are those of arrays. */
  ghost predicate Named(r: Real) {
    && (forall b :: b in r.memory ==> b < r.next)
    && (forall b :: b in r.pool ==> b in r.memory)
    && (forall j :: 0 <= j < |r.queue| ==> IsArray(r, r.queue[j]))
    && (forall i :: 0 <= i < |r.chunks| ==> IsArray(r, r.chunks[i]))
  }

  /** Queued arrays, pooled arrays and the arrays of unreleased chunks are all different. */
  ghost predicate Disjoint(r: Real, t: Ideal)
    requires Alike(r, t)
  {
    && (forall b :: b in r.pool ==> r.pool[b] == 1)
    && (forall j, k :: 0 <= j < k < |r.queue| ==> r.queue[j].buf != r.queue[k].buf)
    && (forall j :: 0 <= j < |r.queue| ==> r.queue[j].buf !in r.pool)
    && (forall i :: 0 <= i < |r.chunks| && Held(t, i) ==> r.chunks[i].buf !in r.pool)
    && (forall i, j :: 0 <= i < |r.chunks| && Held(t, i) && 0 <= j < |r.queue| ==>
          r.chunks[i].buf != r.queue[j].buf)
    && (forall i, j :: 0 <= i < j < |r.chunks| && Held(t, i) && Held(t, j) ==>
          r.chunks[i].buf != r.chunks[j].buf)
  }

  /** Queued messages and unreleased chunks have the bytes they would have without sharing. */
  ghost predicate Intact(r: Real, t: Ideal)
    requires Alike(r, t)
  {
    && (forall j :: 0 <= j < |r.queue| ==> Bytes(r, r.queue[j]) == t.queue[j])
    && (forall i :: 0 <= i < |r.chunks| && Held(t, i) ==> Bytes(r, r.chunks[i]) == t.handles[i].bytes)
  }

  ghost predicate Isolated(r: Real, t: Ideal) {
    Alike(r, t) && Named(r) && Disjoint(r, t) && Intact(r, t)
  }

  /** An array that nothing refers to. */
  ghost predicate Nobodys(r: Real, t: Ideal, buf: nat)
    requires Alike(r, t)
  {
    && buf in r.memory && buf !in r.pool
    && (forall j :: 0 <= j < |r.queue| ==> r.queue[j].buf != buf)
    && (forall i :: 0 <= i < |r.chunks| && Held(t, i) ==> r.chunks[i].buf != buf)
  }

  lemma Forgotten(r: Real, t: Ideal, forget: multiset<nat>)
    requires Isolated(r, t)
    ensures Isolated(r.(pool := r.pool - forget), t)
  {
    var r' := r.(pool := r.pool - forget);
    assert forall b :: b in r'.pool ==> b in r.pool;
  }

  /** A pooled array that is handed out is nobody's any more. */
  lemma PickedIsFree(r: Real, t: Ideal, b: nat)
    requires Isolated(r, t) && b in r.pool
    ensures Isolated(r.(pool := r.pool - multiset{b}), t)
    ensures Nobodys(r.(pool := r.pool - multiset{b}), t, b)
  {
    Forgotten(r, t, multiset{b});
  }

  lemma NewIsFree(r: Real, t: Ideal, size: nat)
    requires Isolated(r, t)
    ensures var (r', buf) := NewArray(r, size);
            Isolated(r', t) && Nobodys(r', t, buf)
  {
    var (r', buf) := NewArray(r, size);
    assert forall x :: IsArray(r, x) ==> IsArray(r', x) && Bytes(r', x) == Bytes(r, x);
  }

  /** Whatever the pool hands out is nobody's. */
  lemma BufferIsFree(r: Real, t: Ideal, size: nat, whim: Whim)
    requires Isolated(r, t)
    ensures var (r', buf) := Buffer(r, size, whim);
            Isolated(r', t) && Nobodys(r', t, buf)
  {
    if whim.pick.Some? && whim.pick.value in r.pool {
      PickedIsFree(r, t, whim.pick.value);
      NewIsFree(r.(pool := r.pool - multiset{whim.pick.value}), t, size);
    } else {
      NewIsFree(r, t, size);
    }
  }

  /** Filling it changes nobody's bytes. */
  lemma FillKeeps(r: Real, t: Ideal, buf: nat, bytes: seq<byte>)
    requires Isolated(r, t) && Nobodys(r, t, buf) && |bytes| <= |r.memory[buf]|
    ensures var r' := Fill(r, buf, bytes);
            Isolated(r', t) && Nobodys(r', t, buf)
            && IsArray(r', Slice(buf, |bytes|)) && Bytes(r', Slice(buf, |bytes|)) == bytes
  {
    var r' := Fill(r, buf, bytes);
    assert forall x :: IsArray(r, x) ==> IsArray(r', x) && (x.buf != buf ==> Bytes(r', x) == Bytes(r, x));
  }

  lemma CopiedIsFree(r: Real, t: Ideal, bytes: seq<byte>, whim: Whim)
    requires Isolated(r, t)
    ensures var (r', buf) := Copied(r, bytes, whim);
            Isolated(r', t) && Nobodys(r', t, buf)
            && IsArray(r', Slice(buf, |bytes|)) && Bytes(r', Slice(buf, |bytes|)) == bytes
  {
    BufferIsFree(r, t, |bytes|, whim);
    var (r', buf) := Buffer(r, |bytes|, whim);
    FillKeeps(r', t, buf, bytes);
  }

  lemma QueueKeepsDisjoint(r: Real, t: Ideal, x: Slice)
    requires Alike(r, t) && Disjoint(r, t) && Nobodys(r, t, x.buf)
    ensures Disjoint(r.(queue := r.queue + [x]), t.(queue := t.queue + [Bytes(r, x)]))
  {
  }

  lemma QueueKeeps(r: Real, t: Ideal, x: Slice)
    requires Isolated(r, t) && Nobodys(r, t, x.buf) && IsArray(r, x)
    ensures Isolated(r.(queue := r.queue + [x]), t.(queue := t.queue + [Bytes(r, x)]))
  {
    QueueKeepsDisjoint(r, t, x);
  }

  lemma WriteKeeps(r: Real, t: Ideal, bytes: seq<byte>, whim: Whim)
    requires Isolated(r, t)
    ensures Isolated(RealStep(r, t, Write(bytes), whim), IdealNext(t, Write(bytes)))
  {
    if 0 < |bytes| < SMALL_DATA_THRESHOLD {
      CopiedIsFree(r, t, bytes, whim);
      var (r', buf) := Copied(r, bytes, whim);
      QueueKeeps(r', t, Slice(buf, |bytes|));
    }
  }

  lemma TakeKeepsDisjoint(r: Real, t: Ideal, r': Real, t': Ideal, k: nat)
    requires Alike(r, t) && Alike(r', t') && Disjoint(r, t) && k < |r.queue|
    requires r' == r.(queue := Without(r.queue, k)) && t'.handles == t.handles
    ensures Disjoint(r', t')
    ensures forall j :: 0 <= j < |r'.queue| ==> r'.queue[j].buf != r.queue[k].buf
  {
  }

  /** The message taken off the queue leaves its array to the reader. */
  lemma TakeKeeps(r: Real, t: Ideal, k: nat)
    requires Isolated(r, t) && k < |r.queue|
    ensures Isolated(r.(queue := Without(r.queue, k)), t.(queue := Without(t.queue, k)))
    ensures Nobodys(r.(queue := Without(r.queue, k)), t.(queue := Without(t.queue, k)), r.queue[k].buf)
  {
    var r', t' := r.(queue := Without(r.queue, k)), t.(queue := Without(t.queue, k));
    TakeKeepsDisjoint(r, t, r', t', k);
    forall j | 0 <= j < |r'.queue| ensures IsArray(r', r'.queue[j]) && Bytes(r', r'.queue[j]) == t'.queue[j] {
      var i := if j < k then j else j + 1;
      assert IsArray(r, r.queue[i]) && r'.queue[j] == r.queue[i] && t'.queue[j] == t.queue[i];
    }
  }

  lemma LendKeepsDisjoint(r: Real, t: Ideal, x: Slice, h: Handle)
    requires Alike(r, t) && Disjoint(r, t) && Nobodys(r, t, x.buf)
    ensures Disjoint(r.(chunks := r.chunks + [x]), t.(handles := t.handles + [h]))
  {
    var t' := t.(handles := t.handles + [h]);
    assert forall i :: 0 <= i < |t.handles| && Held(t', i) ==> Held(t, i);
  }

  lemma LendKeeps(r: Real, t: Ideal, x: Slice, safe: bool)
    requires Isolated(r, t) && Nobodys(r, t, x.buf) && IsArray(r, x)
    ensures Isolated(r.(chunks := r.chunks + [x]), t.(handles := t.handles + [Handle(Bytes(r, x), safe, 0)]))
  {
    LendKeepsDisjoint(r, t, x, Handle(Bytes(r, x), safe, 0));
    var t' := t.(handles := t.handles + [Handle(Bytes(r, x), safe, 0)]);
    assert forall i :: 0 <= i < |t.handles| && Held(t', i) ==> Held(t, i);
  }

  /** The copy is lent to the reader. */
  lemma LendCopyKeeps(r: Real, t: Ideal, bytes: seq<byte>, whim: Whim)
    requires Isolated(r, t)
    ensures var (r', buf) := Copied(r, bytes, whim);
            Isolated(r'.(chunks := r'.chunks + [Slice(buf, |bytes|)]),
                     t.(handles := t.handles + [Handle(bytes, true, 0)]))
  {
    CopiedIsFree(r, t, bytes, whim);
    var (r', buf) := Copied(r, bytes, whim);
    LendKeeps(r', t, Slice(buf, |bytes|), true);
  }

  lemma ReadKeeps(r: Real, t: Ideal, k: nat, safe: bool, whim: Whim)
    requires Isolated(r, t)
    ensures Isolated(RealStep(r, t, Read(k, safe), whim), IdealNext(t, Read(k, safe)))
  {
    if k < |r.queue| {
      TakeKeeps(r, t, k);
      var r1, t1 := r.(queue := Without(r.queue, k)), t.(queue := Without(t.queue, k));
      assert |Bytes(r, r.queue[k])| == r.queue[k].size;
      if safe {
        LendCopyKeeps(r1, t1, t.queue[k], whim);
      } else {
        LendKeeps(r1, t1, r.queue[k], false);
      }
    }
  }

  /** Once a chunk is released its array is nobody's ... */
  lemma ReleasedIsFree(r: Real, t: Ideal, i: nat)
    requires Isolated(r, t) && i < |t.handles|
    ensures Isolated(r, IdealNext(t, Release(i)))
    ensures Held(t, i) ==> Nobodys(r, IdealNext(t, Release(i)), r.chunks[i].buf)
  {
    var t' := IdealNext(t, Release(i));
    assert forall j :: Held(t', j) ==> Held(t, j) && j != i;
  }

  /** ... and may be pooled. */
  lemma PoolKeeps(r: Real, t: Ideal, b: nat)
    requires Isolated(r, t) && Nobodys(r, t, b)
    ensures Isolated(r.(pool := r.pool + multiset{b}), t)
  {
  }

  lemma ReleaseKeeps(r: Real, t: Ideal, i: nat, whim: Whim)
    requires Isolated(r, t) && ReleasedOnce(IdealNext(t, Release(i)))
    ensures Isolated(RealStep(r, t, Release(i), whim), IdealNext(t, Release(i)))
  {
    if i < |t.handles| {
      ReleasedIsFree(r, t, i);
      if t.handles[i].pooled {
        assert IdealNext(t, Release(i)).handles[i].releases <= 1;
        PoolKeeps(r, IdealNext(t, Release(i)), r.chunks[i].buf);
      }
    }
  }

  lemma FillStays(r: Real, x: Slice, bytes: seq<byte>)
    requires IsArray(r, x) && |bytes| == x.size
    ensures var r' := Fill(r, x.buf, bytes);
            && Bytes(r', x) == bytes
            && (forall y :: IsArray(r, y) ==> IsArray(r', y))
            && (forall y :: IsArray(r, y) && y.buf != x.buf ==> Bytes(r', y) == Bytes(r, y))
  {
  }

  lemma StoreKeeps(r: Real, t: Ideal, i: nat, bytes: seq<byte>, whim: Whim)
    requires Isolated(r, t)
    ensures Isolated(RealStep(r, t, Store(i, bytes), whim), IdealNext(t, Store(i, bytes)))
  {
    if MayStore(t, i, bytes) {
      var t' := IdealNext(t, Store(i, bytes));
      FillStays(r, r.chunks[i], bytes);
      assert forall j :: Held(t', j) <==> Held(t, j);
    }
  }

  // ---------- over runs ----------

  lemma OpKeeps(r: Real, t: Ideal, op: Op, whim: Whim)
    requires Isolated(r, t) && ReleasedOnce(IdealNext(t, op))
    ensures Isolated(RealNext(r, t, op, whim), IdealNext(t, op))
  {
    Forgotten(r, t, whim.forget);
    var r' := r.(pool := r.pool - whim.forget);
    match op
    case Write(bytes) => WriteKeeps(r', t, bytes, whim);
    case Read(k, safe) => ReadKeeps(r', t, k, safe, whim);
    case Release(i) => ReleaseKeeps(r', t, i, whim);
    case Store(i, bytes) => StoreKeeps(r', t, i, bytes, whim);
  }

  lemma OnceBefore(t: Ideal, op: Op)
    requires ReleasedOnce(IdealNext(t, op))
    ensures ReleasedOnce(t)
  {
    var t' := IdealNext(t, op);
    assert forall i :: 0 <= i < |t.handles| ==>
             t.handles[i].pooled == t'.handles[i].pooled && t.handles[i].releases <= t'.handles[i].releases;
  }

  lemma {:induction false} OnceIsEnough(script: seq<Op>, whims: seq<Whim>)
    requires |whims| == |script| && ReleasedOnce(Ideals(script))
    ensures Isolated(Reals(script, whims), Ideals(script))
  {
    if script != [] {
      var n := |script| - 1;
      OnceBefore(Ideals(script[..n]), script[n]);
      OnceIsEnough(script[..n], whims[..n]);
      OpKeeps(Reals(script[..n], whims[..n]), Ideals(script[..n]), script[n], whims[n]);
    }
  }

  /** A pool that neither forgets nor hands out anything has every release. */
  ghost predicate Hoards(r: Real, t: Ideal) {
    && Alike(r, t)
    && forall i :: 0 <= i < |t.handles| && t.handles[i].pooled ==>
         r.pool[r.chunks[i].buf] >= t.handles[i].releases
  }

  lemma HoardsOn(r: Real, t: Ideal, op: Op)
    requires Hoards(r, t)
    ensures Hoards(RealNext(r, t, op, KEEP_ALL), IdealNext(t, op))
  {
    assert r.pool - multiset{} == r.pool;
  }

  lemma {:induction false} HoardsAlways(script: seq<Op>, whims: seq<Whim>)
    requires |whims| == |script| && forall n :: 0 <= n < |whims| ==> whims[n] == KEEP_ALL
    ensures Hoards(Reals(script, whims), Ideals(script))
  {
    if script != [] {
      var n := |script| - 1;
      HoardsAlways(script[..n], whims[..n]);
      HoardsOn(Reals(script[..n], whims[..n]), Ideals(script[..n]), script[n]);
    }
  }

  /** The store keeps queued arrays, pooled arrays and those of unreleased chunks apart, and every
      queued message and unreleased chunk as it would be without sharing, whatever the pool does, if
      and only if no safely read chunk is released through two copies of its handle. */
  lemma {:induction false} IsolatedIff(script: seq<Op>)
    ensures (forall whims | |whims| == |script| :: Isolated(Reals(script, whims), Ideals(script)))
            <==> ReleasedOnce(Ideals(script))
  {
    if ReleasedOnce(Ideals(script)) {
      forall whims | |whims| == |script| ensures Isolated(Reals(script, whims), Ideals(script)) {
        OnceIsEnough(script, whims);
      }
    } else {
      var whims := seq(|script|, _ => KEEP_ALL);
      HoardsAlways(script, whims);
      var i :| 0 <= i < |Ideals(script).handles| && Ideals(script).handles[i].pooled
               && Ideals(script).handles[i].releases > 1;
      assert Reals(script, whims).pool[Reals(script, whims).chunks[i].buf] > 1;
    }
  }

  // ---------- what the callers' operations alone say ----------

  predicate Accepted(op: Op) { op.Write? && 0 < |op.bytes| < 1024 }

  /** How many messages are queued. */
  function Pending(script: seq<Op>): nat {
    if script == [] then 0
    else
      var n, last := Pending(script[..|script| - 1]), script[|script| - 1];
      if Accepted(last) then n + 1 else if last.Read? && last.k < n then n - 1 else n
  }

  /** How many chunks reads have returned. */
  function Lent(script: seq<Op>): nat {
    if script == [] then 0
    else
      var front, last := script[..|script| - 1], script[|script| - 1];
      Lent(front) + if last.Read? && last.k < Pending(front) then 1 else 0
  }

  /** Where in the queue a message is after more operations, unless a read has taken it. */
  function Place(at: nat, after: seq<Op>): Option<nat> {
    if after == [] then Some(at)
    else
      var i, last := Place(at, after[..|after| - 1]), after[|after| - 1];
      if i.None? || !last.Read? || last.k > i.value then i
      else if last.k == i.value then None else Some(i.value - 1)
  }

  /** What chunk i should hold after more operations, unless it was released: what was read, or what
      its reader has stored last. */
  function Content(i: nat, bytes: seq<byte>, after: seq<Op>): Option<seq<byte>> {
    if after == [] then Some(bytes)
    else
      var held, last := Content(i, bytes, after[..|after| - 1]), after[|after| - 1];
      if held.None? || last == Release(i) then None
      else if last.Store? && last.i == i && |last.bytes| == |held.value| then Some(last.bytes)
      else held
  }

  lemma {:induction false} SizesAre(script: seq<Op>)
    ensures |Ideals(script).queue| == Pending(script) && |Ideals(script).handles| == Lent(script)
  {
    if script != [] {
      SizesAre(script[..|script| - 1]);
    }
  }

  ghost predicate Queues(script: seq<Op>, i: nat, bytes: seq<byte>) {
    i < |Ideals(script).queue| && Ideals(script).queue[i] == bytes
  }

  lemma PlaceKept(script: seq<Op>, op: Op, i: nat, bytes: seq<byte>)
    requires Queues(script, i, bytes) && (op.Read? ==> op.k != i)
    ensures Queues(script + [op], if op.Read? && op.k < i then i - 1 else i, bytes)
  {
    assert (script + [op])[..|script|] == script;
  }

  lemma {:induction false} StaysInPlace(before: seq<Op>, bytes: seq<byte>, after: seq<Op>)
    requires Accepted(Write(bytes)) && Place(Pending(before), after).Some?
    ensures Queues(before + [Write(bytes)] + after, Place(Pending(before), after).value, bytes)
  {
    var start := before + [Write(bytes)];
    if after == [] {
      SizesAre(before);
      assert start[..|before|] == before && start + after == start;
    } else {
      var front, last := after[..|after| - 1], after[|after| - 1];
      StaysInPlace(before, bytes, front);
      PlaceKept(start + front, last, Place(Pending(before), front).value, bytes);
      assert start + front + [last] == start + after;
    }
  }

  ghost predicate Lends(script: seq<Op>, i: nat, bytes: seq<byte>) {
    Held(Ideals(script), i) && Ideals(script).handles[i].bytes == bytes
  }

  lemma ContentKept(script: seq<Op>, op: Op, i: nat, bytes: seq<byte>)
    requires Lends(script, i, bytes) && op != Release(i)
    ensures Lends(script + [op], i,
                  if op.Store? && op.i == i && |op.bytes| == |bytes| then op.bytes else bytes)
  {
    assert (script + [op])[..|script|] == script;
  }

  lemma {:induction false} KeepsContent(script: seq<Op>, i: nat, bytes: seq<byte>, after: seq<Op>)
    requires Lends(script, i, bytes) && Content(i, bytes, after).Some?
    ensures Lends(script + after, i, Content(i, bytes, after).value)
  {
    if after == [] {
      assert script + after == script;
    } else {
      var front, last := after[..|after| - 1], after[|after| - 1];
      KeepsContent(script, i, bytes, front);
      ContentKept(script + front, last, i, Content(i, bytes, front).value);
      assert script + front + [last] == script + after;
    }
  }

  lemma ReadLends(script: seq<Op>, k: nat, safe: bool, bytes: seq<byte>)
    requires Queues(script, k, bytes)
    ensures Lends(script + [Read(k, safe)], Lent(script), bytes)
  {
    SizesAre(script);
    assert (script + [Read(k, safe)])[..|script|] == script;
  }

  /** The read that takes a message, in either mode, returns the bytes that were given to Write,
      whatever was written, read, released and stored in other chunks before, between and after; and
      until the chunk is released it holds those bytes, or what its reader has stored there. */
  lemma {:induction false} ReadsWhatWasWritten(before: seq<Op>, bytes: seq<byte>, between: seq<Op>, k: nat,
                                               safe: bool, after: seq<Op>, whims: seq<Whim>)
    requires 0 < |bytes| < 1024 && Place(Pending(before), between) == Some(k)
    requires var taken := before + [Write(bytes)] + between;
             && |whims| == |taken + [Read(k, safe)] + after|
             && ReleasedOnce(Ideals(taken + [Read(k, safe)] + after))
             && Content(Lent(taken), bytes, after).Some?
    ensures var taken := before + [Write(bytes)] + between;
            var r := Reals(taken + [Read(k, safe)] + after, whims);
            && Lent(taken) < |r.chunks|
            && Bytes(r, r.chunks[Lent(taken)]) == Content(Lent(taken), bytes, after).value
  {
    var taken := before + [Write(bytes)] + between;
    StaysInPlace(before, bytes, between);
    ReadLends(taken, k, safe, bytes);
    KeepsContent(taken + [Read(k, safe)], Lent(taken), bytes, after);
    OnceIsEnough(taken + [Read(k, safe)] + after, whims);
  }

  // ---------- what goes wrong otherwise ----------

  /** Everything refers to arrays, and no array is empty. */
  ghost predicate Stocked(r: Real) {
    && (forall b :: b in r.memory ==> |r.memory[b]| >= 1)
    && (forall b :: b in r.pool ==> b in r.memory)
    && (forall j :: 0 <= j < |r.queue| ==> r.queue[j].buf in r.memory)
    && (forall i :: 0 <= i < |r.chunks| ==> r.chunks[i].buf in r.memory)
  }

  lemma NewStocked(r: Real, size: nat)
    requires Stocked(r)
    ensures Stocked(NewArray(r, size).0)
  {
  }

  lemma ForgottenStocked(r: Real, forget: multiset<nat>)
    requires Stocked(r)
    ensures Stocked(r.(pool := r.pool - forget))
  {
    assert forall b :: b in r.pool - forget ==> b in r.pool;
  }

  lemma BufferStocked(r: Real, size: nat, whim: Whim)
    requires Stocked(r)
    ensures Stocked(Buffer(r, size, whim).0)
  {
    NewStocked(r, size);
    if whim.pick.Some? {
      ForgottenStocked(r, multiset{whim.pick.value});
      NewStocked(r.(pool := r.pool - multiset{whim.pick.value}), size);
    }
  }

  lemma CopiedStocked(r: Real, bytes: seq<byte>, whim: Whim)
    requires Stocked(r)
    ensures Stocked(Copied(r, bytes, whim).0) && Copied(r, bytes, whim).1 in Copied(r, bytes, whim).0.memory
  {
    BufferStocked(r, |bytes|, whim);
  }

  lemma ReadStocked(r: Real, t: Ideal, k: nat, safe: bool, whim: Whim)
    requires Alike(r, t) && Stocked(r)
    ensures Stocked(RealStep(r, t, Read(k, safe), whim))
  {
    if k < |r.queue| {
      var r1 := r.(queue := Without(r.queue, k));
      assert Stocked(r1);
      CopiedStocked(r1, Bytes(r, r.queue[k]), whim);
    }
  }

  lemma StoreStocked(r: Real, t: Ideal, i: nat, bytes: seq<byte>, whim: Whim)
    requires Alike(r, t) && Stocked(r)
    ensures Stocked(RealStep(r, t, Store(i, bytes), whim))
  {
  }

  lemma WriteStocked(r: Real, t: Ideal, bytes: seq<byte>, whim: Whim)
    requires Alike(r, t) && Stocked(r)
    ensures Stocked(RealStep(r, t, Write(bytes), whim))
  {
    CopiedStocked(r, bytes, whim);
  }

  lemma ReleaseStocked(r: Real, t: Ideal, i: nat, whim: Whim)
    requires Alike(r, t) && Stocked(r)
    ensures Stocked(RealStep(r, t, Release(i), whim))
  {
  }

  lemma OpStocked(r: Real, t: Ideal, op: Op, whim: Whim)
    requires Alike(r, t) && Stocked(r)
    ensures Stocked(RealStep(r, t, op, whim))
  {
    match op
    case Write(bytes) => WriteStocked(r, t, bytes, whim);
    case Read(k, safe) => ReadStocked(r, t, k, safe, whim);
    case Release(i) => ReleaseStocked(r, t, i, whim);
    case Store(i, bytes) => StoreStocked(r, t, i, bytes, whim);
  }

  lemma {:induction false} StockedAlways(script: seq<Op>, whims: seq<Whim>)
    requires |whims| == |script|
    ensures Stocked(Reals(script, whims))
  {
    if script != [] {
      var n := |script| - 1;
      var r := Reals(script[..n], whims[..n]);
      StockedAlways(script[..n], whims[..n]);
      ForgottenStocked(r, whims[n].forget);
      OpStocked(r.(pool := r.pool - whims[n].forget), Ideals(script[..n]), script[n], whims[n]);
    }
  }

  const ONE: seq<byte> := [1]
  const TWO: seq<byte> := [2]

  /** Two messages get one pooled array, which is in the pool twice. */
  lemma WrittenTwice(r: Real, t: Ideal, b: nat)
    requires Alike(r, t) && Stocked(r) && r.pool[b] >= 2
    ensures var whim := Whim(multiset{}, Some(b));
            var r1 := RealNext(r, t, Write(ONE), whim);
            var r2 := RealNext(r1, IdealNext(t, Write(ONE)), Write(TWO), whim);
            |r2.queue| == |r.queue| + 2 && Bytes(r2, r2.queue[|r.queue|]) == TWO
  {
    var whim := Whim(multiset{}, Some(b));
    assert r.pool - multiset{} == r.pool && b in r.pool;
    var r1 := RealNext(r, t, Write(ONE), whim);
    assert r1.queue == r.queue + [Slice(b, 1)] && r1.pool == r.pool - multiset{b};
    assert r1.pool - multiset{} == r1.pool;
  }

  lemma RunTwoMore(script: seq<Op>, whims: seq<Whim>, a: Op, b: Op, v: Whim, w: Whim)
    requires |whims| == |script|
    ensures Ideals(script + [a, b]) == IdealNext(IdealNext(Ideals(script), a), b)
    ensures Reals(script + [a, b], whims + [v, w])
            == RealNext(RealNext(Reals(script, whims), Ideals(script), a, v),
                        IdealNext(Ideals(script), a), b, w)
  {
    assert (script + [a, b])[..|script| + 1] == script + [a] && (script + [a])[..|script|] == script;
    assert (whims + [v, w])[..|script| + 1] == whims + [v] && (whims + [v])[..|script|] == whims;
    assert Ideals(script + [a]) == IdealNext(Ideals(script), a);
  }

  /** Queued messages are what their writers gave. */
  ghost predicate QueueIntact(script: seq<Op>, whims: seq<Whim>)
    requires |whims| == |script|
  {
    forall j :: 0 <= j < |Ideals(script).queue| ==>
      Bytes(Reals(script, whims), Reals(script, whims).queue[j]) == Ideals(script).queue[j]
  }

  predicate NoRelease(more: seq<Op>) { forall op :: op in more ==> !op.Release? }

  lemma {:induction false} StillReleasedOnce(script: seq<Op>, more: seq<Op>)
    requires ReleasedOnce(Ideals(script)) && NoRelease(more)
    ensures ReleasedOnce(Ideals(script + more))
  {
    if more == [] {
      assert script + more == script;
    } else {
      var front := more[..|more| - 1];
      StillReleasedOnce(script, front);
      assert (script + more)[..|script + more| - 1] == script + front;
    }
  }

  lemma TwiceReleasedMixes(script: seq<Op>) returns (whims: seq<Whim>)
    requires !ReleasedOnce(Ideals(script))
    ensures |whims| == |script + [Write(ONE), Write(TWO)]|
    ensures !QueueIntact(script + [Write(ONE), Write(TWO)], whims)
  {
    var hoard := seq(|script|, _ => KEEP_ALL);
    HoardsAlways(script, hoard);
    StockedAlways(script, hoard);
    var r, t := Reals(script, hoard), Ideals(script);
    var i :| 0 <= i < |t.handles| && t.handles[i].pooled && t.handles[i].releases > 1;
    var whim := Whim(multiset{}, Some(r.chunks[i].buf));
    whims := hoard + [whim, whim];
    WrittenTwice(r, t, r.chunks[i].buf);
    RunTwoMore(script, hoard, Write(ONE), Write(TWO), whim, whim);
    assert Ideals(script + [Write(ONE), Write(TWO)]).queue == t.queue + [ONE] + [TWO];
    assert Ideals(script + [Write(ONE), Write(TWO)]).queue[|r.queue|] == ONE;
    assert ONE[0] != TWO[0];
  }

  /** And the condition is exact for what readers get: however callers go on, without releasing
      more, every message stays what was written, whatever the pool does, if and only if no safely read
      chunk was released through two copies of its handle. */
  lemma {:induction false} MessagesSafeIff(script: seq<Op>)
    ensures (forall more: seq<Op>, whims: seq<Whim> | NoRelease(more) && |whims| == |script + more| ::
               QueueIntact(script + more, whims))
            <==> ReleasedOnce(Ideals(script))
  {
    if ReleasedOnce(Ideals(script)) {
      forall more: seq<Op>, whims: seq<Whim> | NoRelease(more) && |whims| == |script + more|
        ensures QueueIntact(script + more, whims)
      {
        StillReleasedOnce(script, more);
        OnceIsEnough(script + more, whims);
      }
    } else {
      var whims := TwiceReleasedMixes(script);
      assert NoRelease([Write(ONE), Write(TWO)]);
    }
  }
}
