/** The free lists of small buffers by size class (poolx/small_pool.go): as objects, one call at a
    time, and in SizePoolSteps for any number of threads between a channel operation and the update
    of the counter. */
module SmallPool {
  import opened ByteType
  import SizePoolSteps

  const MAX_SIZE := 1024

  datatype Error = NoError | ErrBufferSize

  function Capacities(pool: seq<array<byte>>): seq<nat> {
    seq(|pool|, i requires 0 <= i < |pool| => pool[i].Length)
  }

  class SizePool {
    const size: nat
    const max: nat
    var count: int
    var pool: seq<array<byte>>      // the channel

    /** Only buffers of the class are kept, no more than the channel holds, and they are counted. */
    ghost predicate Valid()
      reads this
    {
      count == |pool| <= max && forall b :: b in pool ==> b.Length == size
    }

    constructor (size: nat, max: nat)
      ensures Valid() && this.size == size && this.max == max && pool == []
    {
      this.size, this.max, count, pool := size, max, 0, [];
    }

    method Alloc() returns (buf: array<byte>)
      requires Valid()
      modifies this`count, this`pool
      ensures Valid() && buf.Length == size
      ensures if old(pool) == [] then pool == [] && fresh(buf) else [buf] + pool == old(pool)
      ensures Capacities(pool) == SizePoolSteps.Alloced(Capacities(old(pool)), size).0
      ensures buf.Length == SizePoolSteps.Alloced(Capacities(old(pool)), size).1
    {
      if |pool| > 0 {
        buf := pool[0];
        pool := pool[1..];
        count := count - 1;
      } else {
        buf := new byte[size];
      }
    }

    /** A full class discards the buffer without an error. */
    method Free(buf: array<byte>) returns (err: Error)
      requires Valid()
      modifies this`count, this`pool
      ensures Valid() && (err == ErrBufferSize <==> buf.Length != size)
      ensures pool == old(pool) + if buf.Length == size && |old(pool)| < max then [buf] else []
      ensures Capacities(pool) == SizePoolSteps.Freed(Capacities(old(pool)), buf.Length, size, max)
    {
      if buf.Length != size {
        return ErrBufferSize;
      }
      err := NoError;
      if count >= max {
        return;
      }
      if |pool| < max {
        pool := pool + [buf];
        count := count + 1;
      }
    }
  }

  const SIZES: seq<nat> := [64, 128, 256, 512, 1024]

  /** The smallest class that fits. */
  predicate IsClassOf(class_: nat, size: int) {
    class_ in SIZES && size <= class_ && forall c :: c in SIZES && size <= c ==> class_ <= c
  }

  ghost predicate Sized(kept: map<nat, seq<array<byte>>>) {
    forall c, b :: c in kept && b in kept[c] ==> b.Length == c
  }

  /** Every buffer is kept at most once, and none that is handed out is kept. */
  ghost predicate ApartIn(kept: map<nat, seq<array<byte>>>, out: set<array<byte>>) {
    && (forall c, i, j :: c in kept && 0 <= i < j < |kept[c]| ==> kept[c][i] != kept[c][j])
    && (forall c, b :: c in kept && b in kept[c] ==> b !in out)
  }

  lemma TakenStaysApart(kept: map<nat, seq<array<byte>>>, out: set<array<byte>>, c: nat)
    requires Sized(kept) && ApartIn(kept, out) && c in kept && kept[c] != []
    ensures ApartIn(kept[c := kept[c][1..]], out + {kept[c][0]})
  {
    var first, rest := kept[c][0], kept[c][1..];
    forall i | 0 <= i < |rest| ensures rest[i] != first && rest[i] in kept[c] {
      assert rest[i] == kept[c][i + 1];
    }
    var after := kept[c := rest];
    forall d, b | d in after && b in after[d] ensures b !in out + {first} {
      assert b in kept[d];
      assert first.Length == c && b.Length == d;
    }
  }

  ghost predicate Unknown(b: array<byte>, kept: map<nat, seq<array<byte>>>) {
    forall c :: c in kept ==> b !in kept[c]
  }

  lemma NewStaysApart(kept: map<nat, seq<array<byte>>>, out: set<array<byte>>, b: array<byte>)
    requires ApartIn(kept, out) && Unknown(b, kept)
    ensures ApartIn(kept, out + {b})
  {
  }

  lemma GivenBackApartIff(kept: map<nat, seq<array<byte>>>, out: set<array<byte>>, b: array<byte>)
    requires Sized(kept) && ApartIn(kept, out) && b.Length in kept
    ensures ApartIn(kept[b.Length := kept[b.Length] + [b]], out - {b}) <==> b !in kept[b.Length]
  {
    var c, after := b.Length, kept[b.Length := kept[b.Length] + [b]];
    if b in kept[c] {
      var i :| 0 <= i < |kept[c]| && kept[c][i] == b;
      assert after[c][i] == after[c][|kept[c]|];
    } else {
      forall d, x | d in after && x in after[d] ensures x !in out - {b} {
        assert x == b || x in kept[d];
      }
      forall d, i, j | d in after && 0 <= i < j < |after[d]| ensures after[d][i] != after[d][j] {
        assert d in kept && i < |kept[d]| && after[d][i] == kept[d][i];
      }
    }
  }

  class SmallPool {
    const pools: map<nat, SizePool>
    const sizes: seq<nat>
    ghost var out: set<array<byte>>     // handed out and not given back since

    ghost predicate Valid()
      reads pools.Values
    {
      && sizes == SIZES && (forall c :: c in pools <==> c in SIZES)
      && (forall c :: c in pools ==> pools[c].Valid() && pools[c].size == c && pools[c].max == MAX_SIZE)
      && (forall c, d :: c in pools && d in pools && c != d ==> pools[c] != pools[d])
    }

    ghost function Kept(): (kept: map<nat, seq<array<byte>>>)
      reads pools.Values
    {
      map c | c in pools :: pools[c].pool
    }

    lemma KeptSized()
      requires Valid()
      ensures Sized(Kept())
    {
    }

    ghost predicate Apart()
      reads this, pools.Values
    {
      ApartIn(Kept(), out)
    }

    constructor ()
      ensures Valid() && Apart() && fresh(pools.Values) && out == {}
      ensures sizes == [64, 128, 256, 512, 1024]
      ensures forall c :: c in pools ==> pools[c].pool == [] && pools[c].max == 1024
    {
      var made: map<nat, SizePool> := map[];
      for i := 0 to |SIZES|
        invariant forall c :: c in made <==> c in SIZES[..i]
        invariant forall c :: c in made ==>
                    && fresh(made[c]) && made[c].Valid() && made[c].pool == []
                    && made[c].size == c && made[c].max == MAX_SIZE
        invariant forall c, d :: c in made && d in made && c != d ==> made[c] != made[d]
      {
        var p := new SizePool(SIZES[i], MAX_SIZE);
        made := made[SIZES[i] := p];
      }
      assert SIZES[..|SIZES|] == SIZES;
      pools, sizes, out := made, SIZES, {};
    }

    /** The class of size c gives its first buffer, or a new one if it has none. */
    method TakeFrom(c: nat) returns (buf: array<byte>)
      requires Valid() && c in pools
      modifies this`out, pools.Values
      ensures Valid() && buf.Length == c && out == old(out) + {buf}
      ensures fresh(buf) ==> Unknown(buf, old(Kept()))
      ensures if old(Kept())[c] == [] then fresh(buf) && Kept() == old(Kept())
              else buf == old(Kept())[c][0] && Kept() == old(Kept())[c := old(Kept())[c][1..]]
    {
      ghost var kept := Kept();
      buf := pools[c].Alloc();
      ghost var after := if kept[c] == [] then kept else kept[c := kept[c][1..]];
      assert Kept().Keys == after.Keys;
      forall d | d in after ensures Kept()[d] == after[d] {
        assert d in pools;
      }
      assert Kept() == after;
      out := out + {buf};
    }

    method AllocFrom(c: nat) returns (buf: array<byte>)
      requires Valid() && c in pools
      modifies this`out, pools.Values
      ensures Valid() && buf.Length == c && out == old(out) + {buf}
      ensures if old(Kept())[c] == [] then fresh(buf) && Kept() == old(Kept())
              else buf == old(Kept())[c][0] && Kept() == old(Kept())[c := old(Kept())[c][1..]]
      ensures old(Apart()) ==> Apart() && buf !in old(out)
    {
      ghost var kept, apart, were := Kept(), Apart(), out;
      KeptSized();
      buf := TakeFrom(c);
      if apart {
        if kept[c] != [] {
          TakenStaysApart(kept, were, c);
        } else {
          NewStaysApart(kept, were, buf);
        }
      }
    }

    /** Up to 1024 bytes a buffer of the smallest class that fits, which that class no longer has;
        above that none. */
    method Alloc(size: int) returns (buf: array?<byte>)
      requires Valid()
      modifies this`out, pools.Values
      ensures Valid()
      ensures buf == null <==> size > 1024
      ensures buf == null ==> out == old(out)
      ensures buf == null ==> Kept() == old(Kept())
      ensures buf != null ==>
                && IsClassOf(buf.Length, size) && buf.Length in pools && out == old(out) + {buf}
                && if old(Kept())[buf.Length] == [] then fresh(buf) && Kept() == old(Kept())
                   else && buf == old(Kept())[buf.Length][0]
                        && Kept() == old(Kept())[buf.Length := old(Kept())[buf.Length][1..]]
      ensures old(Apart()) ==> Apart() && (buf != null ==> buf !in old(out))
    {
      for i := 0 to |sizes|
        invariant forall j :: 0 <= j < i ==> size > sizes[j]
      {
        if size <= sizes[i] {
          assert forall j :: i <= j < |sizes| ==> sizes[i] <= sizes[j];
          buf := AllocFrom(sizes[i]);
          return;
        }
      }
      assert sizes[|sizes| - 1] == MAX_SIZE;
      buf := null;
    }

    method FreeInto(c: nat, buf: array<byte>)
      requires Valid() && c in pools && buf.Length == c
      modifies pools[c]
      ensures Valid()
      ensures pools[c].pool == old(pools[c].pool) + if |old(pools[c].pool)| < MAX_SIZE then [buf] else []
      ensures forall d :: d in pools && d != c ==> pools[d].pool == old(pools[d].pool)
    {
      var _ := pools[c].Free(buf);
    }

    method FreeInClass(buf: array<byte>)
      requires Valid()
      modifies pools.Values
      ensures Valid()
      ensures forall c :: c in pools ==>
                pools[c].pool == old(pools[c].pool)
                                 + if buf.Length == c && |old(pools[c].pool)| < MAX_SIZE then [buf] else []
    {
      for i := 0 to |sizes|
        invariant Valid()
        invariant forall j :: i <= j < |sizes| ==> pools[sizes[j]].pool == old(pools[sizes[j]].pool)
        invariant forall j :: 0 <= j < i ==>
                    pools[sizes[j]].pool == old(pools[sizes[j]].pool)
                      + if buf.Length == sizes[j] && |old(pools[sizes[j]].pool)| < MAX_SIZE then [buf] else []
      {
        if buf.Length == sizes[i] {
          FreeInto(sizes[i], buf);
        }
      }
    }

    method GiveBack(buf: array<byte>)
      requires Valid()
      modifies this`out, pools.Values
      ensures Valid() && out == old(out) - {buf}
      ensures Kept() == if KeepsIn(old(Kept()), buf) then old(Kept())[buf.Length := old(Kept())[buf.Length] + [buf]]
                        else old(Kept())
    {
      ghost var kept := Kept();
      FreeInClass(buf);
      ghost var after := if KeepsIn(kept, buf) then kept[buf.Length := kept[buf.Length] + [buf]] else kept;
      assert Kept().Keys == after.Keys;
      forall c | c in after ensures Kept()[c] == after[c] {
        assert c in pools;
      }
      assert Kept() == after;
      out := out - {buf};
    }

    /** The class of its size keeps the buffer if it has room.  What breaks the pool is to free a
        buffer that it has already, and only that. */
    method Free(buf: array<byte>)
      requires Valid()
      modifies this`out, pools.Values
      ensures Valid() && out == old(out) - {buf}
      ensures Kept() == if KeepsIn(old(Kept()), buf) then old(Kept())[buf.Length := old(Kept())[buf.Length] + [buf]]
                        else old(Kept())
      ensures old(Apart()) ==>
                (Apart() <==> !KeepsIn(old(Kept()), buf) || buf !in old(Kept())[buf.Length])
      ensures old(Apart()) && buf in old(out) ==> Apart()
    {
      ghost var kept, apart, were := Kept(), Apart(), out;
      KeptSized();
      GiveBack(buf);
      if apart && KeepsIn(kept, buf) {
        GivenBackApartIff(kept, were, buf);
      }
    }
  }

  /** What the owners of buffers do; the i-th buffer handed out is freed by its number. */
  datatype Op = AllocOp(size: int) | FreeOp(i: nat)

  function Handed(script: seq<Op>): nat {
    if script == [] then 0
    else Handed(script[..|script| - 1])
         + if script[|script| - 1].AllocOp? && script[|script| - 1].size <= 1024 then 1 else 0
  }

  /** Each buffer is freed at most once for the Alloc that handed it out. */
  predicate FreedOnce(script: seq<Op>) {
    script == [] ||
    (FreedOnce(script[..|script| - 1]) &&
     var last := script[|script| - 1];
     last.FreeOp? ==> last.i < Handed(script[..|script| - 1]) && last !in script[..|script| - 1])
  }

  lemma {:induction false} FreedOnceBefore(script: seq<Op>, n: nat)
    requires n <= |script| && FreedOnce(script)
    ensures FreedOnce(script[..n])
  {
    if n == |script| {
      assert script[..n] == script;
    } else {
      FreedOnceBefore(script[..|script| - 1], n);
      assert script[..|script| - 1][..n] == script[..n];
    }
  }

  /** The buffers not freed yet are different ones, all out. */
  ghost predicate StillOut(given: seq<array<byte>>, script: seq<Op>, out: set<array<byte>>) {
    && (forall i :: 0 <= i < |given| && FreeOp(i) !in script ==> given[i] in out)
    && (forall i, j :: 0 <= i < j < |given| && FreeOp(i) !in script && FreeOp(j) !in script ==>
          given[i] != given[j])
  }

  method PlayOne(pool: SmallPool, op: Op, given: seq<array<byte>>, ghost before: seq<Op>)
    returns (given': seq<array<byte>>)
    requires pool.Valid() && pool.Apart() && FreedOnce(before + [op])
    requires |given| == Handed(before) && StillOut(given, before, pool.out)
    modifies pool`out, pool.pools.Values
    ensures pool.Valid() && pool.Apart()
    ensures |given'| == Handed(before + [op]) && StillOut(given', before + [op], pool.out)
  {
    assert (before + [op])[..|before|] == before;
    given' := given;
    match op
    case AllocOp(size) =>
      var buf := pool.Alloc(size);
      if buf != null {
        given' := given + [buf];
      }
    case FreeOp(i) =>
      pool.Free(given[i]);
  }

  ghost predicate Played(pool: SmallPool, given: seq<array<byte>>, done: seq<Op>)
    reads pool, pool.pools.Values
  {
    pool.Valid() && pool.Apart() && |given| == Handed(done) && StillOut(given, done, pool.out)
  }

  method PlayNext(pool: SmallPool, script: seq<Op>, n: nat, given: seq<array<byte>>)
    returns (given': seq<array<byte>>)
    requires n < |script| && FreedOnce(script) && Played(pool, given, script[..n])
    modifies pool`out, pool.pools.Values
    ensures Played(pool, given', script[..n + 1])
  {
    FreedOnceBefore(script, n + 1);
    assert script[..n + 1] == script[..n] + [script[n]];
    given' := PlayOne(pool, script[n], given, script[..n]);
  }

  /** In every run in which each buffer is freed at most once per Alloc, no buffer is out twice, and
      none is both out and in the pool. */
  method Play(pool: SmallPool, script: seq<Op>) returns (given: seq<array<byte>>)
    requires pool.Valid() && pool.Apart() && FreedOnce(script)
    modifies pool`out, pool.pools.Values
    ensures pool.Valid() && pool.Apart() && |given| == Handed(script) && StillOut(given, script, pool.out)
  {
    given := [];
    for n := 0 to |script|
      invariant Played(pool, given, script[..n])
    {
      given := PlayNext(pool, script, n, given);
    }
    assert script[..|script|] == script;
  }

  /** A buffer that is freed twice is handed out twice. */
  method FreedTwice(size: int) returns (one: array?<byte>, other: array?<byte>)
    ensures size <= 1024 <==> one != null
    ensures one == other
  {
    var pool := new SmallPool();
    var buf := pool.Alloc(size);
    if buf == null {
      return null, null;
    }
    pool.Free(buf);
    pool.Free(buf);
    one := pool.Alloc(size);
    other := pool.Alloc(size);
  }

  predicate KeepsIn(kept: map<nat, seq<array<byte>>>, buf: array<byte>) {
    buf.Length in kept && |kept[buf.Length]| < MAX_SIZE
  }
}

/** One size class under concurrent use. */
module SizePoolSteps {

  /** Buffers are represented by their capacities. */
  datatype State = State(
    size: nat,
    max: nat,
    channel: seq<nat>,
    count: int,
    received: nat,              // threads in Alloc that have received and not counted yet
    checked: multiset<nat>,     // buffers of threads in Free past the test of the counter
    sent: nat,                  // threads in Free that have sent and not counted yet
    returned: seq<nat>)         // what Alloc has returned

  datatype Step =
    | AllocReceive
    | AllocNew
    | AllocCount
    | FreeCheck(cap: nat)
    | FreeSend(cap: nat)
    | FreeCount

  function Init(size: nat, max: nat): State {
    State(size, max, [], 0, 0, multiset{}, 0, [])
  }

  /** A step that cannot be taken changes nothing. */
  function Next(s: State, step: Step): State {
    match step
    case AllocReceive =>
      if s.channel == [] then s
      else s.(channel := s.channel[1..], received := s.received + 1,
              returned := s.returned + [s.channel[0]])
    case AllocNew => if s.channel == [] then s.(returned := s.returned + [s.size]) else s
    case AllocCount =>
      if s.received == 0 then s else s.(count := s.count - 1, received := s.received - 1)
    case FreeCheck(cap) =>
      if cap != s.size || s.count >= s.max then s else s.(checked := s.checked + multiset{cap})
    case FreeSend(cap) =>
      if cap !in s.checked then s
      else if |s.channel| < s.max then
        s.(channel := s.channel + [cap], sent := s.sent + 1, checked := s.checked - multiset{cap})
      else s.(checked := s.checked - multiset{cap})
    case FreeCount => if s.sent == 0 then s else s.(count := s.count + 1, sent := s.sent - 1)
  }

  function Run(s: State, steps: seq<Step>): State {
    if steps == [] then s else Next(Run(s, steps[..|steps| - 1]), steps[|steps| - 1])
  }

  ghost predicate Inv(s: State) {
    && |s.channel| == s.count + s.sent - s.received
    && |s.channel| <= s.max
    && (forall i :: 0 <= i < |s.channel| ==> s.channel[i] == s.size)
    && (forall i :: 0 <= i < |s.returned| ==> s.returned[i] == s.size)
    && (forall cap :: cap in s.checked ==> cap == s.size)
  }

  lemma StepKeeps(s: State, step: Step)
    requires Inv(s)
    ensures Inv(Next(s, step)) && Next(s, step).size == s.size && Next(s, step).max == s.max
  {
    var t := Next(s, step);
    if step.FreeSend? && step.cap in s.checked {
      assert forall cap :: cap in t.checked ==> cap in s.checked;
    }
  }

  /** In every interleaving the counter differs from the channel by the threads on their way to it,
      and every buffer kept or returned has exactly the capacity of the class. */
  lemma {:induction false} CounterFollowsChannel(size: nat, max: nat, steps: seq<Step>)
    ensures var s := Run(Init(size, max), steps);
            s.size == size && s.max == max && Inv(s)
  {
    if steps != [] {
      CounterFollowsChannel(size, max, steps[..|steps| - 1]);
      StepKeeps(Run(Init(size, max), steps[..|steps| - 1]), steps[|steps| - 1]);
    }
  }

  /** So the counter is the length when nobody is on the way, and else off by no more than those. */
  lemma CounterBounds(size: nat, max: nat, steps: seq<Step>)
    ensures var s := Run(Init(size, max), steps);
            && 0 - s.sent <= s.count <= max + s.received
            && (s.sent == s.received == 0 ==> s.count == |s.channel|)
  {
    CounterFollowsChannel(size, max, steps);
  }

  // ---------- one call at a time ----------

  /** What an undisturbed Alloc leaves in the channel, and what it returns. */
  function Alloced(channel: seq<nat>, size: nat): (seq<nat>, nat) {
    if channel == [] then ([], size) else (channel[1..], channel[0])
  }

  /** What an undisturbed Free leaves in the channel. */
  function Freed(channel: seq<nat>, cap: nat, size: nat, max: nat): seq<nat> {
    channel + if cap == size && |channel| < max then [cap] else []
  }

  ghost predicate NobodyInside(s: State) {
    Inv(s) && s.received == 0 && s.checked == multiset{} && s.sent == 0
  }

  /** The steps of an Alloc, or a Free, that nobody disturbs do what the object's call does. */
  lemma AllocAlone(s: State)
    requires NobodyInside(s)
    ensures var t := Run(s, if s.channel == [] then [AllocNew] else [AllocReceive, AllocCount]);
            && NobodyInside(t)
            && (t.channel, t.returned) == (Alloced(s.channel, s.size).0, s.returned + [Alloced(s.channel, s.size).1])
  {
    if s.channel == [] {
      assert Run(s, []) == s && [AllocNew][..0] == [];
    } else {
      RunTwo(s, AllocReceive, AllocCount);
    }
  }

  lemma FreeAlone(s: State, cap: nat)
    requires NobodyInside(s)
    ensures var t := Run(s, [FreeCheck(cap), FreeSend(cap), FreeCount]);
            NobodyInside(t) && t.returned == s.returned && t.channel == Freed(s.channel, cap, s.size, s.max)
  {
    var t := Run(s, [FreeCheck(cap), FreeSend(cap)]);
    assert [FreeCheck(cap), FreeSend(cap), FreeCount][..2] == [FreeCheck(cap), FreeSend(cap)];
    assert Run(s, [FreeCheck(cap), FreeSend(cap), FreeCount]) == Next(t, FreeCount);
    RunTwo(s, FreeCheck(cap), FreeSend(cap));
    SendAlone(s, cap);
  }

  lemma SendAlone(s: State, cap: nat)
    requires NobodyInside(s)
    ensures var t := Next(Next(s, FreeCheck(cap)), FreeSend(cap));
            t == if cap == s.size && |s.channel| < s.max then s.(channel := s.channel + [cap], sent := 1) else s
  {
    assert multiset{cap} - multiset{cap} == multiset{};
    assert s.checked + multiset{cap} == multiset{cap};
  }

  lemma RunTwo(s: State, a: Step, b: Step)
    ensures Run(s, [a, b]) == Next(Next(s, a), b)
  {
    assert [a, b][..1] == [a] && [a][..0] == [];
    assert Run(s, []) == s && Run(s, [a]) == Next(s, a);
  }
}
