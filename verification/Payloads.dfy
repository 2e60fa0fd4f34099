/** The bytes of small messages (double_buffer.go, chunk.go): who owns which byte array between a
    Write, a read in either mode and the release of the chunk.  Arrays are real objects, so that what
    callers and readers may do to theirs is a matter of frames. */
module Payloads {
  import opened ByteType

  const SMALL_DATA_THRESHOLD := 1024
  const INITIALIZE_BUF_SIZE := 512

  /** A queued message: the array that Write filled, and its length. */
  datatype Entry = Entry(buf: array<byte>, size: nat)

  ghost function Arrays(queue: seq<Entry>): set<array<byte>> {
    set e | e in queue :: e.buf
  }

  /** No array is queued twice, pooled twice, or both. */
  ghost predicate Disjoint(queue: seq<Entry>, pool: multiset<array<byte>>) {
    && (forall i, j :: 0 <= i < j < |queue| ==> queue[i].buf != queue[j].buf)
    && (forall e :: e in queue ==> e.buf !in pool)
    && (forall b :: b in pool ==> pool[b] == 1)
  }

  /** The array of an unreleased chunk is its reader's alone. */
  ghost predicate Apart(lent: set<DataChunk>, queue: seq<Entry>, pool: multiset<array<byte>>) {
    && (forall c :: c in lent ==> c.size <= c.data.Length && c.data !in pool)
    && (forall c, e :: c in lent && e in queue ==> c.data != e.buf)
    && (forall c, d :: c in lent && d in lent && c != d ==> c.data != d.data)
  }

  /** An array that is not queued, not pooled and not with a reader. */
  ghost predicate Nobodys(buf: array<byte>, queue: seq<Entry>, pool: multiset<array<byte>>,
                          lent: set<DataChunk>) {
    && (forall e :: e in queue ==> e.buf != buf)
    && buf !in pool
    && (forall c :: c in lent ==> c.data != buf)
  }

  lemma Queued(e: Entry, queue: seq<Entry>, pool: multiset<array<byte>>, lent: set<DataChunk>)
    requires Disjoint(queue, pool) && Apart(lent, queue, pool) && Nobodys(e.buf, queue, pool, lent)
    ensures Disjoint(queue + [e], pool) && Apart(lent, queue + [e], pool)
  {
  }

  lemma Lent(c: DataChunk, queue: seq<Entry>, pool: multiset<array<byte>>, lent: set<DataChunk>)
    requires Apart(lent, queue, pool) && Nobodys(c.data, queue, pool, lent) && c.size <= c.data.Length
    ensures Apart(lent + {c}, queue, pool)
  {
  }

  /** sync.Pool may hand out `from`, one of its members; null stands for a new array. */
  function Chosen(from: array?<byte>): (s: set<array<byte>>)
    ensures from == null ==> s == {}
  {
    if from == null then {} else {from}
  }

  /** The array handed out if it is long enough, and otherwise a new one. */
  predicate Supplied(buf: array<byte>, from: array?<byte>, size: nat, isNew: bool) {
    if from != null && size <= from.Length then buf == from else isNew
  }

  class Store {
    var queue: seq<Entry>
    var smallPool: multiset<array<byte>>
    ghost var sent: seq<seq<byte>>      // for each queued message, the bytes given to Write
    ghost var lent: set<DataChunk>      // the handles that reads returned, not released yet

    ghost predicate Shaped()
      reads this
    {
      forall e :: e in queue ==> 0 < e.size < SMALL_DATA_THRESHOLD && e.size <= e.buf.Length
    }

    /** Every queued message is as it was given. */
    ghost predicate Intact()
      reads this, Arrays(queue)
    {
      && |sent| == |queue|
      && forall i :: 0 <= i < |queue| ==>
           queue[i].size <= queue[i].buf.Length && queue[i].buf[..queue[i].size] == sent[i]
    }

    ghost predicate Valid()
      reads this, Arrays(queue)
    {
      Shaped() && Disjoint(queue, smallPool) && Intact() && Apart(lent, queue, smallPool)
    }

    ghost predicate Free(buf: array<byte>)
      reads this
    {
      Nobodys(buf, queue, smallPool, lent)
    }

    constructor ()
      ensures Valid() && queue == [] && smallPool == multiset{} && lent == {}
    {
      queue, smallPool, sent, lent := [], multiset{}, [], {};
    }

    /** Lines 189-193 and 389-393. */
    method Buffer(size: nat, from: array?<byte>) returns (buf: array<byte>)
      requires from != null ==> from in smallPool
      modifies this`smallPool
      ensures size <= buf.Length && Supplied(buf, from, size, fresh(buf))
      ensures fresh(buf) ==> buf.Length == if from == null && size <= 512 then 512 else size
      ensures smallPool == if from == null then old(smallPool) else old(smallPool) - multiset{from}
    {
      if from == null {
        buf := new byte[INITIALIZE_BUF_SIZE];
      } else {
        buf := from;
        smallPool := smallPool - multiset{buf};
      }
      if buf.Length < size {
        buf := new byte[size];
      }
    }

    static method Copy(to: array<byte>, data: array<byte>, n: nat)
      requires n <= to.Length && n <= data.Length
      modifies to
      ensures to[..n] == old(data[..n])
    {
      for i := 0 to n
        invariant forall j :: 0 <= j < i ==> to[j] == old(data[j])
        invariant forall j :: i <= j < n ==> data[j] == old(data[j])
      {
        to[i] := data[i];
      }
    }

    /** The first n bytes of p, in an array that nobody else has. */
    method Copied(p: array<byte>, n: nat, from: array?<byte>) returns (buf: array<byte>)
      requires from != null ==> from in smallPool
      requires n <= p.Length
      modifies this`smallPool, Chosen(from)
      ensures n <= buf.Length && Supplied(buf, from, n, fresh(buf)) && buf[..n] == old(p[..n])
      ensures smallPool == if from == null then old(smallPool) else old(smallPool) - multiset{from}
      ensures old(Valid()) ==>
                Valid() && Free(buf)
    {
      buf := Buffer(n, from);
      Copy(buf, p, n);
    }

    /** A small message is copied before it is queued. */
    method Write(p: array<byte>, n: nat, from: array?<byte>)
      requires Shaped() && (from != null ==> from in smallPool)
      requires 0 < n < SMALL_DATA_THRESHOLD && n <= p.Length
      modifies this, Chosen(from)
      ensures Shaped() && |queue| == |old(queue)| + 1 && queue[..|old(queue)|] == old(queue)
      ensures queue[|old(queue)|].size == n && queue[|old(queue)|].buf[..n] == old(p[..n])
      ensures Supplied(queue[|old(queue)|].buf, from, n, fresh(queue[|old(queue)|].buf))
      ensures smallPool == if from == null then old(smallPool) else old(smallPool) - multiset{from}
      ensures sent == old(sent) + [old(p[..n])]
      ensures lent == old(lent) && (old(Valid()) ==> Valid())
      ensures old(Valid()) ==> forall c :: c in lent ==> c.data[..] == old(c.data[..])
      ensures old(Free(p)) ==> Free(p)
    {
      ghost var bytes := p[..n];
      ghost var valid := Valid();
      var buf := Copied(p, n, from);
      if valid {
        Queued(Entry(buf, n), queue, smallPool, lent);
      }
      queue := queue + [Entry(buf, n)];
      sent := sent + [bytes];
    }

    /** Takes message k off the queue; which one comes next is the pipeline's business. */
    method Take(k: nat) returns (e: Entry)
      requires Shaped() && k < |queue|
      modifies this`queue, this`sent
      ensures Shaped() && e == old(queue)[k] && queue == Without(old(queue), k)
      ensures old(Valid()) ==>
                && Valid() && sent == Without(old(sent), k) && e.buf[..e.size] == old(sent)[k]
                && Free(e.buf)
    {
      e := queue[k];
      queue := Without(queue, k);
      if k < |sent| {
        sent := Without(sent, k);
      }
    }

    /** Lines 389-400: a copy of a message is handed to a reader. */
    method Lend(e: Entry, from: array?<byte>) returns (chunk: DataChunk)
      requires e.size <= e.buf.Length && (from != null ==> from in smallPool)
      modifies this`smallPool, this`lent, Chosen(from)
      ensures fresh(chunk) && chunk.live && chunk.pooled && lent == old(lent) + {chunk}
      ensures Supplied(chunk.data, from, chunk.size, fresh(chunk.data))
      ensures chunk.size == e.size <= chunk.data.Length && chunk.Bytes() == old(e.buf[..e.size])
      ensures smallPool == if from == null then old(smallPool) else old(smallPool) - multiset{from}
      ensures old(Valid()) ==> Valid()
    {
      ghost var valid := Valid();
      var buf := Copied(e.buf, e.size, from);
      chunk := new DataChunk(buf, e.size, true);
      if valid {
        Lent(chunk, queue, smallPool, lent);
      }
      lent := lent + {chunk};
    }

    /** Lines 381-401 on a small message: the reader gets a copy. */
    method SafeRead(k: nat, from: array?<byte>) returns (chunk: DataChunk)
      requires Shaped() && k < |queue| && (from != null ==> from in smallPool)
      modifies this, Chosen(from)
      ensures Shaped() && fresh(chunk) && chunk.live && chunk.pooled && lent == old(lent) + {chunk}
      ensures Supplied(chunk.data, from, chunk.size, fresh(chunk.data))
      ensures chunk.size == old(queue)[k].size <= chunk.data.Length
      ensures chunk.Bytes() == old(queue[k].buf[..queue[k].size])
      ensures queue == Without(old(queue), k)
      ensures smallPool == if from == null then old(smallPool) else old(smallPool) - multiset{from}
      ensures old(Valid()) ==>
                && Valid() && sent == Without(old(sent), k) && chunk.Bytes() == old(sent)[k]
                && forall c :: c in old(lent) ==> c.data[..] == old(c.data[..])
    {
      var e := Take(k);
      chunk := Lend(e, from);
    }

    /** Lines 435-454 on a small message: the reader gets the queued array itself. */
    method ZeroCopyRead(k: nat) returns (chunk: DataChunk)
      requires Shaped() && k < |queue|
      modifies this`queue, this`sent, this`lent
      ensures Shaped() && fresh(chunk) && chunk.live && !chunk.pooled && lent == old(lent) + {chunk}
      ensures chunk.data == old(queue)[k].buf && chunk.size == old(queue)[k].size <= chunk.data.Length
      ensures queue == Without(old(queue), k)
      ensures old(Valid()) ==>
                && Valid() && sent == Without(old(sent), k) && chunk.Bytes() == old(sent)[k]
    {
      ghost var valid := Valid();
      var e := Take(k);
      chunk := new DataChunk(e.buf, e.size, false);
      if valid {
        Lent(chunk, queue, smallPool, lent);
      }
      lent := lent + {chunk};
    }

    /** Lines 398-399.  This keeps messages apart if and only if the array is nobody's. */
    method Put(buf: array<byte>)
      modifies this`smallPool
      ensures smallPool == old(smallPool) + multiset{buf}
      ensures old(Valid()) ==>
                (Valid() <==> old(Free(buf)))
    {
      smallPool := smallPool + multiset{buf};
      assert buf in smallPool;
    }
  }

  function Without<T>(s: seq<T>, k: nat): seq<T>
    requires k < |s|
  {
    s[..k] + s[k + 1..]
  }

  /** A handle on a message that was read.  The handle is a struct: copying it copies `live`. */
  class DataChunk {
    const data: array<byte>
    const size: nat
    const pooled: bool      // release returns the array to the small pool
    var live: bool

    constructor (data: array<byte>, size: nat, pooled: bool)
      requires size <= data.Length
      ensures this.data == data && this.size == size && this.pooled == pooled && live
    {
      this.data, this.size, this.pooled, this.live := data, size, pooled, true;
    }

    ghost function Bytes(): seq<byte>
      requires size <= data.Length
      reads data
    {
      data[..size]
    }

    /** The second release through one handle does nothing.  A handle that a read has returned, and
        that was not copied, can be released at any time. */
    method Release(store: Store)
      modifies this`live, store`smallPool, store`lent
      ensures !live && store.lent == old(store.lent) - (if old(live) then {this} else {})
      ensures store.smallPool == if old(live) && pooled then old(store.smallPool) + multiset{data}
                                 else old(store.smallPool)
      ensures old(store.Valid()) && this in old(store.lent) ==> store.Valid()
    {
      if live {
        live := false;
        store.lent := store.lent - {this};
        if pooled {
          store.Put(data);
        }
      }
    }
  }

  /** Callers may do what they like to arrays of their own. */
  method Overwrite(store: Store, p: array<byte>, noise: byte)
    requires store.Valid() && store.Free(p)
    modifies p
    ensures store.Valid() && store.Free(p)
  {
    for i := 0 to p.Length
    {
      p[i] := noise;
    }
  }

  /** Whatever the caller does to its slice after Write, a read in either mode returns what the slice
      held when it was written. */
  method CallerMayReuse(store: Store, p: array<byte>, n: nat, from: array?<byte>, noise: byte, safe: bool)
    returns (chunk: DataChunk)
    requires store.Valid() && (from != null ==> from in store.smallPool)
    requires 0 < n < SMALL_DATA_THRESHOLD && n <= p.Length && store.Free(p)
    modifies store, p, Chosen(from)
    ensures store.Valid() && chunk.size == n <= chunk.data.Length && chunk.Bytes() == old(p[..n])
  {
    var k := |store.queue|;
    store.Write(p, n, from);
    Overwrite(store, p, noise);
    if safe {
      chunk := store.SafeRead(k, null);
    } else {
      chunk := store.ZeroCopyRead(k);
    }
  }

  /** Two copies of one handle, both released, put one array in the pool twice. */
  method ReleasedTwice() returns (store: Store, shared: array<byte>)
    ensures fresh(store) && fresh(shared) && store.Shaped() && store.queue == []
    ensures store.smallPool == multiset{shared, shared} && shared.Length >= 1
  {
    store := new Store();
    var p := new byte[1][1];
    store.Write(p, 1, null);
    var chunk := store.SafeRead(0, null);
    var copy := new DataChunk(chunk.data, chunk.size, chunk.pooled);
    chunk.Release(store);
    copy.Release(store);
    shared := chunk.data;
  }

  /** Then two messages share that array, and a read of the first returns the second. */
  method SharedBytes() returns (written: byte, read: byte)
    ensures written == 1 && read == 2
  {
    var store, shared := ReleasedTwice();
    var p := new byte[1][1];
    store.Write(p, 1, shared);
    written := p[0];
    p[0] := 2;
    assert store.queue == [Entry(shared, 1)];
    store.Write(p, 1, shared);
    assert shared[..1] == p[..1] && store.queue[0] == Entry(shared, 1);
    var chunk := store.SafeRead(0, null);
    read := chunk.data[0];
    assert chunk.Bytes()[0] == 2;
  }
}
