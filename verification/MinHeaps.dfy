/** The reordering heap (min_heap.go).  The sift loops are those of Go's container/heap, whose
    Push appends and sifts up and whose Pop swaps first with last, sifts down and shrinks. */
module MinHeaps {
  class MinHeapItem {
    const sequence: int
    const buf: nat                      // the retired ring, by name
    var index: int

    constructor (sequence: int, buf: nat)
      ensures this.sequence == sequence && this.buf == buf
    {
      this.sequence := sequence;
      this.buf := buf;
      this.index := 0;
    }
  }

  function Parent(j: nat): nat {
    if j == 0 then 0 else (j - 1) / 2
  }

  /** Every stored item knows its position; in particular no item is stored twice. */
  ghost predicate Indexed(h: seq<MinHeapItem>)
    reads h
  {
    forall i :: 0 <= i < |h| ==> h[i].index == i
  }

  /** The heap order below position n, at every position but the child `up` and the children of
      `down`. */
  ghost predicate OrderedExcept(h: seq<MinHeapItem>, n: nat, up: int, down: int)
    requires n <= |h|
  {
    && (forall j :: 1 <= j < n && j != up && Parent(j) != down ==> h[Parent(j)].sequence <= h[j].sequence)
    && (forall j :: 1 <= j < n && Parent(j) >= 1 && (Parent(j) == up || Parent(j) == down) ==>
          h[Parent(Parent(j))].sequence <= h[j].sequence)
  }

  ghost predicate Ordered(h: seq<MinHeapItem>) {
    forall j :: 1 <= j < |h| ==> h[Parent(j)].sequence <= h[j].sequence
  }

  /** In a heap nothing comes before the root. */
  lemma {:induction false} RootIsLeast(h: seq<MinHeapItem>, j: nat)
    requires Ordered(h) && j < |h|
    ensures h[0].sequence <= h[j].sequence
    decreases j
  {
    if j > 0 {
      RootIsLeast(h, Parent(j));
    }
  }

  function Swapped<T>(h: seq<T>, i: nat, j: nat): (g: seq<T>)
    requires i < |h| && j < |h|
    ensures |g| == |h| && multiset(g) == multiset(h)
  {
    h[i := h[j]][j := h[i]]
  }

  /** Swapping a too small item with its parent moves the defect up. */
  lemma SiftUpStep(h: seq<MinHeapItem>, j: nat)
    requires 1 <= j < |h| && OrderedExcept(h, |h|, j, -1)
    requires h[j].sequence < h[Parent(j)].sequence
    ensures OrderedExcept(Swapped(h, Parent(j), j), |h|, Parent(j), -1)
  {
  }

  /** Swapping a too large item with its smaller child moves the defect down. */
  lemma SiftDownStep(h: seq<MinHeapItem>, n: nat, i: nat, j: nat)
    requires n <= |h| && i < j < n && Parent(j) == i && OrderedExcept(h, n, -1, i)
    requires forall k :: 1 <= k < n && Parent(k) == i ==> h[j].sequence <= h[k].sequence
    requires h[j].sequence < h[i].sequence
    ensures OrderedExcept(Swapped(h, i, j), n, -1, j)
  {
  }

  ghost function Members(h: seq<MinHeapItem>): set<MinHeapItem> {
    set x | x in h
  }

  /** Rearranged items are the same objects. */
  lemma SameMembers(a: seq<MinHeapItem>, b: seq<MinHeapItem>)
    requires multiset(a) == multiset(b)
    ensures Members(a) == Members(b)
  {
    forall x ensures x in a <==> x in b {
      assert x in multiset(a) <==> x in multiset(b);
    }
  }

  lemma TakenFrom(all: seq<MinHeapItem>, rest: seq<MinHeapItem>, item: MinHeapItem)
    requires all == rest + [item] && item !in rest
    ensures Members(rest) == Members(all) - {item} && item in Members(all)
  {
  }

  class WrapHeap {
    var heap: seq<MinHeapItem>

    ghost predicate Valid()
      reads this, heap
    {
      Indexed(heap) && Ordered(heap)
    }

    constructor ()
      ensures heap == [] && Valid()
    {
      heap := [];
    }

    method Len() returns (n: nat)
      ensures n == |heap|
    {
      n := |heap|;
    }

    method Less(i: nat, j: nat) returns (less: bool)
      requires i < |heap| && j < |heap|
      ensures less <==> heap[i].sequence < heap[j].sequence
    {
      less := heap[i].sequence < heap[j].sequence;
    }

    method Swap(i: nat, j: nat)
      requires Indexed(heap) && i < |heap| && j < |heap|
      modifies this, Members(heap)
      ensures heap == Swapped(old(heap), i, j)
      ensures Members(heap) == Members(old(heap))
      ensures Indexed(heap)
    {
      SameMembers(Swapped(heap, i, j), heap);
      heap := Swapped(heap, i, j);
      heap[i].index := i;
      heap[j].index := j;
    }

    method Up(j0: nat)
      requires Indexed(heap) && j0 < |heap|
      requires OrderedExcept(heap, |heap|, j0, -1)
      modifies this, Members(heap)
      ensures Valid()
      ensures multiset(heap) == multiset(old(heap)) && Members(heap) == Members(old(heap))
    {
      var j: nat := j0;
      while true
        invariant |heap| == |old(heap)| && j < |heap| && Indexed(heap)
        invariant OrderedExcept(heap, |heap|, j, -1)
        invariant multiset(heap) == multiset(old(heap)) && Members(heap) == Members(old(heap))
        decreases j
      {
        var i: nat := Parent(j);
        if i == j { break; }
        var less := Less(j, i);
        if !less { break; }
        SiftUpStep(heap, j);
        Swap(i, j);
        j := i;
      }
    }

    /** The choice of child in down; j == i when position i has none below n. */
    method SmallerChild(i: nat, n: nat) returns (j: nat)
      requires i < n <= |heap|
      ensures i <= j < n && (j != i ==> Parent(j) == i)
      ensures forall k :: 1 <= k < n && Parent(k) == i ==> j != i && heap[j].sequence <= heap[k].sequence
    {
      var j1: nat := 2 * i + 1;
      if j1 >= n { return i; }
      j := j1;
      var j2: nat := j1 + 1;
      if j2 < n {
        var right := Less(j2, j1);
        if right { j := j2; }
      }
      assert forall k :: 1 <= k < n && Parent(k) == i ==> k == j1 || k == j2;
    }

    method Down(n: nat)
      requires Indexed(heap) && n <= |heap|
      requires OrderedExcept(heap, n, -1, 0)
      modifies this, Members(heap)
      ensures Indexed(heap) && |heap| == |old(heap)|
      ensures OrderedExcept(heap, n, -1, -1)
      ensures forall k :: n <= k < |heap| ==> heap[k] == old(heap)[k]
      ensures multiset(heap) == multiset(old(heap)) && Members(heap) == Members(old(heap))
    {
      var i: nat := 0;
      while true
        invariant |heap| == |old(heap)| && Indexed(heap)
        invariant OrderedExcept(heap, n, -1, i)
        invariant forall k :: n <= k < |heap| ==> heap[k] == old(heap)[k]
        invariant multiset(heap) == multiset(old(heap)) && Members(heap) == Members(old(heap))
        decreases n - i
      {
        if i >= n { break; }
        var j := SmallerChild(i, n);
        if j == i { break; }
        var less := Less(j, i);
        if !less { break; }
        SiftDownStep(heap, n, i, j);
        Swap(i, j);
        i := j;
      }
    }

    method Push(item: MinHeapItem)
      requires Valid() && item !in heap
      modifies this, Members(heap), item
      ensures Valid()
      ensures multiset(heap) == multiset(old(heap)) + multiset{item}
      ensures Members(heap) == Members(old(heap)) + {item}
    {
      item.index := |heap|;
      heap := heap + [item];
      assert Members(heap) == Members(old(heap)) + {item};
      Up(|heap| - 1);
    }

    method Pick() returns (item: MinHeapItem?)
      requires Valid()
      modifies this, Members(heap)
      ensures Valid()
      ensures item == null <==> old(heap) == []
      ensures item == null ==> heap == old(heap)
      ensures item != null ==>
                && multiset(heap) + multiset{item} == multiset(old(heap))
                && |heap| == |old(heap)| - 1 && item !in heap && item in old(heap) && item.index == -1
                && Members(heap) == Members(old(heap)) - {item}
                && (forall other :: other in old(heap) ==> item.sequence <= other.sequence)
    {
      if |heap| == 0 { return null; }
      forall j: nat | j < |heap| ensures heap[0].sequence <= heap[j].sequence {
        RootIsLeast(heap, j);
      }
      var n: nat := |heap| - 1;
      Swap(0, n);
      Down(n);
      ghost var all := heap;
      item := Shrink();
      TakenFrom(all, heap, item);
    }

    /** MinHeap.Pop: drops the last position. */
    method Shrink() returns (item: MinHeapItem)
      requires heap != [] && Indexed(heap) && OrderedExcept(heap, |heap| - 1, -1, -1)
      modifies this, Members(heap)
      ensures item == old(heap)[|old(heap)| - 1] && item.index == -1
      ensures heap == old(heap)[..|old(heap)| - 1] && heap + [item] == old(heap)
      ensures Valid() && item !in heap
    {
      var n := |heap|;
      item := heap[n - 1];
      item.index := -1;
      assert heap == heap[..n - 1] + [item];
      heap := heap[..n - 1];
    }
  }
}
