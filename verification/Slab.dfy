/** Carving a memory chunk into blocks and handing them out (poolx/slab.go).  The mapped region is
    given by its address. */
module Slab {
  import opened RingIndex

  class MemoryBlock {
    const start: nat
    const size: nat
    var isFree: bool

    constructor (start: nat, size: nat)
      ensures this.start == start && this.size == size && isFree
    {
      this.start, this.size, isFree := start, size, true;
    }
  }

  lemma MultipleGrows(i: nat, j: nat, blockSize: nat)
    requires i < j
    ensures i * blockSize + blockSize <= j * blockSize
  {
    var d: nat := j - i - 1;
    assert d * blockSize >= 0;
    assert j == i + 1 + d;
  }

  /** Blocks carved at multiples of their size do not overlap and stay in the chunk. */
  lemma BlocksApart(chunkSize: nat, blockSize: nat, i: nat, j: nat)
    requires blockSize > 0 && i < j < chunkSize / blockSize
    ensures i * blockSize + blockSize <= j * blockSize
    ensures j * blockSize + blockSize <= chunkSize
  {
    MultipleGrows(i, j, blockSize);
    MultipleGrows(j, chunkSize / blockSize, blockSize);
  }

  class Chunk {
    const start: nat
    const size: nat
    const blockSize: nat
    const blocks: seq<MemoryBlock>
    var freeList: seq<MemoryBlock>
    var freeCount: int
    ghost var taken: nat

    /** Block i lies i block sizes into the chunk. */
    ghost predicate Carved() {
      && blockSize > 0 && |blocks| == size / blockSize
      && (forall i :: 0 <= i < |blocks| ==>
            blocks[i].start == start + i * blockSize && blocks[i].size == blockSize)
    }

    /** The first `taken` blocks are out, the others wait in order. */
    ghost predicate Valid()
      reads this, blocks
    {
      && Carved() && taken <= |blocks| < TWO32 && freeList == blocks[taken..]
      && (forall i :: 0 <= i < |blocks| ==> (blocks[i].isFree <==> taken <= i))
      && freeCount == Wrap32(0 - taken)
    }

    /** initChunk. */
    constructor (start: nat, chunkSize: nat, blockSize: nat)
      requires blockSize > 0 && chunkSize / blockSize < TWO32
      ensures Valid() && taken == 0 && this.start == start && size == chunkSize
      ensures this.blockSize == blockSize && fresh(blocks)
    {
      var made: seq<MemoryBlock> := [];
      var blockCount := chunkSize / blockSize;
      for i := 0 to blockCount
        invariant |made| == i
        invariant forall j :: 0 <= j < i ==>
                    fresh(made[j]) && made[j].start == start + j * blockSize
                    && made[j].size == blockSize && made[j].isFree
      {
        var block := new MemoryBlock(start + i * blockSize, blockSize);
        made := made + [block];
      }
      this.start, size, this.blockSize, blocks := start, chunkSize, blockSize, made;
      freeList, freeCount, taken := made, 0, 0;
    }

    /** Hands out the blocks in ascending order, and nil exactly when all are out.  The counter
        starts at zero and only falls, so the branch for a counter of zero, which would follow the
        nil slab pointer, is never taken. */
    method AllocBlock() returns (block: MemoryBlock?)
      requires Valid()
      modifies this`freeList, this`freeCount, this`taken, blocks
      ensures Valid()
      ensures block == null <==> old(taken) == |blocks|
      ensures block == null ==> taken == old(taken)
      ensures block != null ==>
                taken == old(taken) + 1 && block == blocks[old(taken)] && old(block.isFree) && !block.isFree
      ensures block != null ==> freeCount != 0
    {
      if |freeList| == 0 {
        return null;
      }
      BlocksDiffer();
      block := freeList[0];
      freeList := freeList[1..];
      block.isFree := false;
      Wrap32Add(0 - taken, -1);
      freeCount := Wrap32(freeCount - 1);
      taken := taken + 1;
    }

    lemma BlocksDiffer()
      requires Carved()
      ensures forall i, j :: 0 <= i < j < |blocks| ==> blocks[i] != blocks[j]
    {
    }
  }

  /** Any two blocks of a chunk are disjoint, in ascending order and inside it. */
  lemma BlocksDisjoint(c: Chunk, i: nat, j: nat)
    requires c.Carved() && i < j < |c.blocks|
    ensures c.start <= c.blocks[i].start
    ensures c.blocks[i].start + c.blocks[i].size <= c.blocks[j].start
    ensures c.blocks[j].start + c.blocks[j].size <= c.start + c.size
  {
    BlocksApart(c.size, c.blockSize, i, j);
  }
}
