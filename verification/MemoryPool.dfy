/**
  The fixed-block memory pool the buffer lists draw on, reduced to its contract:
  a block is handed out only while it is free, and only a block that has been
  handed out can be given back.
 */
module MemoryPool {
  import opened Basics
  import opened LinkList

  /** `sizeof(MEM_BUF)` on the 32-bit target: two pointers and two 16-bit indices. */
  const HEADER := 12

  /** Data bytes per block; 16-bit arithmetic, and 0 for a pool without a block size. */
  function DataSize(blockSize: nat): nat {
    if blockSize == 0 then 0 else (blockSize - HEADER) % 0x1_0000
  }

  /** On a block size that leaves room for data: all but two 32-bit pointers and two 16-bit indices. */
  lemma SizeInNumbers(blockSize: nat)
    ensures 12 < blockSize <= 0xFFFF ==> DataSize(blockSize) + 2 * 4 + 2 * 2 == blockSize
    ensures 0 < blockSize < 12 ==> DataSize(blockSize) + 12 == blockSize + 0x1_0000
    ensures blockSize == 0 ==> DataSize(blockSize) == 0
  {
  }

  class Pool {
    const blockSize: nat
    /** All blocks of the pool, handed out or not. */
    const arena: set<Link>
    /** The block an array of data belongs to. */
    ghost const home: map<array<byte>, Link>
    var free: set<Link>

    /** The block has room for data, which no other block shares. */
    ghost predicate Fits(b: Link) {
      b.data.Length == blockSize - HEADER && b.data in home && home[b.data] == b
    }

    /** All blocks are made alike. */
    ghost predicate Sound() {
      blockSize > HEADER && forall b {:trigger Fits(b)} :: b in arena ==> Fits(b)
    }

    ghost predicate Valid()
      reads this
    {
      Sound() && free <= arena
    }

    /** `osMemoryPoolNew`, for a block size that leaves room for data. */
    constructor (count: nat, blockSize: nat)
      requires HEADER < blockSize
      ensures Valid() && this.blockSize == blockSize
      ensures free == arena && |arena| == count && fresh(arena) && forall b :: b in arena ==> fresh(b.data)
    {
      this.blockSize := blockSize;
      var s: set<Link> := {};
      ghost var h: map<array<byte>, Link> := map[];
      while |s| < count
        invariant |s| <= count && fresh(s)
        invariant forall b :: b in s ==> b.data.Length == blockSize - HEADER && fresh(b.data)
        invariant forall b :: b in s ==> b.data in h && h[b.data] == b
      {
        var b := new Link(blockSize - HEADER);
        s, h := s + {b}, h[b.data := b];
      }
      arena, free, home := s, s, h;
    }

    /** `osMemoryPoolAlloc` without waiting. */
    method Alloc() returns (b: Link?)
      modifies `free
      ensures old(free) == {} ==> b == null && free == {}
      ensures old(free) != {} ==> b != null && b in old(free) && free == old(free) - {b}
    {
      if free == {} {
        b := null;
      } else {
        b :| b in free;
        free := free - {b};
      }
    }

    /** `osMemoryPoolFree`: fails, without effect, for anything that is not currently handed out. */
    method Free(b: Link?) returns (ok: bool)
      modifies `free
      ensures ok <==> b != null && b in arena && b !in old(free)
      ensures free == if ok then old(free) + {b} else old(free)
    {
      ok := b != null && b in arena && b !in free;
      if ok {
        free := free + {b};
      }
    }

    /** `osMemoryPoolGetSpace`. */
    method GetSpace() returns (n: nat)
      ensures n == |free|
    {
      n := |free|;
    }

    /** `osMemoryPoolGetBlockSize`. */
    method GetBlockSize() returns (n: nat)
      ensures n == blockSize
    {
      n := blockSize;
    }
  }
}
