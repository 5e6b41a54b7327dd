/**
  Moving bytes from one buffer list to another. The lists may draw on the same
  pool, in which case a block the source gives up becomes available to the
  destination, or on pools of their own.
 */
module BufCopying {
  import opened Basics
  import opened Layout
  import opened FifoSpec
  import opened LinkList
  import opened MemoryPool
  import opened BufLists
  import opened Placement
  import opened Transfer

  /** Two pools that share no memory, or the same pool. */
  ghost predicate PoolsApart(p: Pool, q: Pool) {
    p == q || forall b, c :: b in p.arena && c in q.arena ==> b != c && b.data != c.data
  }

  /** Two different lists, ready for use, inside `region`. */
  ghost predicate Pair(dst: BufList, src: BufList, region: set<Link>)
    reads dst, dst.pool, dst.list, dst.list.nodes, Datas(dst.list.Members())
    reads src, src.pool, src.list, src.list.nodes, Datas(src.list.Members())
  {
    && dst != src && dst.list != src.list && PoolsApart(dst.pool, src.pool)
    && dst.Ready() && src.Ready() && dst.Within(region) && src.Within(region)
    && (forall i, j :: 0 <= i < |dst.list.nodes| && 0 <= j < |src.list.nodes| ==>
          dst.list.nodes[i] != src.list.nodes[j])
  }

  /** The list has no tail block with space left. */
  ghost predicate Full(p: BufList)
    reads p
  {
    NeedsBlock(Fifo(p.Size(), 0, p.chain))
  }

  /** The place to write to next: the tail block, or none if there is no space in it. */
  ghost predicate Target(dst: BufList, cb: Link?)
    reads dst, dst.list
  {
    if cb == null then Full(dst) else cb == dst.list.tail
  }

  /** The indices of the block to write to and of the block to read from. */
  lemma PairEnds(dst: BufList, src: BufList, region: set<Link>)
    requires Pair(dst, src, region)
    ensures dst != src && dst.list != src.list && dst.Size() > 0 && src.Size() > 0
    ensures dst.list.tail == null <==> dst.chain == []
    ensures Target(dst, dst.list.tail)
    ensures dst.chain != [] ==> dst.list.tail.wri == |dst.chain[|dst.chain| - 1].bytes|
    ensures src.list.head == null <==> src.chain == []
    ensures src.Cursor(src.list.head)
    ensures src.chain != [] ==>
              src.list.head.wri == |src.chain[0].bytes| && src.list.head.rdi == src.chain[0].rdi
    ensures dst.list.tail != null ==> dst.list.tail in region && dst.list.tail.data in Datas(region)
    ensures src.list.head != null ==> src.list.head in region
  {
  }

  method CopyByte(dst: BufList, src: BufList, dcb: Link, scb: Link, ghost region: set<Link>)
    requires Pair(dst, src, region)
    requires dst.chain != [] && dcb == dst.list.tail && |dst.chain[|dst.chain| - 1].bytes| < dst.Size()
    requires src.chain != [] && scb == src.list.head && src.chain[0].rdi < |src.chain[0].bytes| <= src.Size()
    modifies dst`chain, dcb`wri, dcb.data, src`chain, scb`rdi
    ensures Pair(dst, src, region)
    ensures dst.chain == Append(old(dst.chain), old(src.chain)[0].bytes[old(src.chain)[0].rdi])
    ensures src.chain == Advance(old(src.chain))
  {
    hide Shows;
    var x := src.Fetch(scb);
    forall j | 0 <= j < |src.list.nodes|
      ensures src.list.nodes[j] != dcb && src.list.nodes[j].data != dcb.data
    {
      assert dst.pool.Fits(dcb) && src.pool.Fits(src.list.nodes[j]);
    }
    dst.Store(dcb, x);
  }

  method CopyAlloc(dst: BufList, src: BufList, ghost region: set<Link>) returns (cb: Link?)
    requires Pair(dst, src, region)
    modifies dst`chain, dst.list, dst.pool`free, region
    ensures Pair(dst, src, region)
    ensures cb == null ==> dst.chain == old(dst.chain) && |dst.pool.free| == |old(dst.pool.free)| == 0
    ensures cb != null ==>
              && dst.chain == old(dst.chain) + [Blk(0, [])] && |dst.pool.free| == |old(dst.pool.free)| - 1
              && cb == dst.list.tail
  {
    hide Shows;
    cb := dst.Alloc();
  }

  method CopyFree(dst: BufList, src: BufList, ghost region: set<Link>) returns (cb: Link?)
    requires Pair(dst, src, region) && src.chain != []
    modifies src`chain, src.list, src.pool`free, region
    ensures Pair(dst, src, region)
    ensures src.chain == old(src.chain)[1..] && |src.pool.free| == |old(src.pool.free)| + 1
    ensures cb == src.list.head
  {
    hide Shows;
    cb := src.Free();
  }

  /** Free blocks of the pools and blocks of the lists; a shared pool is counted once. */
  ghost function BlocksInPlay(dst: BufList, src: BufList): nat
    reads dst, src, dst.pool, src.pool
  {
    |dst.chain| + |src.chain| + |dst.pool.free| + if dst.pool == src.pool then 0 else |src.pool.free|
  }

  /** Blocks that are or can become blocks of the destination. */
  ghost function Kept(dst: BufList, src: BufList): nat
    reads dst, src, dst.pool
  {
    |dst.chain| + |dst.pool.free| + if dst.pool == src.pool then |src.chain| else 0
  }

  lemma KeptBlocks(dst: BufList, src: BufList)
    ensures Kept(dst, src) == |dst.pool.free| + |dst.chain| + if dst.pool == src.pool then |src.chain| else 0
  {
  }

  /** The block to copy into: the tail `cb`, or a new one. */
  method NextDestination(dst: BufList, src: BufList, cb: Link?, ghost d0: Chain, ghost s0: Chain, ghost n: nat,
                         ghost strong: bool, ghost region: set<Link>) returns (nb: Link?)
    requires Pair(dst, src, region) && Carried(dst.Size(), src.Size(), d0, s0, dst.chain, src.chain, n)
    requires Target(dst, cb)
    requires strong ==> Strong(dst.Size(), dst.chain)
    modifies dst`chain, dst.list, dst.pool`free, region
    ensures Pair(dst, src, region) && Carried(dst.Size(), src.Size(), d0, s0, dst.chain, src.chain, n)
    ensures BlocksInPlay(dst, src) == old(BlocksInPlay(dst, src)) && Kept(dst, src) == old(Kept(dst, src))
    ensures Target(dst, nb)
    ensures nb == null ==> Full(dst) && |dst.pool.free| == 0 && dst.chain == old(dst.chain)
    ensures nb != null ==> nb == dst.list.tail && dst.chain != [] && nb in region && nb.data in Datas(region)
    ensures cb != null ==> nb == cb
    ensures dst.chain == if nb != null && cb == null then old(dst.chain) + [Blk(0, [])] else old(dst.chain)
    ensures nb != null && cb == null ==> |old(dst.pool.free)| > 0
    ensures strong ==> Pledged(dst.Size(), dst.chain)
    ensures strong && (cb != null || nb == null || old(dst.chain) == []) ==> Strong(dst.Size(), dst.chain)
  {
    hide Carried, Pledged, Strong, Pair, Content;
    PairEnds(dst, src, region);
    if strong {
      StrongIsPledged(dst.Size(), dst.chain);
    }
    nb := cb;
    if nb == null {
      CarriedAlloc(dst.Size(), src.Size(), d0, s0, dst.chain, src.chain, n);
      nb := CopyAlloc(dst, src, region);
    }
    PairEnds(dst, src, region);
  }

  /** Bytes from the head of the source to the tail of the destination, until either block or the request is done. */
  method CopyBlock(dst: BufList, src: BufList, dcb: Link, scb: Link, i0: nat, num: nat,
                   ghost d0: Chain, ghost s0: Chain, ghost strong: bool, ghost region: set<Link>)
    returns (i: nat, nb: Link?, szS: nat)
    requires Pair(dst, src, region) && Carried(dst.Size(), src.Size(), d0, s0, dst.chain, src.chain, i0)
    requires dst.chain != [] && dcb == dst.list.tail && src.chain != [] && scb == src.list.head && i0 < num
    requires strong ==> Pledged(dst.Size(), dst.chain)
    modifies dst`chain, dcb`wri, dcb.data, src`chain, scb`rdi
    ensures Pair(dst, src, region) && Carried(dst.Size(), src.Size(), d0, s0, dst.chain, src.chain, i)
    ensures dst.chain != [] && Target(dst, nb)
    ensures src.chain != [] && szS == |src.chain[0].bytes| - src.chain[0].rdi && (szS == 0 <==> Drained(src.chain[0]))
    ensures src.Cursor(scb)
    ensures i0 <= i <= num && (i == num || nb == null || szS == 0)
    ensures i == i0 ==> nb != null || |old(dst.chain)[|old(dst.chain)| - 1].bytes| == dst.Size()
    ensures |dst.chain| == |old(dst.chain)| && |src.chain| == |old(src.chain)|
    ensures BlocksInPlay(dst, src) == old(BlocksInPlay(dst, src)) && Kept(dst, src) == old(Kept(dst, src))
    ensures i == i0 ==> dst.chain == old(dst.chain) && src.chain == old(src.chain)
    ensures Fills(dst.Size(), num, old(dst.chain), old(src.chain), i0, dst.chain, src.chain, i, nb == null)
    ensures strong && i > i0 ==> Strong(dst.Size(), dst.chain)
  {
    hide Carried, Pledged, Strong, Pair;
    PairEnds(dst, src, region);
    ghost var md, ms := dst.Size(), src.Size();
    CarriedBounds(md, ms, d0, s0, dst.chain, src.chain, i0);
    i := i0;
    var szD: nat := dst.Size() - dcb.wri;
    szS := scb.wri - scb.rdi;
    while szD > 0 && szS > 0 && i < num
      invariant Pair(dst, src, region) && Carried(md, ms, d0, s0, dst.chain, src.chain, i)
      invariant |dst.chain| == |old(dst.chain)| && szD == md - |dst.chain[|dst.chain| - 1].bytes|
      invariant |src.chain| == |old(src.chain)| && szS == |src.chain[0].bytes| - src.chain[0].rdi
      invariant |src.chain[0].bytes| <= ms
      invariant i0 <= i <= num
      invariant i == i0 ==> dst.chain == old(dst.chain) && src.chain == old(src.chain)
      invariant strong ==> Pledged(md, dst.chain)
      invariant i > i0 ==> dst.chain[|dst.chain| - 1].bytes != [] && src.chain[0].bytes != []
      invariant strong && i > i0 ==> Strong(md, dst.chain)
    {
      CarriedByte(md, ms, d0, s0, dst.chain, src.chain, i);
      if strong {
        PledgeKept(md, dst.chain, src.chain[0].bytes[src.chain[0].rdi]);
      }
      CopyByte(dst, src, dcb, scb, region);
      szD := szD - 1;
      szS := szS - 1;
      i := i + 1;
    }
    nb := if szD == 0 then null else dcb;
  }

  /** Blocks that are or can become blocks of the destination. */
  function OriginKept(o: Origin): nat {
    o.free + |o.d| + if o.shared then |o.s| else 0
  }

  ghost predicate BothStrong(o: Origin) {
    Strong(o.md, o.d) && Strong(o.ms, o.s)
  }

  ghost predicate SharedTight(o: Origin) {
    o.shared && Tight(Fifo(o.md, o.free, o.d), o.s)
  }

  /** The pools and their blocks are still those of the origin. */
  ghost predicate SameSetting(o: Origin, dst: BufList, src: BufList)
    reads dst, src
  {
    o.md == dst.Size() && o.ms == src.Size() && o.shared == (dst.pool == src.pool)
  }

  /** The source goes on at a block that it will not return. */
  ghost predicate Lasting(dst: BufList, src: BufList)
    reads dst, src
  {
    src.chain != [] && (dst.chain == [] || !Drained(src.chain[0]) || |src.chain[0].bytes| < src.Size())
  }

  /** What the copy keeps in every step, with `n` bytes behind. */
  ghost predicate Moving(o: Origin, dst: BufList, src: BufList, n: nat, region: set<Link>)
    reads dst, dst.pool, dst.list, dst.list.nodes, Datas(dst.list.Members())
    reads src, src.pool, src.list, src.list.nodes, Datas(src.list.Members())
  {
    && Pair(dst, src, region) && SameSetting(o, dst, src)
    && Carried(dst.Size(), src.Size(), o.d, o.s, dst.chain, src.chain, n)
    && Kept(dst, src) == OriginKept(o)
    && |src.chain| <= |o.s| && (SharedTight(o) ==> |src.chain| == |o.s|)
  }

  /** Moreover, what holds between two rounds, with the given places to go on. */
  ghost predicate Copying(o: Origin, num: nat, dst: BufList, src: BufList, dcb: Link?, scb: Link?, n: nat,
                          region: set<Link>)
    reads dst, dst.pool, dst.list, dst.list.nodes, Datas(dst.list.Members())
    reads src, src.pool, src.list, src.list.nodes, Datas(src.list.Members())
  {
    && Moving(o, dst, src, n, region)
    && Target(dst, dcb) && src.Cursor(scb) && (scb != null ==> scb == src.list.head && src.chain != [] && scb in region)
    && (scb != null && dcb == null ==> Lasting(dst, src))
    && (BothStrong(o) ==>
          && Strong(dst.Size(), dst.chain)
          && (scb != null && dcb == null && dst.chain != [] ==> !Drained(src.chain[0])))
    && Between(o, num, dst.chain, src.chain, n, dcb == null, scb == null)
  }

  lemma StrongOrigin(o: Origin)
    ensures BothStrong(o) ==> Strong(o.md, o.d) && Strong(o.ms, o.s)
  {
  }

  /** A tight destination on the same pool is full before the source can return its head block. */
  lemma NoReturn(o: Origin, dst: BufList, src: BufList, n: nat, region: set<Link>)
    requires Pair(dst, src, region) && SameSetting(o, dst, src)
    requires Carried(dst.Size(), src.Size(), o.d, o.s, dst.chain, src.chain, n)
    requires Kept(dst, src) == OriginKept(o)
    requires SharedTight(o) ==> |src.chain| == |o.s|
    requires dst.chain != [] && src.chain != [] && Drained(src.chain[0])
    ensures src.list.head != null && (SharedTight(o) ==> src.list.head.wri != src.Size())
  {
    hide Carried, Tight, Pair;
    PairEnds(dst, src, region);
    if SharedTight(o) && src.list.head.wri == src.Size() {
      TightKeepsBlocks(dst.Size(), o.d, o.s, dst.chain, src.chain, n, o.free, |dst.pool.free|);
    }
  }

  /** Past the end of the source block `cb`, which still has `sz` bytes. */
  method NextSource(dst: BufList, src: BufList, cb: Link, sz: nat, ghost o: Origin, ghost n: nat,
                    ghost region: set<Link>) returns (nb: Link?)
    requires Pair(dst, src, region) && SameSetting(o, dst, src)
    requires Carried(dst.Size(), src.Size(), o.d, o.s, dst.chain, src.chain, n)
    requires dst.chain != [] && src.chain != [] && cb == src.list.head && (sz == 0 <==> Drained(src.chain[0]))
    requires Kept(dst, src) == OriginKept(o)
    requires |src.chain| <= |o.s| && (SharedTight(o) ==> |src.chain| == |o.s|)
    modifies src`chain, src.list, src.pool`free, region
    ensures Pair(dst, src, region) && Carried(dst.Size(), src.Size(), o.d, o.s, dst.chain, src.chain, n)
    ensures dst.chain == old(dst.chain) && BlocksInPlay(dst, src) == old(BlocksInPlay(dst, src))
    ensures Kept(dst, src) == old(Kept(dst, src))
    ensures |src.chain| <= |o.s| && (SharedTight(o) ==> |src.chain| == |o.s|)
    ensures src.Cursor(nb) && |src.chain| <= |old(src.chain)|
    ensures sz > 0 ==> nb == cb
    ensures sz == 0 && nb != null ==> |src.chain| < |old(src.chain)|
    ensures nb != null ==> nb == src.list.head && nb in region && Lasting(dst, src)
    ensures nb != null && Strong(o.ms, o.s) ==> !Drained(src.chain[0])
    ensures MovesOn(o.ms, old(src.chain), src.chain, nb == null)
  {
    hide Carried, Strong, Pair, Content, SharedTight;
    PairEnds(dst, src, region);
    nb := cb;
    if sz == 0 {
      CarriedBounds(dst.Size(), src.Size(), o.d, o.s, dst.chain, src.chain, n);
      NoReturn(o, dst, src, n, region);
      if cb.wri == src.Size() {
        CarriedFree(dst.Size(), src.Size(), o.d, o.s, dst.chain, src.chain, n);
        nb := CopyFree(dst, src, region);
        PairEnds(dst, src, region);
      } else {
        nb := null;
      }
    }
  }

  ghost function Effort(src: BufList, dcb: Link?, scb: Link?, left: nat): nat
    reads src
  {
    2 * left + 2 * |src.chain| + (if dcb == null then 0 else 1) + (if scb == null then 0 else 2)
  }

  /** The blocks of the destination's pool that are free. */
  lemma FreeBlocks(o: Origin, dst: BufList, src: BufList)
    requires SameSetting(o, dst, src) && Kept(dst, src) == OriginKept(o)
    ensures Available(o, dst.chain, src.chain) <==> |dst.pool.free| > 0
  {
  }

  lemma FullMeans(dst: BufList)
    ensures Full(dst) <==> FullTail(dst.Size(), dst.chain)
    ensures Target(dst, null) ==> Full(dst)
  {
  }

  /** The bytes of a round, and moving on in the source. */
  method CopyOn(dst: BufList, src: BufList, dcb: Link, scb: Link, n0: nat, num: nat,
                ghost o: Origin, ghost region: set<Link>)
    returns (n: nat, nd: Link?, ns: Link?, ghost d2: Chain, ghost s2: Chain)
    requires Moving(o, dst, src, n0, region) && n0 < num
    requires dst.chain != [] && dcb == dst.list.tail && src.chain != [] && scb == src.list.head && scb in region
    requires BothStrong(o) ==> Pledged(dst.Size(), dst.chain)
    requires dcb in region && dcb.data in Datas(region)
    modifies src`chain, src.list, src.pool`free, region, dst`chain, Datas(region)
    ensures Moving(o, dst, src, n, region) && BlocksInPlay(dst, src) == old(BlocksInPlay(dst, src))
    ensures dst.chain == d2 && dst.chain != [] && Target(dst, nd) && src.Cursor(ns)
    ensures ns != null ==> ns == src.list.head && src.chain != [] && ns in region && Lasting(dst, src)
    ensures BothStrong(o) && n > n0 ==> Strong(dst.Size(), dst.chain)
    ensures BothStrong(o) && ns != null ==> !Drained(src.chain[0])
    ensures Fills(o.md, num, old(dst.chain), old(src.chain), n0, d2, s2, n, nd == null)
    ensures s2 != [] && MovesOn(o.ms, s2, src.chain, ns == null) && forall i :: 0 < i < |s2| ==> s2[i].rdi == 0
  {
    hide Carried, Pledged, Strong, Base, Pair, BlocksInPlay, Kept, Full, Target, BufList.Cursor;
    hide BothStrong, SharedTight, PoolsApart, BufList.Ready, BufList.Within, BufList.Valid;
    hide OriginKept, Fills, MovesOn;
    StrongOrigin(o);
    PairEnds(dst, src, region);
    ghost var d, s := dst.chain, src.chain;
    var szS;
    n, nd, szS := CopyBlock(dst, src, dcb, scb, n0, num, o.d, o.s, BothStrong(o), region);
    d2, s2 := dst.chain, src.chain;
    FilledSource(o.md, num, d, s, n0, d2, s2, n, nd == null);
    CarriedPlaced(o.md, o.ms, o.d, o.s, d2, s2, n);
    ns := NextSource(dst, src, scb, szS, o, n, region);
  }

  /** One round; without a destination block there is nothing more to do. */
  method CopyRound(dst: BufList, src: BufList, dcb: Link?, scb: Link, n0: nat, num: nat,
                   ghost o: Origin, ghost region: set<Link>)
    returns (n: nat, nd: Link?, ns: Link?, stop: bool)
    requires Copying(o, num, dst, src, dcb, scb, n0, region) && n0 < num
    modifies dst`chain, dst.list, dst.pool`free, src`chain, src.list, src.pool`free, region, Datas(region)
    ensures BlocksInPlay(dst, src) == old(BlocksInPlay(dst, src)) && n0 <= n <= num
    ensures Copying(o, num, dst, src, nd, ns, n, region)
    ensures stop ==> nd == null && ns != null && Full(dst) && |dst.pool.free| == 0
    ensures !stop ==> Effort(src, nd, ns, num - n) < old(Effort(src, dcb, scb, num - n0))
  {
    hide Carried, Pledged, Strong, Base, Pair, BlocksInPlay, Kept, Full, Target, BufList.Cursor, Between;
    hide BothStrong, SharedTight, Drained, PoolsApart, BufList.Ready, BufList.Within, BufList.Valid;
    hide FullTail, Available, OriginKept, Placed, Body, IsRound, Allocates, Fills, MovesOn;
    n, ns, stop := n0, scb, false;
    PairEnds(dst, src, region);
    StrongOrigin(o);
    FreeBlocks(o, dst, src);
    FullMeans(dst);
    CarriedPlaced(o.md, o.ms, o.d, o.s, dst.chain, src.chain, n0);
    ghost var d, s := dst.chain, src.chain;
    nd := NextDestination(dst, src, dcb, o.d, o.s, n, BothStrong(o), region);
    if nd == null {
      stop := true;
      return;
    }
    ghost var d1 := dst.chain;
    AllocatesIf(o, d, s, dcb == null, d1);
    ghost var d2, s2;
    n, nd, ns, d2, s2 := CopyOn(dst, src, nd, scb, n, num, o, region);
    FilledSource(o.md, num, d1, s, n0, d2, s2, n, nd == null);
    ghost var r := Round(d, s, n0, d1, d2, s2, n, src.chain);
    MakeRound(o, num, r, dcb == null, nd == null, ns == null);
    RoundProgress(o, num, r, dcb == null, nd == null, ns == null);
    RoundBetween(o, num, r, dcb == null, nd == null, ns == null);
  }

  /** Why the copy has stopped: the request is met, the source has nothing within reach, or the destination no room. */
  ghost predicate CopyDone(dst: BufList, src: BufList, n: nat, num: nat)
    reads dst, src, dst.pool
  {
    n == num || Reach(src.Size(), src.chain) == [] || (FullTail(dst.Size(), dst.chain) && |dst.pool.free| == 0)
  }

  /** The number of bytes moved, and the blocks of both lists, from the state before and the way the copy ended. */
  lemma CopyCount(o: Origin, dst: BufList, src: BufList, dcb: Link?, scb: Link?, n: nat, num: nat, region: set<Link>)
    requires Copying(o, num, dst, src, dcb, scb, n, region) && n <= num
    requires n == num || scb == null || (dcb == null && scb != null && Full(dst) && |dst.pool.free| == 0)
    ensures n == CopyLength(Fifo(dst.Size(), o.free, o.d), src.Size(), o.s, dst.pool == src.pool, num)
    ensures CopyLayout(o, num, dst.chain, src.chain, n) && CopyDone(dst, src, n, num)
  {
    hide Carried, Tight, Base, Reach, CopyLength, Pair, Content, Between, CopyLayout, Placed, Available, BothStrong;
    CarriedPlaced(o.md, o.ms, o.d, o.s, dst.chain, src.chain, n);
    FreeBlocks(o, dst, src);
    FullMeans(dst);
    CopyEnds(o, num, dst.chain, src.chain, n, dcb == null, scb == null);
    if n < num && (src.Cursor(null) || (Drained(src.chain[0]) && |src.chain[0].bytes| < src.Size())) {
      ReachNothing(src.Size(), src.chain);
    }
    if dst.pool != src.pool {
      CopyExact(dst.Size(), src.Size(), o.d, o.s, dst.chain, src.chain, n, num, o.free, |dst.pool.free|);
    } else {
      CopySharedExact(dst.Size(), o.d, o.s, dst.chain, src.chain, n, num, o.free, |dst.pool.free|);
    }
  }

  /**
    The result `n` is the number of bytes moved. If it falls short of the
    request, then the source has nothing more to give or the destination no room.
   */
  method BufCopy(dst: BufList, src: BufList, num: nat, ghost region: set<Link>) returns (n: nat)
    requires Pair(dst, src, region) && Base(dst.Size(), dst.chain) && Base(src.Size(), src.chain)
    modifies dst`chain, dst.list, dst.pool`free, src`chain, src.list, src.pool`free, region, Datas(region)
    ensures Pair(dst, src, region)
    ensures Carried(dst.Size(), src.Size(), old(dst.chain), old(src.chain), dst.chain, src.chain, n)
    ensures n <= num && CopyDone(dst, src, n, num)
    ensures BlocksInPlay(dst, src) == old(BlocksInPlay(dst, src)) && Kept(dst, src) == old(Kept(dst, src))
    ensures |src.chain| <= |old(src.chain)|
    ensures Strong(dst.Size(), old(dst.chain)) && Strong(src.Size(), old(src.chain)) ==> Strong(dst.Size(), dst.chain)
    ensures n == CopyLength(old(dst.State()), src.Size(), old(src.chain), dst.pool == src.pool, num)
    ensures CopyLayout(Origin(dst.Size(), src.Size(), dst.pool == src.pool, old(dst.chain), old(src.chain),
                              old(|dst.pool.free|)), num, dst.chain, src.chain, n)
  {
    hide Carried, Strong, Base, Pair, Content, BlocksInPlay, Kept, Full, Target, BufList.Cursor, CopyLength;
    hide Weak, Tight, Between, CopyLayout, CopyDone;
    ghost var o := Origin(dst.Size(), src.Size(), dst.pool == src.pool, dst.chain, src.chain, |dst.pool.free|);
    PairEnds(dst, src, region);
    KeptBlocks(dst, src);
    CarriedStart(dst.Size(), src.Size(), o.d, o.s);
    BetweenStart(o, num);
    n := 0;
    var dcb := dst.list.PeekTail();
    var scb := src.list.PeekHead();
    var stop := false;
    while n < num
      invariant Copying(o, num, dst, src, dcb, scb, n, region) && n <= num
      invariant BlocksInPlay(dst, src) == old(BlocksInPlay(dst, src)) && !stop
      decreases Effort(src, dcb, scb, num - n)
    {
      if scb == null {
        break;
      }
      n, dcb, scb, stop := CopyRound(dst, src, dcb, scb, n, num, o, region);
      if stop {
        break;
      }
    }
    CopyCount(o, dst, src, dcb, scb, n, num, region);
  }
}
