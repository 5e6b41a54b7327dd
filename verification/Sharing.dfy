/**
  Several lists on one pool, in memory. Every block of the pool is always either
  free or in exactly one of the lists, and an operation on one list leaves all
  others alone. This ties the runs of module `Runs` to the code.
 */
module Sharing {
  import opened Basics
  import opened Layout
  import opened FifoSpec
  import opened LinkList
  import opened MemoryPool
  import opened BufLists
  import opened BufCopying
  import opened Placement
  import opened Transfer
  import opened Runs
  import SelfCopying

  ghost predicate Disjoint(s: seq<Link>, t: seq<Link>) {
    forall i, j :: 0 <= i < |s| && 0 <= j < |t| ==> s[i] != t[j]
  }

  ghost predicate InSome(ns: seq<seq<Link>>, b: Link) {
    exists i :: 0 <= i < |ns| && b in ns[i]
  }

  /** The node sequences `ns` share out the blocks of `arena` that are not free. */
  ghost predicate Shared(arena: set<Link>, free: set<Link>, ns: seq<seq<Link>>) {
    && (forall i, j :: 0 <= i < |ns| && 0 <= j < |ns| && i != j ==> Disjoint(ns[i], ns[j]))
    && (forall b :: b in arena ==> b in free || InSome(ns, b))
  }

  /** What lists on the pool are made of. */
  ghost function Footprint(pool: Pool, lists: seq<BufList>): set<object> {
    {pool} + (set p: BufList | p in lists) + (set p: BufList | p in lists :: p.list) + pool.arena + Datas(pool.arena)
  }

  /** The list draws on the pool. */
  ghost predicate DrawsOn(p: BufList, pool: Pool)
    reads p, p.list
  {
    p.pool == pool && forall i :: 0 <= i < |p.list.nodes| ==> p.list.nodes[i] in pool.arena
  }

  /** The lists are in order and `ns` are their blocks. */
  ghost predicate AllReady(pool: Pool, lists: seq<BufList>, ns: seq<seq<Link>>)
    reads Footprint(pool, lists)
  {
    && pool.Valid() && |ns| == |lists|
    && (forall i :: 0 <= i < |lists| ==>
          DrawsOn(lists[i], pool) && lists[i].Ready() && lists[i].list.nodes == ns[i])
    && (forall i, j :: 0 <= i < |lists| && 0 <= j < |lists| && i != j ==>
          lists[i] != lists[j] && lists[i].list != lists[j].list)
  }

  /** Every block of the pool is free or in exactly one of the lists. */
  ghost predicate Partition(pool: Pool, lists: seq<BufList>, ns: seq<seq<Link>>)
    reads Footprint(pool, lists)
  {
    AllReady(pool, lists, ns) && Shared(pool.arena, pool.free, ns)
  }

  // -------- Counting blocks --------

  ghost function Elements(s: seq<Link>): set<Link> {
    set b | b in s
  }

  lemma {:induction false} DistinctCount(s: seq<Link>)
    requires Distinct(s)
    ensures |Elements(s)| == |s|
    decreases |s|
  {
    if s != [] {
      DistinctCount(s[1..]);
      assert Elements(s) == {s[0]} + Elements(s[1..]);
    }
  }

  lemma SameSize(s: set<Link>, t: set<Link>)
    requires s <= t && |s| == |t|
    ensures s == t
  {
    assert |t - s| == |t| - |s|;
  }

  /** If the count is right, then a region consists of the free blocks and the blocks of a list. */
  lemma Covered(region: set<Link>, free: set<Link>, nodes: seq<Link>)
    requires Distinct(nodes) && free <= region && |region| == |free| + |nodes|
    requires forall i :: 0 <= i < |nodes| ==> nodes[i] in region && nodes[i] !in free
    ensures region == Elements(nodes) + free
  {
    DistinctCount(nodes);
    assert Elements(nodes) !! free;
    assert |Elements(nodes) + free| == |nodes| + |free|;
    SameSize(Elements(nodes) + free, region);
  }

  /** What an operation on one list may touch: its blocks and the free ones. */
  ghost function Region(p: BufList): set<Link>
    reads p, p.list, p.pool
  {
    Elements(p.list.nodes) + p.pool.free
  }

  lemma RegionSize(p: BufList)
    requires p.Ready()
    ensures p.Within(Region(p)) && |Region(p)| == |p.chain| + |p.pool.free|
  {
    DistinctCount(p.list.nodes);
    assert Elements(p.list.nodes) !! p.pool.free;
  }

  /** A list that has moved inside its region and fills it again keeps the blocks shared out. */
  lemma Reshare(arena: set<Link>, free: set<Link>, ns: seq<seq<Link>>, i: nat, free': set<Link>, nodes: seq<Link>)
    requires Shared(arena, free, ns) && i < |ns|
    requires forall j :: 0 <= j < |ns| && j != i ==> Outside(ns[j], Elements(ns[i]) + free)
    requires Distinct(nodes) && free' <= Elements(ns[i]) + free
    requires |free'| + |nodes| == |Elements(ns[i]) + free|
    requires Inside(nodes, Elements(ns[i]) + free) && Outside(nodes, free')
    ensures Shared(arena, free', ns[i := nodes])
  {
    var ns' := ns[i := nodes];
    Covered(Elements(ns[i]) + free, free', nodes);
    forall b | b in arena && b !in free'
      ensures InSome(ns', b)
    {
      if b in nodes {
        assert b in ns'[i];
      } else {
        var j :| 0 <= j < |ns| && b in ns[j];
        assert b in ns'[j];
      }
    }
  }

  /** Two new node sequences inside a region that no other sequence touches are disjoint from the others. */
  lemma DisjointTwo(ns: seq<seq<Link>>, d: nat, s: nat, region: set<Link>, dn: seq<Link>, sn: seq<Link>, i: nat, j: nat)
    requires forall i, j :: 0 <= i < |ns| && 0 <= j < |ns| && i != j ==> Disjoint(ns[i], ns[j])
    requires d < |ns| && s < |ns| && d != s && i < |ns| && j < |ns| && i != j
    requires forall j :: 0 <= j < |ns| && j != d && j != s ==> Outside(ns[j], region)
    requires Disjoint(dn, sn) && Inside(dn, region) && Inside(sn, region)
    ensures Disjoint(ns[d := dn][s := sn][i], ns[d := dn][s := sn][j])
  {
    assert Disjoint(ns[i], ns[j]);
  }

  /** The same for two lists at once. */
  lemma ReshareTwo(arena: set<Link>, free: set<Link>, ns: seq<seq<Link>>, d: nat, s: nat, region: set<Link>,
                   free': set<Link>, dn: seq<Link>, sn: seq<Link>)
    requires Shared(arena, free, ns) && d < |ns| && s < |ns| && d != s
    requires region == Elements(ns[d]) + Elements(ns[s]) + free
    requires forall j :: 0 <= j < |ns| && j != d && j != s ==> Outside(ns[j], region)
    requires Distinct(dn) && Distinct(sn) && Disjoint(dn, sn)
    requires free' <= region && |free'| + |dn| + |sn| == |region|
    requires Inside(dn, region) && Outside(dn, free') && Inside(sn, region) && Outside(sn, free')
    ensures Shared(arena, free', ns[d := dn][s := sn])
  {
    hide Disjoint;
    var ns' := ns[d := dn][s := sn];
    forall i, j | 0 <= i < |ns| && 0 <= j < |ns| && i != j
      ensures Disjoint(ns'[i], ns'[j])
    {
      DisjointTwo(ns, d, s, region, dn, sn, i, j);
    }
    CoveredTwo(region, free', dn, sn);
    forall b | b in arena && b !in free'
      ensures InSome(ns', b)
    {
      if b in dn {
        assert b in ns'[d];
      } else if b in sn {
        assert b in ns'[s];
      } else {
        var j :| 0 <= j < |ns| && b in ns[j];
        assert b in ns'[j];
      }
    }
  }

  lemma CoveredTwo(region: set<Link>, free: set<Link>, dn: seq<Link>, sn: seq<Link>)
    requires Distinct(dn) && Distinct(sn) && Disjoint(dn, sn) && free <= region
    requires |free| + |dn| + |sn| == |region|
    requires Inside(dn, region) && Outside(dn, free) && Inside(sn, region) && Outside(sn, free)
    ensures forall b :: b in region ==> b in free || b in dn || b in sn
  {
    Covered(region, free, dn + sn);
    assert forall b :: b in dn + sn ==> b in dn || b in sn;
  }

  ghost predicate Inside(nodes: seq<Link>, region: set<Link>) {
    forall k :: 0 <= k < |nodes| ==> nodes[k] in region
  }

  ghost predicate Outside(nodes: seq<Link>, region: set<Link>) {
    forall k :: 0 <= k < |nodes| ==> nodes[k] !in region
  }

  /** Lists on the pool that are none of the two given ones and own blocks outside the region. */
  ghost predicate Bystanders(pool: Pool, others: seq<BufList>, d: BufList, s: BufList, region: set<Link>)
    reads Footprint(pool, others)
  {
    forall q :: q in others ==>
      && q != d && q != s && q.list != d.list && q.list != s.list && DrawsOn(q, pool) && q.Ready()
      && Outside(q.list.nodes, region) && OutsideData(q.list.nodes, region)
  }

  ghost predicate OutsideData(nodes: seq<Link>, region: set<Link>) {
    forall k :: 0 <= k < |nodes| ==> nodes[k].data !in Datas(region)
  }

  // -------- Operations in company --------

  /** A bulk read into a buffer of the right size. */
  method ReadOut(p: BufList, num: nat, ghost region: set<Link>) returns (bytes: seq<byte>)
    requires p.Ready() && p.Within(region) && Base(p.Size(), p.chain)
    modifies p`chain, p.list, p.pool`free, region
    ensures p.Ready() && p.Within(region)
    ensures (p.State(), bytes) == Read(old(p.State()), num)
  {
    hide Content, Settle, TakeAll, Base, Reach, Open, Filled;
    ghost var f := p.State();
    var buf := new byte[num];
    ghost var b0 := buf[..];
    var n := p.BufRead(buf, num, region);
    FilledFront(b0, buf[..], Read(f, num).1);
    bytes := buf[..n];
  }

  /** Carry out an operation on one list, and say what its caller is told. */
  method Dispatch(p: BufList, op: Op, ghost region: set<Link>) returns (reply: Reply)
    requires p.Ready() && p.Within(region) && (Blockwise(op) || Base(p.Size(), p.chain))
    modifies p`chain, p.list, p.pool`free, region, Datas(region)
    ensures p.Ready() && p.Within(region)
    ensures Effect(old(p.State()), op, p.State(), reply)
  {
    hide Content, Prepare, PutAll, PutByte, TakeAll, TakeByte, Settle, Base, Room, Reach, Open;
    hide Consumed, Stranded, Pitfall, Filled, Shows, List.Valid, BufList.Valid, BufList.Ready, BufList.Within;
    match op
    case WriteBytes(s) =>
      var n := p.BufWrite(s, region);
      reply := Number(n);
    case WriteByte(x) =>
      var n := p.BufWriteByte(x, region);
      reply := Number(n);
    case ReadBytes(num) =>
      var bytes := ReadOut(p, num, region);
      reply := Bytes(bytes);
    case ReadByte =>
      var n := p.BufReadByte(region);
      reply := Number(n);
    case FlushBytes(num) =>
      var n := p.BufFlush(num, region);
      reply := Number(n);
    case FlushByte =>
      var n := p.BufFlushByte(region);
      reply := Number(n);
    case PeekByte =>
      var n := p.BufPeekByte(region);
      reply := Number(n);
    case AllocBlock =>
      var cb := p.BufAlloc(region);
      reply := Handle(cb != null);
    case FreeBlock =>
      var cb := p.BufFree(region);
      reply := Handle(cb != null);
    case GetTail =>
      var cb := p.BufGetTail(region);
      reply := Handle(cb != null);
    case Uninit =>
      var n := BufList.BufUninit(p, region);
      reply := Number(n);
  }

  /** The blocks of another list, and their data, are outside the region of a list. */
  lemma RegionApart(p: BufList, q: BufList)
    requires p.Ready() && q.Ready() && p.pool == q.pool && Disjoint(p.list.nodes, q.list.nodes)
    ensures Outside(q.list.nodes, Region(p)) && OutsideData(q.list.nodes, Region(p))
  {
    forall b, k | b in Region(p) && 0 <= k < |q.list.nodes|
      ensures b.data != q.list.nodes[k].data
    {
      assert p.pool.Fits(b) && p.pool.Fits(q.list.nodes[k]);
    }
  }

  lemma OthersOutside(pool: Pool, lists: seq<BufList>, ns: seq<seq<Link>>, i: nat)
    requires Partition(pool, lists, ns) && i < |lists|
    ensures lists[i].Ready() && lists[i].pool == pool && lists[i].Size() > 0 && lists[i].list.nodes == ns[i]
    ensures forall j :: 0 <= j < |lists| && j != i ==>
              Outside(ns[j], Region(lists[i])) && OutsideData(ns[j], Region(lists[i]))
  {
    hide BufList.Ready, Outside, OutsideData, Region;
    ReadySize(lists[i]);
    forall j | 0 <= j < |lists| && j != i
      ensures Outside(ns[j], Region(lists[i])) && OutsideData(ns[j], Region(lists[i]))
    {
      assert Disjoint(ns[i], ns[j]);
      RegionApart(lists[i], lists[j]);
    }
  }

  lemma ReadySize(p: BufList)
    requires p.Ready()
    ensures p.Size() > 0
  {
  }

  /** `Dispatch` with other lists around that own blocks outside the region. */
  method DispatchAmong(pool: Pool, ghost others: seq<BufList>, p: BufList, op: Op, ghost region: set<Link>)
    returns (reply: Reply)
    requires p.pool == pool && p.Ready() && p.Within(region) && (Blockwise(op) || Base(p.Size(), p.chain))
    requires Bystanders(pool, others, p, p, region)
    modifies p`chain, p.list, pool`free, region, Datas(region)
    ensures p.Ready() && p.Within(region) && Effect(old(p.State()), op, p.State(), reply)
    ensures forall q :: q in others ==> q.Ready() && q.chain == old(q.chain) && q.list.nodes == old(q.list.nodes)
  {
    hide Effect, Shows, List.Valid, Base;
    reply := Dispatch(p, op, region);
    forall q | q in others
      ensures q.Ready()
    {
      assert old(q.Ready());
      assert forall k :: 0 <= k < |q.list.nodes| ==> unchanged(q.list.nodes[k]) && unchanged(q.list.nodes[k].data);
      assert q.Valid();
    }
  }

  /**
    An operation on one of several lists: it does to that list, and tells its
    caller, what it would for a list on its own, does nothing to the others,
    and keeps the blocks shared out.
   */
  method Perform(pool: Pool, ghost lists: seq<BufList>, p: BufList, ghost i: nat, op: Op, ghost ns: seq<seq<Link>>)
    returns (reply: Reply, ghost ns': seq<seq<Link>>)
    requires Partition(pool, lists, ns) && i < |lists| && lists[i] == p
    requires Blockwise(op) || Base(p.Size(), p.chain)
    modifies p`chain, p.list, pool`free, Region(p), Datas(Region(p))
    ensures Partition(pool, lists, ns')
    ensures Effect(old(p.State()), op, p.State(), reply)
    ensures !(op.ReadByte? && Pitfall(old(p.State()))) ==> Means(old(p.State()), op, p.State(), reply)
    ensures forall j :: 0 <= j < |lists| && j != i ==> lists[j].chain == old(lists[j].chain)
  {
    hide Effect, Means, Pitfall, Shared, Base, Region, Elements, BufList.Ready, BufList.Within;
    ghost var region, others := Region(p), Without(lists, p, p);
    OthersOutside(pool, lists, ns, i);
    RegionSize(p);
    RegionIs(p);
    ghost var f := p.State();
    reply := DispatchAmong(pool, others, p, op, region);
    OneParts(p, region);
    EffectKeepsBlocks(f, op, p.State(), reply);
    if !(op.ReadByte? && Pitfall(f)) {
      EffectMeans(f, op, p.State(), reply);
    }
    ns' := ns[i := p.list.nodes];
    Reshare(pool.arena, old(pool.free), ns, i, pool.free, p.list.nodes);
    assert forall j :: 0 <= j < |lists| && j != i ==> lists[j] in others;
  }

  /** What a list looks like after an operation, for the bookkeeping. */
  lemma OneParts(p: BufList, region: set<Link>)
    requires p.Ready() && p.Within(region)
    ensures p.pool.Valid() && p.pool.free <= region && Distinct(p.list.nodes) && |p.list.nodes| == |p.chain|
    ensures Inside(p.list.nodes, region) && Outside(p.list.nodes, p.pool.free) && DrawsOn(p, p.pool)
  {
  }

  lemma RegionIs(p: BufList)
    ensures Region(p) == Elements(p.list.nodes) + p.pool.free
  {
  }

  /** What a copy may touch. */
  ghost function PairRegion(d: BufList, s: BufList): set<Link>
    reads d, d.list, s.list, d.pool
  {
    Elements(d.list.nodes) + Elements(s.list.nodes) + d.pool.free
  }

  lemma PairRegionSize(d: BufList, s: BufList)
    requires d.Ready() && s.Ready() && d.pool == s.pool && Disjoint(d.list.nodes, s.list.nodes)
    ensures d.Within(PairRegion(d, s)) && s.Within(PairRegion(d, s))
    ensures |PairRegion(d, s)| == |d.chain| + |s.chain| + |d.pool.free|
  {
    DistinctCount(d.list.nodes);
    DistinctCount(s.list.nodes);
    assert Elements(d.list.nodes) !! Elements(s.list.nodes);
    assert (Elements(d.list.nodes) + Elements(s.list.nodes)) !! d.pool.free;
  }

  /** The blocks of a third list, and their data, are outside the region of a copy. */
  lemma PairRegionApart(d: BufList, s: BufList, q: BufList)
    requires d.Ready() && s.Ready() && q.Ready() && d.pool == s.pool == q.pool
    requires Disjoint(d.list.nodes, q.list.nodes) && Disjoint(s.list.nodes, q.list.nodes)
    ensures Outside(q.list.nodes, PairRegion(d, s)) && OutsideData(q.list.nodes, PairRegion(d, s))
  {
    forall b, k | b in PairRegion(d, s) && 0 <= k < |q.list.nodes|
      ensures b.data != q.list.nodes[k].data
    {
      assert d.pool.Fits(b) && d.pool.Fits(q.list.nodes[k]);
    }
  }

  lemma OthersOutsidePair(pool: Pool, lists: seq<BufList>, ns: seq<seq<Link>>, d: nat, s: nat)
    requires Partition(pool, lists, ns) && d < |lists| && s < |lists| && d != s
    ensures Pair(lists[d], lists[s], PairRegion(lists[d], lists[s]))
    ensures |PairRegion(lists[d], lists[s])| == |lists[d].chain| + |lists[s].chain| + |pool.free|
    ensures lists[d].pool == pool && lists[s].pool == pool
    ensures lists[d].list.nodes == ns[d] && lists[s].list.nodes == ns[s]
    ensures forall j :: 0 <= j < |lists| && j != d && j != s ==>
              Outside(ns[j], PairRegion(lists[d], lists[s])) && OutsideData(ns[j], PairRegion(lists[d], lists[s]))
  {
    hide BufList.Ready, BufList.Within, Outside, OutsideData, PairRegion;
    assert Disjoint(ns[d], ns[s]);
    PairRegionSize(lists[d], lists[s]);
    forall j | 0 <= j < |lists| && j != d && j != s
      ensures Outside(ns[j], PairRegion(lists[d], lists[s])) && OutsideData(ns[j], PairRegion(lists[d], lists[s]))
    {
      assert Disjoint(ns[d], ns[j]) && Disjoint(ns[s], ns[j]);
      PairRegionApart(lists[d], lists[s], lists[j]);
    }
  }

  /** What two lists look like after a copy, for the bookkeeping. */
  lemma PairParts(d: BufList, s: BufList, region: set<Link>)
    requires Pair(d, s, region) && d.pool == s.pool
    ensures d.pool.Valid() && d.Ready() && s.Ready() && Disjoint(d.list.nodes, s.list.nodes)
    ensures |d.list.nodes| == |d.chain| && |s.list.nodes| == |s.chain| && d.pool.free <= region
    ensures Distinct(d.list.nodes) && Distinct(s.list.nodes)
    ensures Inside(d.list.nodes, region) && Outside(d.list.nodes, d.pool.free)
    ensures Inside(s.list.nodes, region) && Outside(s.list.nodes, d.pool.free)
    ensures BlocksInPlay(d, s) == |d.chain| + |s.chain| + |d.pool.free|
  {
  }

  lemma PairRegionIs(d: BufList, s: BufList)
    ensures PairRegion(d, s) == Elements(d.list.nodes) + Elements(s.list.nodes) + d.pool.free
  {
  }

  /** `BufCopy` with other lists around that own blocks outside the region. */
  method CopyAmong(pool: Pool, ghost others: seq<BufList>, dst: BufList, src: BufList, num: nat,
                   ghost region: set<Link>)
    returns (n: nat)
    requires dst.pool == pool && src.pool == pool
    requires Pair(dst, src, region) && Base(dst.Size(), dst.chain) && Base(src.Size(), src.chain)
    requires Bystanders(pool, others, dst, src, region)
    modifies dst`chain, dst.list, src`chain, src.list, pool`free, region, Datas(region)
    ensures Pair(dst, src, region)
    ensures n == CopyLength(old(dst.State()), src.Size(), old(src.chain), true, num)
    ensures Carried(dst.Size(), src.Size(), old(dst.chain), old(src.chain), dst.chain, src.chain, n)
    ensures Strong(dst.Size(), old(dst.chain)) && Strong(src.Size(), old(src.chain)) ==> Strong(dst.Size(), dst.chain)
    ensures CopyLayout(Origin(dst.Size(), dst.Size(), true, old(dst.chain), old(src.chain), old(|pool.free|)),
                       num, dst.chain, src.chain, n)
    ensures CopyDone(dst, src, n, num)
    ensures BlocksInPlay(dst, src) == old(BlocksInPlay(dst, src))
    ensures forall q :: q in others ==> q.Ready() && q.chain == old(q.chain) && q.list.nodes == old(q.list.nodes)
  {
    hide Carried, Strong, Weak, Base, Shows, Content, BlocksInPlay, Kept, Full, List.Valid, BufList.Cursor, CopyLength;
    hide CopyLayout, CopyDone;
    PairPool(dst, src, region);
    n := BufCopy(dst, src, num, region);
    PairPool(dst, src, region);
    forall q | q in others
      ensures q.Ready()
    {
      assert old(q.Ready());
      assert forall k :: 0 <= k < |q.list.nodes| ==> unchanged(q.list.nodes[k]) && unchanged(q.list.nodes[k].data);
      assert q.Valid();
    }
  }

  lemma PairPool(dst: BufList, src: BufList, region: set<Link>)
    requires Pair(dst, src, region)
    ensures dst.pool.Valid() && dst.pool.free <= region
  {
  }

  /** A copy between two of several lists on the same pool. */
  method PerformCopy(pool: Pool, ghost lists: seq<BufList>, dst: BufList, src: BufList, ghost d: nat, ghost s: nat,
                     num: nat, ghost ns: seq<seq<Link>>) returns (n: nat, ghost ns': seq<seq<Link>>)
    requires Partition(pool, lists, ns) && d < |lists| && s < |lists| && d != s && lists[d] == dst && lists[s] == src
    requires Base(dst.Size(), dst.chain) && Base(src.Size(), src.chain)
    modifies dst`chain, dst.list, src`chain, src.list, pool`free, PairRegion(dst, src), Datas(PairRegion(dst, src))
    ensures Partition(pool, lists, ns')
    ensures n == CopyLength(old(dst.State()), dst.Size(), old(src.chain), true, num)
    ensures Carried(dst.Size(), dst.Size(), old(dst.chain), old(src.chain), dst.chain, src.chain, n)
    ensures Strong(dst.Size(), old(dst.chain)) && Strong(dst.Size(), old(src.chain)) ==> Strong(dst.Size(), dst.chain)
    ensures CopyLayout(Origin(dst.Size(), dst.Size(), true, old(dst.chain), old(src.chain), old(|pool.free|)),
                       num, dst.chain, src.chain, n)
    ensures CopyDone(dst, src, n, num)
    ensures |pool.free| + |dst.chain| + |src.chain| == old(|pool.free| + |dst.chain| + |src.chain|)
    ensures forall j :: 0 <= j < |lists| && j != d && j != s ==> lists[j].chain == old(lists[j].chain)
  {
    hide CopyLayout, CopyDone, Carried, CopyLength, Strong, Weak, Base, Shared, Elements, Content, PairRegion, Pair;
    hide BlocksInPlay, BufList.Ready;
    ghost var region := PairRegion(dst, src);
    ghost var others := Without(lists, dst, src);
    OthersOutsidePair(pool, lists, ns, d, s);
    PairRegionIs(dst, src);
    PairParts(dst, src, region);
    n := CopyAmong(pool, others, dst, src, num, region);
    PairParts(dst, src, region);
    ns' := ns[d := dst.list.nodes][s := src.list.nodes];
    ReshareTwo(pool.arena, old(pool.free), ns, d, s, region, pool.free, dst.list.nodes, src.list.nodes);
    assert forall j :: 0 <= j < |lists| && j != d && j != s ==> lists[j] in others;
  }

  /** `BufCopySelf` with other lists around that own blocks outside the region. */
  method CopySelfAmong(pool: Pool, ghost others: seq<BufList>, p: BufList, num: nat, ghost region: set<Link>)
    returns (n: nat, ghost e: Chain, ghost t: seq<byte>)
    requires p.pool == pool && p.Ready() && p.Within(region) && Base(p.Size(), p.chain)
    requires Bystanders(pool, others, p, p, region)
    modifies p`chain, p.list, pool`free, region, Datas(region)
    ensures p.Ready() && p.Within(region) && Base(p.Size(), p.chain) && SameBlocks(old(p.State()), p.State())
    ensures n == SelfCopying.Turns(old(p.State()), num) <= num
    ensures Content(p.chain) == SelfCopying.Rotated(old(Content(p.chain)), n)
            <==> !SelfCopying.Loses(old(p.State()), num)
    ensures SelfCopying.Loses(old(p.State()), num) ==> p.chain == []
    ensures SelfCopying.SelfLayout(old(p.State()), num, e, p.chain, t, n)
    ensures forall q :: q in others ==> q.Ready() && q.chain == old(q.chain) && q.list.nodes == old(q.list.nodes)
  {
    hide Shows, List.Valid, Base, Content, SameBlocks;
    hide SelfCopying.SelfLayout, SelfCopying.Turns, SelfCopying.Loses, SelfCopying.Rotated;
    n, e, t := SelfCopying.BufCopySelf(p, num, region);
    forall q | q in others
      ensures q.Ready()
    {
      assert old(q.Ready());
      assert forall k :: 0 <= k < |q.list.nodes| ==> unchanged(q.list.nodes[k]) && unchanged(q.list.nodes[k].data);
      assert q.Valid();
    }
  }

  /** A copy of one of several lists onto itself. */
  method PerformCopySelf(pool: Pool, ghost lists: seq<BufList>, p: BufList, ghost i: nat, num: nat,
                         ghost ns: seq<seq<Link>>)
    returns (n: nat, ghost ns': seq<seq<Link>>, ghost e: Chain, ghost t: seq<byte>)
    requires Partition(pool, lists, ns) && i < |lists| && lists[i] == p && Base(p.Size(), p.chain)
    modifies p`chain, p.list, pool`free, Region(p), Datas(Region(p))
    ensures Partition(pool, lists, ns')
    ensures n == SelfCopying.Turns(old(p.State()), num) <= num
    ensures Content(p.chain) == SelfCopying.Rotated(old(Content(p.chain)), n)
            <==> !SelfCopying.Loses(old(p.State()), num)
    ensures SelfCopying.Loses(old(p.State()), num) ==> p.chain == []
    ensures SelfCopying.SelfLayout(old(p.State()), num, e, p.chain, t, n)
    ensures forall j :: 0 <= j < |lists| && j != i ==> lists[j].chain == old(lists[j].chain)
  {
    hide Shared, Base, Region, Elements, BufList.Ready, BufList.Within, Content;
    hide SelfCopying.Turns, SelfCopying.Loses, SelfCopying.Rotated, SelfCopying.SelfLayout;
    ghost var region, others := Region(p), Without(lists, p, p);
    OthersOutside(pool, lists, ns, i);
    RegionSize(p);
    RegionIs(p);
    n, e, t := CopySelfAmong(pool, others, p, num, region);
    OneParts(p, region);
    ns' := ns[i := p.list.nodes];
    Reshare(pool.arena, old(pool.free), ns, i, pool.free, p.list.nodes);
    assert forall j :: 0 <= j < |lists| && j != i ==> lists[j] in others;
  }

  /** The lists other than two given ones. */
  ghost function Without(lists: seq<BufList>, d: BufList, s: BufList): (r: seq<BufList>)
    ensures forall j :: 0 <= j < |lists| && lists[j] != d && lists[j] != s ==> lists[j] in r
    ensures forall k :: 0 <= k < |r| ==> r[k] in lists && r[k] != d && r[k] != s
  {
    if lists == [] then []
    else if lists[0] == d || lists[0] == s then Without(lists[1..], d, s)
    else [lists[0]] + Without(lists[1..], d, s)
  }

  // -------- Initialising one of several lists --------

  lemma ForgottenIffAny(arena: set<Link>, free: set<Link>, ns: seq<seq<Link>>, i: nat)
    requires Shared(arena, free, ns) && i < |ns|
    requires Inside(ns[i], arena) && Outside(ns[i], free)
    ensures Shared(arena, free, ns[i := []]) <==> ns[i] == []
  {
    var ns' := ns[i := []];
    if ns[i] == [] {
      assert ns' == ns;
    } else {
      var b := ns[i][0];
      forall j | 0 <= j < |ns|
        ensures b !in ns'[j]
      {
        assert j != i ==> Disjoint(ns[i], ns[j]);
      }
      assert b in arena && b !in free && !InSome(ns', b);
    }
  }

  /**
    Initialising one of several lists makes it an empty list and does nothing to
    the others. The blocks stay shared out if and only if it owned none: those
    that it did own are lost, neither free nor in any list.
   */
  method PerformInit(pool: Pool, ghost lists: seq<BufList>, p: BufList, ghost i: nat, ghost ns: seq<seq<Link>>)
    returns (rval: int)
    requires Partition(pool, lists, ns) && i < |lists| && lists[i] == p
    modifies p`pool, p`chain, p.list
    ensures rval == 0 && p.chain == [] && AllReady(pool, lists, ns[i := []])
    ensures Partition(pool, lists, ns[i := []]) <==> old(p.chain) == []
    ensures forall j :: 0 <= j < |lists| && j != i ==> lists[j].chain == old(lists[j].chain)
  {
    hide Shared, Shows, List.Valid;
    OneParts(p, pool.arena + pool.free);
    ForgottenIffAny(pool.arena, pool.free, ns, i);
    rval := BufList.BufInit(pool, p);
    forall j | 0 <= j < |lists| && j != i
      ensures lists[j].Ready()
    {
      assert old(lists[j].Ready());
    }
  }

  // -------- The code takes the steps of a run --------

  /** `a` is the abstract state of the lists and their pool; its histories are free. */
  ghost predicate Represents(a: Sys, pool: Pool, lists: seq<BufList>)
    reads pool, set p | p in lists
  {
    && WellFormed(a) && a.maxi == DataSize(pool.blockSize) && a.free == |pool.free|
    && |a.chains| == |lists| && (forall j :: 0 <= j < |lists| ==> a.chains[j] == lists[j].chain)
  }

  /** Running an operation in memory is a step `On(i, op)` of the abstract system, with the same reply. */
  method RunOn(pool: Pool, ghost lists: seq<BufList>, p: BufList, ghost i: nat, op: Op, ghost grade: Grade,
               ghost ns: seq<seq<Link>>, ghost a: Sys)
    returns (reply: Reply, ghost ns': seq<seq<Link>>, ghost b: Sys)
    requires Partition(pool, lists, ns) && i < |lists| && lists[i] == p && Represents(a, pool, lists)
    requires Sound(grade, p.Size(), p.chain) && Legal(grade, p.State(), op)
    modifies p`chain, p.list, pool`free, Region(p), Datas(Region(p))
    ensures Partition(pool, lists, ns') && Represents(b, pool, lists)
    ensures Next(grade, a, On(i, op), reply, b)
  {
    hide Sound, Step, Shared, Region, BufList.Ready, Base, Pitfall;
    SoundIsBase(grade, p.Size(), p.chain);
    assert View(a, i) == p.State();
    LegalRead(grade, p.State(), op);
    reply, ns' := Perform(pool, lists, p, i, op, ns);
    b := AfterOn(a, i, op);
    StepMaxi(View(a, i), op);
  }

  /** Running a copy in memory is a step `Copy(d, s, num)` of the abstract system, with the same reply. */
  method RunCopy(pool: Pool, ghost lists: seq<BufList>, dst: BufList, src: BufList, ghost d: nat, ghost s: nat,
                 num: nat, ghost grade: Grade, ghost ns: seq<seq<Link>>, ghost a: Sys)
    returns (reply: Reply, ghost ns': seq<seq<Link>>, ghost b: Sys)
    requires Partition(pool, lists, ns) && d < |lists| && s < |lists| && d != s && lists[d] == dst && lists[s] == src
    requires Base(dst.Size(), dst.chain) && Base(src.Size(), src.chain) && Represents(a, pool, lists)
    modifies dst`chain, dst.list, src`chain, src.list, pool`free, PairRegion(dst, src), Datas(PairRegion(dst, src))
    ensures Partition(pool, lists, ns') && Represents(b, pool, lists)
    ensures Next(grade, a, Copy(d, s, num), reply, b)
  {
    hide CopyLayout, Carried, CopyLength, Strong, Base, Content, Shared, PairRegion, BufList.Ready, Reach, FullTail;
    var n;
    n, ns' := PerformCopy(pool, lists, dst, src, d, s, num, ns);
    reply := Number(n);
    CarriedCount(dst.Size(), dst.Size(), a.chains[d], a.chains[s], dst.chain, src.chain, n);
    ghost var moved := Content(a.chains[s])[..n];
    b := Sys(a.maxi, |pool.free|, a.chains[d := dst.chain][s := src.chain],
             a.ins[d := a.ins[d] + moved], a.outs[s := a.outs[s] + moved]);
    assert Moved(a, d, s, n, b);
  }

  lemma CarriedCount(md: nat, ms: nat, d0: Chain, s0: Chain, d: Chain, s: Chain, n: nat)
    requires Carried(md, ms, d0, s0, d, s, n)
    ensures n <= |Content(s0)|
  {
  }

  // -------- Whole runs in memory --------

  lemma RegionsInArena(pool: Pool, p: BufList)
    requires pool.Valid() && DrawsOn(p, pool)
    ensures Region(p) <= pool.arena && Datas(Region(p)) <= Datas(pool.arena)
    ensures forall q: BufList :: DrawsOn(q, pool) ==>
              PairRegion(p, q) <= pool.arena && Datas(PairRegion(p, q)) <= Datas(pool.arena)
  {
  }

  /** What a run knows about one of its lists. */
  lemma ListInRun(grade: Grade, capacity: nat, a: Sys, pool: Pool, lists: seq<BufList>, ns: seq<seq<Link>>, i: nat)
    requires Partition(pool, lists, ns) && Represents(a, pool, lists) && Inv(grade, capacity, a) && i < |lists|
    ensures View(a, i) == lists[i].State() && Sound(grade, lists[i].Size(), lists[i].chain)
    ensures Base(lists[i].Size(), lists[i].chain) && lists[i].Size() > 0
    ensures Region(lists[i]) <= pool.arena && Datas(Region(lists[i])) <= Datas(pool.arena)
    ensures forall j :: 0 <= j < |lists| ==>
              && PairRegion(lists[i], lists[j]) <= pool.arena
              && Datas(PairRegion(lists[i], lists[j])) <= Datas(pool.arena)
  {
    hide BufList.Ready, Sound, Base, Region, PairRegion;
    assert InOrder(grade, a, i);
    SoundIsBase(grade, a.maxi, a.chains[i]);
    ReadySize(lists[i]);
    RegionsInArena(pool, lists[i]);
  }

  /** One action of a run, in memory. */
  method RunAct(pool: Pool, lists: seq<BufList>, act: Act, ghost grade: Grade, ghost capacity: nat,
                ghost ns: seq<seq<Link>>, ghost a: Sys)
    returns (reply: Reply, ghost ns': seq<seq<Link>>, ghost b: Sys)
    requires Partition(pool, lists, ns) && Represents(a, pool, lists) && Inv(grade, capacity, a)
    requires Now(grade, a, act)
    modifies lists`chain, set p | p in lists :: p.list, pool`free, pool.arena, Datas(pool.arena)
    ensures Partition(pool, lists, ns') && Represents(b, pool, lists) && Inv(grade, capacity, b)
    ensures Next(grade, a, act, reply, b)
  {
    hide Partition, Represents, Inv, Next, Sound, Legal, Base, Region, PairRegion;
    RepresentedChains(a, pool, lists);
    match act
    case On(i, op) =>
      ListInRun(grade, capacity, a, pool, lists, ns, i);
      reply, ns', b := RunOn(pool, lists, lists[i], i, op, grade, ns, a);
      NextKeeps(grade, capacity, a, act, reply, b);
    case Copy(d, s, num) =>
      ListInRun(grade, capacity, a, pool, lists, ns, d);
      ListInRun(grade, capacity, a, pool, lists, ns, s);
      reply, ns', b := RunCopy(pool, lists, lists[d], lists[s], d, s, num, grade, ns, a);
      NextKeeps(grade, capacity, a, act, reply, b);
  }

  /**
    Carrying out in memory any sequence of actions that are legal when their turn
    comes, on any number of lists that share a pool, is a run: replies and states are those of the abstract system,
    and at the end every block is still free or in exactly one list, and every
    list holds what it has accepted and not yet given away.
   */
  method Execute(pool: Pool, lists: seq<BufList>, acts: seq<Act>, ghost grade: Grade, ghost capacity: nat,
                 ghost ns0: seq<seq<Link>>, ghost a0: Sys)
    returns (replies: seq<Reply>, ghost states: seq<Sys>, ghost ns: seq<seq<Link>>)
    requires Partition(pool, lists, ns0) && Represents(a0, pool, lists) && Inv(grade, capacity, a0)
    requires Allowed(grade, a0, acts)
    modifies lists`chain, set p | p in lists :: p.list, pool`free, pool.arena, Datas(pool.arena)
    ensures Run(grade, states, acts, replies) && states[0] == a0
    ensures Partition(pool, lists, ns) && Represents(states[|acts|], pool, lists)
    ensures Inv(grade, capacity, states[|acts|])
    ensures forall k :: 0 <= k < |acts| ==> ActMeans(states[k], acts[k], replies[k], states[k + 1])
    ensures Init(capacity, a0) ==> forall i :: 0 <= i < |lists| && AllVisible(i, acts) ==>
              AllWrote(i, acts, replies) == AllGot(i, acts, replies) + Content(lists[i].chain)
  {
    hide Partition, Represents, Inv, Next, Now, Allowed, ActMeans, AllVisible, Init, Content;
    RepresentedChains(a0, pool, lists);
    assert acts[0..] == acts;
    replies, states, ns := [], [a0], ns0;
    for n := 0 to |acts|
      invariant |replies| == n && |states| == n + 1 && states[0] == a0
      invariant Partition(pool, lists, ns) && Represents(states[n], pool, lists) && Inv(grade, capacity, states[n])
      invariant forall k :: 0 <= k < n ==> Next(grade, states[k], acts[k], replies[k], states[k + 1])
      invariant forall k :: 0 <= k < n ==> ActMeans(states[k], acts[k], replies[k], states[k + 1])
      invariant Allowed(grade, states[n], acts[n..])
    {
      AllowedNow(grade, states[n], acts, n);
      var reply;
      ghost var b;
      reply, ns, b := RunAct(pool, lists, acts[n], grade, capacity, ns, states[n]);
      NextMeans(grade, capacity, states[n], acts[n], reply, b);
      AllowedThen(grade, states[n], acts, n, reply, b);
      replies, states := replies + [reply], states + [b];
    }
    RepresentedChains(states[|acts|], pool, lists);
    if Init(capacity, a0) {
      forall i | 0 <= i < |lists| && AllVisible(i, acts)
        ensures AllWrote(i, acts, replies) == AllGot(i, acts, replies) + Content(lists[i].chain)
      {
        UsersSeeFifo(grade, capacity, states, acts, replies, i);
      }
    }
  }

  lemma RepresentedChains(a: Sys, pool: Pool, lists: seq<BufList>)
    requires Represents(a, pool, lists)
    ensures |a.chains| == |lists| && forall i :: 0 <= i < |lists| ==> a.chains[i] == lists[i].chain
  {
  }

  /** Freshly initialised lists on a pool with all blocks free are where a run starts. */
  lemma StartsEmpty(pool: Pool, lists: seq<BufList>, a: Sys)
    requires pool.Valid() && pool.free == pool.arena
    requires forall i :: 0 <= i < |lists| ==> lists[i].pool == pool && lists[i].Ready() && lists[i].chain == []
    requires forall i, j :: 0 <= i < |lists| && 0 <= j < |lists| && i != j ==>
               lists[i] != lists[j] && lists[i].list != lists[j].list
    requires Represents(a, pool, lists)
    requires forall i :: 0 <= i < |lists| ==> a.ins[i] == [] && a.outs[i] == []
    ensures Partition(pool, lists, seq(|lists|, _ => [])) && Init(|pool.arena|, a)
  {
    hide BufList.Ready;
    forall i | 0 <= i < |lists|
      ensures lists[i].list.nodes == []
    {
      ReadyCount(lists[i]);
    }
  }

  lemma ReadyCount(p: BufList)
    requires p.Ready()
    ensures |p.list.nodes| == |p.chain|
  {
  }

  /** Make `n` empty lists on a pool. */
  method MakeLists(pool: Pool, n: nat) returns (lists: seq<BufList>)
    requires pool.Valid() && pool.blockSize <= 0xFFFF
    ensures |lists| == n
    ensures forall i :: 0 <= i < n ==>
              && lists[i].pool == pool && lists[i].Ready() && lists[i].chain == []
              && fresh(lists[i]) && fresh(lists[i].list)
    ensures forall i, j :: 0 <= i < n && 0 <= j < n && i != j ==>
              lists[i] != lists[j] && lists[i].list != lists[j].list
  {
    hide Shows;
    lists := [];
    while |lists| < n
      invariant |lists| <= n
      invariant forall i :: 0 <= i < |lists| ==>
                  && lists[i].pool == pool && lists[i].Ready() && lists[i].chain == []
                  && fresh(lists[i]) && fresh(lists[i].list)
      invariant forall i, j :: 0 <= i < |lists| && 0 <= j < |lists| && i != j ==>
                  lists[i] != lists[j] && lists[i].list != lists[j].list
    {
      var p := new BufList(pool);
      var rval := BufList.BufInit(pool, p);
      lists := lists + [p];
    }
  }

  /**
    The whole life of any number of lists, from the making of their pool on:
    whatever is allowed, every block ends up free or in exactly one list, and each
    list holds what its users wrote and have not been handed.
   */
  method FromScratch(count: nat, blockSize: nat, n: nat, acts: seq<Act>, ghost grade: Grade)
    returns (pool: Pool, lists: seq<BufList>, replies: seq<Reply>, ghost states: seq<Sys>, ghost ns: seq<seq<Link>>)
    requires HEADER < blockSize <= 0xFFFF && Allowed(grade, Fresh(DataSize(blockSize), count, n), acts)
    ensures |lists| == n && |replies| == |acts| && |pool.arena| == count && pool.blockSize == blockSize
    ensures Run(grade, states, acts, replies) && states[0] == Fresh(DataSize(blockSize), count, n)
    ensures Partition(pool, lists, ns) && Represents(states[|acts|], pool, lists)
    ensures Inv(grade, count, states[|acts|])
    ensures forall k :: 0 <= k < |acts| ==> ActMeans(states[k], acts[k], replies[k], states[k + 1])
    ensures forall i :: 0 <= i < n && AllVisible(i, acts) ==>
              AllWrote(i, acts, replies) == AllGot(i, acts, replies) + Content(lists[i].chain)
  {
    hide Allowed, Next, ActMeans, AllVisible, Content, Partition, Inv;
    pool := new Pool(count, blockSize);
    lists := MakeLists(pool, n);
    ghost var a := Fresh(DataSize(blockSize), count, n);
    StartsEmpty(pool, lists, a);
    InitHolds(grade, count, a);
    replies, states, ns := Execute(pool, lists, acts, grade, count, seq(|lists|, _ => []), a);
  }
}
