/**
  What a move between two lists means: the bytes in front of the boundary
  between them move over in order, and nothing is lost or duplicated.
 */
module Transfer {
  import opened Basics
  import opened Layout
  import opened FifoSpec
  import opened Placement

  /**
    The destination `d` and the source `s` after `n` bytes have been carried
    over from `d0` and `s0`; `md` and `ms` are the respective block sizes.
   */
  ghost predicate Carried(md: nat, ms: nat, d0: Chain, s0: Chain, d: Chain, s: Chain, n: nat) {
    Conveyed(md, ms, d0, s0, d, s, n) && Placed(md, ms, d0, s0, d, s, Content(s0)[..n])
  }

  /** What that means for the content, the reach and the room of both. */
  ghost predicate Conveyed(md: nat, ms: nat, d0: Chain, s0: Chain, d: Chain, s: Chain, n: nat) {
    && md > 0 && ms > 0 && Base(md, d) && Base(ms, s)
    && (Weak(md, d0) ==> Weak(md, d)) && (Weak(ms, s0) ==> Weak(ms, s)) && (Strong(ms, s0) ==> Strong(ms, s))
    && n <= |Reach(ms, s0)| && Reach(ms, s) == Reach(ms, s0)[n..]
    && n <= |Content(s0)| && Content(s) == Content(s0)[n..]
    && Content(d) == Content(d0) + Content(s0)[..n]
    && Offset(d) == Offset(d0) && (d == [] ==> d0 == [])
    && Used(md, d) == Used(md, d0) + n
    && (s != [] ==> s0 != [] && Offset(s) + ms * (|s0| - |s|) == Offset(s0) + n)
  }

  /** Cells of a chain that can no longer be written. */
  function Used(maxi: nat, c: Chain): int {
    maxi * |c| - TailRoom(maxi, c)
  }

  lemma UsedGrow(maxi: nat, c: Chain)
    requires c == [] || |c[|c| - 1].bytes| == maxi
    ensures Used(maxi, c + [Blk(0, [])]) == Used(maxi, c)
  {
    Distribute(maxi, |c|, 1);
  }

  /** Strong but for the tail, which may have been allocated and not yet written. */
  ghost predicate Pledged(maxi: nat, c: Chain) {
    Weak(maxi, c) && forall i :: 0 < i < |c| - 1 ==> c[i].bytes != []
  }

  lemma CarriedStart(md: nat, ms: nat, d: Chain, s: Chain)
    requires md > 0 && ms > 0 && Base(md, d) && Base(ms, s)
    ensures Carried(md, ms, d, s, d, s, 0)
  {
    PlacedStart(md, ms, d, s);
  }

  lemma CarriedBounds(md: nat, ms: nat, d0: Chain, s0: Chain, d: Chain, s: Chain, n: nat)
    requires Carried(md, ms, d0, s0, d, s, n)
    ensures d != [] ==> |d[|d| - 1].bytes| <= md
    ensures s != [] ==> s[0].rdi <= |s[0].bytes| <= ms
    ensures Strong(ms, s0) ==> Strong(ms, s)
  {
  }

  /** What a round of the copy needs to know. */
  lemma CarriedPlaced(md: nat, ms: nat, d0: Chain, s0: Chain, d: Chain, s: Chain, n: nat)
    requires Carried(md, ms, d0, s0, d, s, n)
    ensures md > 0 && ms > 0 && n <= |Content(s0)| && Placed(md, ms, d0, s0, d, s, Content(s0)[..n])
    ensures |s| <= |s0| && |d0| <= |d| && (forall i :: 0 < i < |s| ==> s[i].rdi == 0)
    ensures d0 == [] && n == 0 ==> Body(d0, d) == []
  {
    hide Content;
    if d0 == [] && n == 0 {
      PlacedNothing(md, ms, d0, s0, d, s, Content(s0)[..n]);
    }
  }

  lemma StrongIsPledged(maxi: nat, c: Chain)
    requires Strong(maxi, c)
    ensures Pledged(maxi, c)
  {
  }

  lemma CarriedBytes(x: byte, cd0: seq<byte>, cs0: seq<byte>, cd: seq<byte>, cs: seq<byte>, n: nat)
    requires n <= |cs0| && cd == cd0 + cs0[..n] && [x] + cs == cs0[n..]
    ensures n < |cs0| && cd + [x] == cd0 + cs0[..n + 1] && cs == cs0[n + 1..]
  {
    assert cs0[n..][0] == x && cs0[n..][1..] == cs;
    assert cs0[..n + 1] == cs0[..n] + [x];
  }

  lemma ConveyedByte(md: nat, ms: nat, d0: Chain, s0: Chain, d: Chain, s: Chain, n: nat)
    requires Conveyed(md, ms, d0, s0, d, s, n)
    requires d != [] && |d[|d| - 1].bytes| < md && s != [] && !Drained(s[0])
    ensures Conveyed(md, ms, d0, s0, Append(d, s[0].bytes[s[0].rdi]), Advance(s), n + 1)
  {
    hide Content, Reach, Weak, Base, Strong, TailRoom;
    ConveyedBounds(md, ms, d0, s0, d, s, n);
    var x := s[0].bytes[s[0].rdi];
    AppendFacts(Fifo(md, 0, d), x);
    AdvanceFacts(Fifo(ms, 0, s));
    ReachAdvance(ms, s);
    CarriedBytes(x, [], Reach(ms, s0), Reach(ms, s0)[..n], Reach(ms, Advance(s)), n);
    CarriedBytes(x, Content(d0), Content(s0), Content(d), Content(Advance(s)), n);
  }

  lemma ConveyedAlloc(md: nat, ms: nat, d0: Chain, s0: Chain, d: Chain, s: Chain, n: nat)
    requires Conveyed(md, ms, d0, s0, d, s, n) && (d == [] || |d[|d| - 1].bytes| == md)
    ensures Conveyed(md, ms, d0, s0, d + [Blk(0, [])], s, n)
    ensures Strong(md, d) ==> Pledged(md, d + [Blk(0, [])]) && (d == [] ==> Strong(md, d + [Blk(0, [])]))
  {
    hide Content, Reach, Used;
    PrepareFacts(Fifo(md, 1, d));
    UsedGrow(md, d);
    var e := d + [Blk(0, [])];
    assert forall i :: 0 <= i < |d| ==> e[i] == d[i];
  }

  lemma ConveyedFree(md: nat, ms: nat, d0: Chain, s0: Chain, d: Chain, s: Chain, n: nat)
    requires Conveyed(md, ms, d0, s0, d, s, n)
    requires s != [] && Drained(s[0]) && |s[0].bytes| == ms
    ensures Conveyed(md, ms, d0, s0, d, s[1..], n)
    ensures |s| > 1 ==> !Drained(s[1..][0]) || |s[1..][0].bytes| < ms
    ensures |s| > 1 && Strong(ms, s) ==> !Drained(s[1..][0])
  {
    hide Content, Reach;
    SettleFacts(Fifo(ms, 0, s));
    SettleReach(Fifo(ms, 0, s));
    assert |s| > 1 ==> s[1..][0] == s[1];
    Distribute(ms, |s0| - |s|, 1);
  }

  lemma CarriedByte(md: nat, ms: nat, d0: Chain, s0: Chain, d: Chain, s: Chain, n: nat)
    requires Carried(md, ms, d0, s0, d, s, n)
    requires d != [] && |d[|d| - 1].bytes| < md && s != [] && !Drained(s[0])
    ensures s[0].rdi < |s[0].bytes|
    ensures Carried(md, ms, d0, s0, Append(d, s[0].bytes[s[0].rdi]), Advance(s), n + 1)
    ensures !Spare(d0, Append(d, s[0].bytes[s[0].rdi]))
  {
    hide Content, Conveyed, Placed, Spare;
    ConveyedBounds(md, ms, d0, s0, d, s, n);
    ConveyedNext(md, ms, d0, s0, d, s, n);
    ConveyedByte(md, ms, d0, s0, d, s, n);
    PlacedByte(md, ms, d0, s0, d, s, Content(s0)[..n], s[0].bytes[s[0].rdi]);
  }

  /** The next byte to move. */
  lemma ConveyedNext(md: nat, ms: nat, d0: Chain, s0: Chain, d: Chain, s: Chain, n: nat)
    requires Conveyed(md, ms, d0, s0, d, s, n) && s != [] && s[0].rdi < |s[0].bytes|
    ensures n < |Content(s0)| && Content(s0)[..n + 1] == Content(s0)[..n] + [s[0].bytes[s[0].rdi]]
  {
    hide Content, Reach, Base, Weak, Strong, Used, Offset;
    HeadByte(s);
    var t := Content(s0);
    assert t[n..][0] == t[n];
  }

  lemma HeadByte(s: Chain)
    requires s != [] && s[0].rdi < |s[0].bytes|
    ensures Content(s) != [] && Content(s)[0] == s[0].bytes[s[0].rdi]
  {
  }

  lemma CarriedAlloc(md: nat, ms: nat, d0: Chain, s0: Chain, d: Chain, s: Chain, n: nat)
    requires Carried(md, ms, d0, s0, d, s, n) && FullTail(md, d)
    ensures Carried(md, ms, d0, s0, d + [Blk(0, [])], s, n)
    ensures Strong(md, d) ==> Pledged(md, d + [Blk(0, [])]) && (d == [] ==> Strong(md, d + [Blk(0, [])]))
  {
    hide Content, Conveyed, Placed, Strong, Pledged;
    ConveyedBounds(md, ms, d0, s0, d, s, n);
    ConveyedAlloc(md, ms, d0, s0, d, s, n);
    PlacedAlloc(md, ms, d0, s0, d, s, Content(s0)[..n]);
  }

  lemma CarriedFree(md: nat, ms: nat, d0: Chain, s0: Chain, d: Chain, s: Chain, n: nat)
    requires Carried(md, ms, d0, s0, d, s, n)
    requires s != [] && Drained(s[0]) && |s[0].bytes| == ms
    ensures Carried(md, ms, d0, s0, d, s[1..], n)
    ensures |s| > 1 ==> !Drained(s[1..][0]) || |s[1..][0].bytes| < ms
    ensures |s| > 1 && Strong(ms, s) ==> !Drained(s[1..][0])
  {
    hide Content, Conveyed, Placed, Strong;
    ConveyedBounds(md, ms, d0, s0, d, s, n);
    ConveyedFree(md, ms, d0, s0, d, s, n);
    PlacedFree(md, ms, d0, s0, d, s, Content(s0)[..n]);
  }

  lemma ConveyedBounds(md: nat, ms: nat, d0: Chain, s0: Chain, d: Chain, s: Chain, n: nat)
    requires Conveyed(md, ms, d0, s0, d, s, n)
    ensures md > 0 && ms > 0 && Base(md, d) && Base(ms, s) && n <= |Content(s0)|
    ensures d != [] ==> |d[|d| - 1].bytes| <= md
    ensures s != [] ==> s[0].rdi <= |s[0].bytes| <= ms
    ensures Strong(ms, s0) ==> Strong(ms, s)
  {
  }

  lemma PledgeKept(maxi: nat, c: Chain, x: byte)
    requires Pledged(maxi, c) && c != [] && |c[|c| - 1].bytes| < maxi
    ensures Strong(maxi, Append(c, x)) && Pledged(maxi, Append(c, x))
  {
    AppendFacts(Fifo(maxi + 1, 0, c), x);
    var e := Append(c, x);
    assert forall i :: 0 <= i < |c| - 1 ==> e[i] == c[i];
  }

  // -------- Properties of a completed move --------

  lemma SplitConserves(a: seq<byte>, b: seq<byte>, n: nat)
    requires n <= |b|
    ensures (a + b[..n]) + b[n..] == a + b && |a + b[..n]| == |a| + n
  {
  }

  /** Nothing is lost: the destination followed by the source is the same byte sequence as before. */
  lemma CopyConserves(md: nat, ms: nat, d0: Chain, s0: Chain, d: Chain, s: Chain, n: nat)
    requires Carried(md, ms, d0, s0, d, s, n)
    ensures Content(d) + Content(s) == Content(d0) + Content(s0)
    ensures |Content(d)| == |Content(d0)| + n
  {
    hide Content, Weak, Base, Strong;
    SplitConserves(Content(d0), Content(s0), n);
  }

  /** Room at the destination shrinks by what arrives and grows by the blocks that the source returned. */
  lemma CopyRoom(md: nat, ms: nat, d0: Chain, s0: Chain, d: Chain, s: Chain, n: nat,
                 free0: nat, free: nat, returned: int)
    requires Carried(md, ms, d0, s0, d, s, n)
    requires free + |d| == free0 + |d0| + returned
    ensures Room(Fifo(md, free, d)) + n == Room(Fifo(md, free0, d0)) + md * returned
  {
    hide Carried, Room, Used;
    CarriedUsed(md, ms, d0, s0, d, s, n);
    RoomIsUnused(Fifo(md, free0, d0));
    RoomIsUnused(Fifo(md, free, d));
    Distribute(md, free0 + |d0|, returned);
  }

  lemma RoomIsUnused(f: Fifo)
    ensures Room(f) == f.maxi * (f.free + |f.chain|) - Used(f.maxi, f.chain)
  {
    Distribute(f.maxi, f.free, |f.chain|);
  }

  lemma CarriedUsed(md: nat, ms: nat, d0: Chain, s0: Chain, d: Chain, s: Chain, n: nat)
    requires Carried(md, ms, d0, s0, d, s, n)
    ensures Used(md, d) == Used(md, d0) + n && (d == [] ==> d0 == [])
  {
  }

  lemma CarriedSource(md: nat, ms: nat, d0: Chain, s0: Chain, d: Chain, s: Chain, n: nat)
    requires Carried(md, ms, d0, s0, d, s, n)
    ensures md > 0 && ms > 0 && Base(md, d) && Base(ms, s)
    ensures n <= |Reach(ms, s0)| && |Reach(ms, s)| == |Reach(ms, s0)| - n
    ensures s != [] ==> s0 != [] && Offset(s) + ms * (|s0| - |s|) == Offset(s0) + n
  {
  }

  /** A source whose head is drained and stays has nothing more within reach. */
  lemma ReachNothing(maxi: nat, c: Chain)
    requires c == [] || (Drained(c[0]) && |c[0].bytes| < maxi)
    ensures Reach(maxi, c) == []
  {
  }

  /**
    The destination is so short of room that it is full before the source can
    return its head block, or has no block at all and cannot get one.
   */
  predicate Tight(f: Fifo, s0: Chain) {
    Room(f) + Offset(s0) < f.maxi || (f.chain == [] && f.free == 0)
  }

  /**
    How many bytes of a request for `num` a copy moves from `s0`, with blocks of
    `ms` bytes, to `f`: as many as are within reach and fit, except that on a
    shared pool the room only counts if the destination is tight.
   */
  function CopyLength(f: Fifo, ms: nat, s0: Chain, shared: bool, num: nat): nat {
    var r := |Reach(ms, s0)|;
    Min(num, if shared && !Tight(f, s0) then r else Min(r, Room(f)))
  }

  /** With a pool of its own for the destination, the room there is a limit. */
  lemma CopyExact(md: nat, ms: nat, d0: Chain, s0: Chain, d: Chain, s: Chain, n: nat, num: nat, free0: nat, free: nat)
    requires Carried(md, ms, d0, s0, d, s, n)
    requires free + |d| == free0 + |d0| && n <= num
    requires n < num ==> Reach(ms, s) == [] || (NeedsBlock(Fifo(md, free, d)) && free == 0)
    ensures n == CopyLength(Fifo(md, free0, d0), ms, s0, false, num)
  {
    hide Reach, Base, Room, Carried, Offset, NeedsBlock;
    CarriedSource(md, ms, d0, s0, d, s, n);
    CopyRoom(md, ms, d0, s0, d, s, n, free0, free, 0);
    if n < num && Reach(ms, s) != [] {
      NoRoom(Fifo(md, free, d));
    }
  }

  // -------- Both lists on one pool --------

  /** As long as the source has returned no block, a tight destination keeps it from doing so. */
  lemma TightKeepsBlocks(m: nat, d0: Chain, s0: Chain, d: Chain, s: Chain, n: nat, free0: nat, free: nat)
    requires Carried(m, m, d0, s0, d, s, n)
    requires free + |d| == free0 + |d0| && |s| == |s0|
    requires d != [] && s != [] && Drained(s[0]) && |s[0].bytes| == m
    ensures !Tight(Fifo(m, free0, d0), s0)
  {
    hide Base, Room, Carried, Reach;
    CopyRoom(m, m, d0, s0, d, s, n, free0, free, 0);
    CarriedSource(m, m, d0, s0, d, s, n);
    CarriedUsed(m, m, d0, s0, d, s, n);
  }

  /** If the copy is cut short although the source has data, then the destination was tight. */
  lemma StallMeansTight(m: nat, d0: Chain, s0: Chain, d: Chain, s: Chain, n: nat, free0: nat, free: nat)
    requires Carried(m, m, d0, s0, d, s, n)
    requires free + |d| + |s| == free0 + |d0| + |s0|
    requires NeedsBlock(Fifo(m, free, d)) && free == 0
    requires s != [] && (d == [] || !Drained(s[0])) && |s| <= |s0|
    ensures Tight(Fifo(m, free0, d0), s0)
  {
    hide Base, Room, Carried, Offset, NeedsBlock, Reach;
    CopyRoom(m, m, d0, s0, d, s, n, free0, free, |s0| - |s|);
    CarriedSource(m, m, d0, s0, d, s, n);
    CarriedUsed(m, m, d0, s0, d, s, n);
    NoRoom(Fifo(m, free, d));
    OffsetBelow(m, s);
  }

  lemma OffsetBelow(m: nat, s: Chain)
    requires Base(m, s) && s != []
    ensures Offset(s) == s[0].rdi <= |s[0].bytes| <= m
  {
  }

  /** On a shared pool, the room at the destination is a limit only if it is tight. */
  lemma CopySharedExact(m: nat, d0: Chain, s0: Chain, d: Chain, s: Chain, n: nat, num: nat, free0: nat, free: nat)
    requires Carried(m, m, d0, s0, d, s, n) && n <= num && |s| <= |s0|
    requires free + |d| + |s| == free0 + |d0| + |s0|
    requires Tight(Fifo(m, free0, d0), s0) ==> |s| == |s0|
    requires n < num ==> Reach(m, s) == [] || (NeedsBlock(Fifo(m, free, d)) && free == 0
                                               && s != [] && (d == [] || !Drained(s[0])))
    ensures n == CopyLength(Fifo(m, free0, d0), m, s0, true, num)
  {
    hide Base, Room, Carried, Offset, NeedsBlock, Tight, Reach;
    CarriedSource(m, m, d0, s0, d, s, n);
    if Tight(Fifo(m, free0, d0), s0) {
      CopyRoom(m, m, d0, s0, d, s, n, free0, free, 0);
      if n < num && Reach(m, s) != [] {
        NoRoom(Fifo(m, free, d));
      }
    } else if n < num && Reach(m, s) != [] {
      StallMeansTight(m, d0, s0, d, s, n, free0, free);
    }
  }
}
