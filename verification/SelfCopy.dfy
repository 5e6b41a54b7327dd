/**
  Copying a buffer list onto itself. The program does not reject it: the bytes
  at the head move to the tail of the same list, so that its content rotates.
  As long as head and tail are different blocks that is all. When they are the
  same block, the program measures what is left in it before it appends to it,
  and may return it to the pool with data in it.
 */
module SelfCopying {
  import opened Basics
  import opened Layout
  import opened FifoSpec
  import opened LinkList
  import opened MemoryPool
  import opened BufLists
  import opened Placement
  import opened Transfer

  // -------- Rotation --------

  function Rotate(s: seq<byte>): seq<byte> {
    if s == [] then [] else s[1..] + [s[0]]
  }

  function Rotated(s: seq<byte>, n: nat): seq<byte> {
    if n == 0 then s else Rotate(Rotated(s, n - 1))
  }

  /** Up to a full turn, the first `n` bytes go behind the others. */
  lemma {:induction false} RotatedOnce(s: seq<byte>, n: nat)
    requires n <= |s|
    ensures Rotated(s, n) == s[n..] + s[..n]
  {
    if n > 0 {
      RotatedOnce(s, n - 1);
    }
  }

  lemma {:induction false} RotatedLength(s: seq<byte>, n: nat)
    ensures |Rotated(s, n)| == |s|
  {
    if n > 0 {
      RotatedLength(s, n - 1);
    }
  }

  // -------- When data is lost --------

  /**
    Copying `num` bytes of `f` onto itself comes to a point where all data lies
    in one block, with as many cells left behind it as there are bytes.
   */
  ghost predicate Loses(f: Fifo, num: nat) {
    var t, room := |Content(f.chain)|, TailRoom(f.maxi, f.chain);
    && Weak(f.maxi, f.chain) && t > 0
    && (|| (|f.chain| == 1 && room == t && num >= t)
        || (2 * t == f.maxi && num + Offset(f.chain) >= f.maxi + t
            && (|f.chain| == 2 || (|f.chain| == 1 && room < t && f.free > 0))))
  }

  /**
    How many bytes of a request for `num` are copied. If not all blocks before
    the tail are full, the source ends at its reach as in any copy. Else it goes
    on with what has just been written, and only comes to an end if there is no
    room, or in a block that holds all data and has cells left for all of it.
   */
  ghost function Turns(f: Fifo, num: nat): nat {
    var t, o, room := |Content(f.chain)|, Offset(f.chain), TailRoom(f.maxi, f.chain);
    if !Weak(f.maxi, f.chain) then CopyLength(f, f.maxi, f.chain, true, num)
    else if t == 0 then 0
    else if |f.chain| == 1 && room >= t then Min(num, t)
    else if Room(f) + o < f.maxi then Min(num, Room(f))
    else if 2 * t <= f.maxi && o <= f.maxi then Min(num, f.maxi - o + t)
    else num
  }

  /** One byte moved from the head to the tail. */
  function Shift(f: Fifo): Fifo
    requires f.chain != [] && f.chain[0].rdi < |f.chain[0].bytes|
  {
    f.(chain := Append(Advance(f.chain), f.chain[0].bytes[f.chain[0].rdi]))
  }

  /** `g` follows from `f` by moving `k` bytes from the head block to the tail block. */
  ghost predicate Shifted(f: Fifo, g: Fifo, k: nat) {
    && Fit(g) && g.maxi == f.maxi && g.free == f.free && |g.chain| == |f.chain| && f.chain != []
    && Content(g.chain) == Rotated(Content(f.chain), k)
    && Offset(g.chain) == Offset(f.chain) + k && TailRoom(g.maxi, g.chain) + k == TailRoom(f.maxi, f.chain)
    && (Weak(g.maxi, g.chain) <==> Weak(f.maxi, f.chain))
    && |g.chain[0].bytes| == |f.chain[0].bytes| + (if |f.chain| == 1 then k else 0)
    && (!Weak(f.maxi, f.chain) ==>
          k <= |Reach(f.maxi, f.chain)| && Reach(g.maxi, g.chain) == Reach(f.maxi, f.chain)[k..])
  }

  lemma ShiftedStart(f: Fifo)
    requires Fit(f) && f.chain != []
    ensures Shifted(f, f, 0)
  {
  }

  lemma AdvanceStrength(f: Fifo)
    requires Fit(f) && f.chain != [] && !Drained(f.chain[0])
    ensures Weak(f.maxi, Advance(f.chain)) <==> Weak(f.maxi, f.chain)
  {
    var c, d := f.chain, Advance(f.chain);
    assert forall i :: 0 <= i < |c| ==> d[i].bytes == c[i].bytes;
  }

  lemma ShiftFacts(f: Fifo)
    requires Fit(f) && f.chain != [] && !Drained(f.chain[0]) && TailRoom(f.maxi, f.chain) > 0
    ensures Shifted(f, Shift(f), 1)
  {
    hide Content, Weak, Reach;
    var x := f.chain[0].bytes[f.chain[0].rdi];
    var h := f.(chain := Advance(f.chain));
    ReachAdvance(f.maxi, f.chain);
    ReachAppend(h.maxi, h.chain, x);
    AdvanceFacts(f);
    AdvanceStrength(f);
    AppendFacts(h, x);
    AppendStrength(h, x);
    assert Rotated(Content(f.chain), 1) == Rotate(Rotated(Content(f.chain), 0));
    assert Content(f.chain)[1..] == Content(h.chain);
  }

  lemma {:induction false} RotatedAdd(s: seq<byte>, k: nat, n: nat)
    ensures Rotated(Rotated(s, k), n) == Rotated(s, k + n)
    decreases n
  {
    if n > 0 {
      RotatedAdd(s, k, n - 1);
    }
  }

  lemma ShiftedStep(f: Fifo, g: Fifo, k: nat)
    requires Shifted(f, g, k) && !Drained(g.chain[0]) && TailRoom(g.maxi, g.chain) > 0
    ensures Shifted(f, Shift(g), k + 1)
  {
    hide Content, Weak, Base, TailRoom, Offset, Reach;
    ShiftFacts(g);
    RotatedAdd(Content(f.chain), k, 1);
  }

  /** On a weakly sound chain of several blocks, all blocks between head and tail are full of data. */
  lemma MiddleIsData(f: Fifo)
    requires Fit(f) && Weak(f.maxi, f.chain) && |f.chain| >= 2
    ensures |Content(f.chain)| + Offset(f.chain) + TailRoom(f.maxi, f.chain) == f.maxi * |f.chain|
    ensures |f.chain| >= 3 || TailRoom(f.maxi, f.chain) == 0 ==> |Content(f.chain)| >= f.maxi
  {
    hide Content, Weak, Base, Offset, TailRoom;
    CellsOfChain(f.maxi, f.chain);
    OffsetBelow(f.maxi, f.chain);
    TailRoomBelow(f.maxi, f.chain);
    Distribute(f.maxi, 2, |f.chain| - 2);
  }

  lemma TailRoomBelow(maxi: nat, c: Chain)
    ensures TailRoom(maxi, c) <= maxi
  {
  }

  lemma OneBlock(f: Fifo)
    requires Fit(f) && |f.chain| == 1
    ensures Weak(f.maxi, f.chain)
    ensures Content(f.chain) == Pending(f.chain[0])
    ensures |Content(f.chain)| + Offset(f.chain) + TailRoom(f.maxi, f.chain) == f.maxi
  {
    assert f.chain == [f.chain[0]];
    ContentOne(f.chain[0]);
  }

  /** A new tail block changes nothing about it. */
  lemma GrowLoses(f: Fifo, num: nat)
    requires Fit(f) && f.chain != [] && NeedsBlock(f)
    ensures f.free > 0 ==> (Loses(Grow(f), num) <==> Loses(f, num))
    ensures f.free == 0 ==> !Loses(f, num)
  {
    hide Content, Weak;
    if |f.chain| == 1 {
      OneBlock(f);
    } else if Weak(f.maxi, f.chain) {
      MiddleIsData(f);
    }
    if f.free > 0 {
      GrowStrength(f);
      ContentGrow(f.chain);
    }
  }

  /** The end of a round with bytes left in the head block. */
  lemma RoundLoses(f: Fifo, g: Fifo, k: nat, num: nat)
    requires Fit(f) && Shifted(f, g, k) && k <= num
    requires k < |Pending(f.chain[0])| && (k == num || TailRoom(g.maxi, g.chain) == 0)
    ensures Loses(g, num - k) <==> Loses(f, num)
  {
    hide Content, Weak, Base, TailRoom;
    RotatedLength(Content(f.chain), k);
    if |f.chain| == 1 {
      OneBlock(f);
    }
  }

  /** The end of a round in which the only block has been measured as drained. */
  lemma LastRoundLoses(f: Fifo, g: Fifo, k: nat, num: nat)
    requires Fit(f) && Shifted(f, g, k) && k <= num && |f.chain| == 1 && k == |Pending(f.chain[0])|
    ensures Loses(f, num) <==> |g.chain[0].bytes| == f.maxi && k > 0
  {
    hide Content, Weak, Base;
    OneBlock(f);
  }

  /** The end of a round in which the head of several blocks has been drained. */
  lemma DrainedRoundLoses(f: Fifo, g: Fifo, k: nat, num: nat)
    requires Fit(f) && Shifted(f, g, k) && k <= num && |f.chain| > 1 && k == |Pending(f.chain[0])|
    ensures Drained(g.chain[0])
    ensures |g.chain[0].bytes| == f.maxi ==> (Loses(Settle(g), num - k) <==> Loses(f, num))
    ensures |g.chain[0].bytes| < f.maxi ==> !Loses(f, num)
  {
    hide Content, Weak;
    RotatedLength(Content(f.chain), k);
    BaseTail(g.maxi, g.chain);
    if |g.chain[0].bytes| == f.maxi {
      var h := Settle(g);
      SettleFacts(g);
      assert h.chain == g.chain[1..];
      assert h.chain[|h.chain| - 1] == g.chain[|g.chain| - 1];
      if Weak(f.maxi, f.chain) {
        MiddleIsData(g);
        if |h.chain| == 1 {
          OneBlock(h);
        } else {
          MiddleIsData(h);
        }
      }
    }
  }

  // -------- How many bytes are copied --------

  lemma GrowTurns(f: Fifo, num: nat)
    requires Fit(f) && f.chain != [] && NeedsBlock(f)
    ensures f.free > 0 ==> Turns(Grow(f), num) == Turns(f, num)
    ensures f.free == 0 && Staying(f) ==> Turns(f, num) == 0
  {
    hide Content, Weak, Base, Reach, Room;
    NoRoom(f);
    OffsetBelow(f.maxi, f.chain);
    if f.free > 0 {
      GrowRoom(f);
      GrowStrength(f);
      ContentGrow(f.chain);
      ReachGrow(f.maxi, f.chain);
      GrowOffset(f);
    }
  }

  lemma GrowOffset(f: Fifo)
    requires f.chain != [] && f.free > 0
    ensures Offset(Grow(f).chain) == Offset(f.chain) && TailRoom(f.maxi, Grow(f).chain) == f.maxi
  {
  }

  /** The head block is not about to be returned. */
  ghost predicate Staying(f: Fifo)
    requires f.chain != []
  {
    !Drained(f.chain[0]) || |f.chain[0].bytes| < f.maxi
  }

  lemma ShiftedRoom(f: Fifo, g: Fifo, k: nat)
    requires Shifted(f, g, k)
    ensures Room(g) + k == Room(f) && Offset(g.chain) == Offset(f.chain) + k && g.maxi == f.maxi
    ensures |Content(g.chain)| == |Content(f.chain)| && |g.chain| == |f.chain|
    ensures TailRoom(g.maxi, g.chain) + k == TailRoom(f.maxi, f.chain)
    ensures Weak(g.maxi, g.chain) <==> Weak(f.maxi, f.chain)
    ensures !Weak(f.maxi, f.chain) ==> |Reach(g.maxi, g.chain)| + k == |Reach(f.maxi, f.chain)|
  {
    hide Content, Weak, Reach, TailRoom, Offset;
    RotatedLength(Content(f.chain), k);
  }

  lemma RoundTurns(f: Fifo, g: Fifo, k: nat, num: nat)
    requires Fit(f) && Shifted(f, g, k) && k <= num
    requires k < |Pending(f.chain[0])| && (k == num || TailRoom(g.maxi, g.chain) == 0)
    ensures k + Turns(g, num - k) == Turns(f, num)
  {
    hide Content, Weak, Base, Reach, Room, TailRoom, Shifted;
    ShiftedRoom(f, g, k);
    ShiftedHead(f, g, k);
    OffsetBelow(f.maxi, f.chain);
    OffsetBelow(g.maxi, g.chain);
    RoomIsMore(f);
    if |f.chain| == 1 {
      OneBlock(f);
    } else {
      HeadInContent(f);
    }
  }

  lemma RoomIsMore(f: Fifo)
    ensures TailRoom(f.maxi, f.chain) <= Room(f)
  {
  }

  lemma HeadInContent(f: Fifo)
    requires f.chain != []
    ensures |Pending(f.chain[0])| <= |Content(f.chain)| && |Pending(f.chain[0])| <= |Reach(f.maxi, f.chain)|
    ensures |f.chain[0].bytes| != f.maxi ==>
              Reach(f.maxi, f.chain) == Pending(f.chain[0]) && (|f.chain| > 1 ==> !Weak(f.maxi, f.chain))
  {
  }

  lemma LastRoundTurns(f: Fifo, num: nat)
    requires Fit(f) && |f.chain| == 1 && |Pending(f.chain[0])| <= num
    requires |Pending(f.chain[0])| <= TailRoom(f.maxi, f.chain)
    ensures Turns(f, num) == |Pending(f.chain[0])|
  {
    hide Content, Weak, Base;
    OneBlock(f);
  }

  lemma DrainedRoundTurns(f: Fifo, g: Fifo, k: nat, num: nat)
    requires Fit(f) && Shifted(f, g, k) && k <= num && |f.chain| > 1 && k == |Pending(f.chain[0])|
    ensures |g.chain[0].bytes| == f.maxi ==> k + Turns(Settle(g), num - k) == Turns(f, num)
    ensures |g.chain[0].bytes| < f.maxi ==> Turns(f, num) == k
  {
    hide Content, Weak, Base, Reach, Room, Shifted, TailRoom;
    ShiftedRoom(f, g, k);
    ShiftedHead(f, g, k);
    OffsetBelow(f.maxi, f.chain);
    OffsetBelow(g.maxi, g.chain);
    RoomIsMore(f);
    HeadInContent(f);
    if |g.chain[0].bytes| == f.maxi {
      ReturnedTurns(g);
    }
  }

  /** What a returned head block means for the room and the invariant. */
  lemma ReturnedTurns(g: Fifo)
    requires Fit(g) && |g.chain| > 1 && Drained(g.chain[0]) && |g.chain[0].bytes| == g.maxi
    ensures var h := Settle(g);
            && Fit(h) && h.chain == g.chain[1..] && Offset(h.chain) == 0 && Room(h) == Room(g) + g.maxi
            && Content(h.chain) == Content(g.chain) && Reach(h.maxi, h.chain) == Reach(g.maxi, g.chain)
            && (Weak(h.maxi, h.chain) <==> Weak(g.maxi, g.chain))
            && (|h.chain| == 1 ==> |Content(h.chain)| + TailRoom(h.maxi, h.chain) == h.maxi)
            && (|h.chain| > 1 && Weak(h.maxi, h.chain) ==> |Content(h.chain)| >= h.maxi)
  {
    hide Content, Weak, Reach;
    var h := Settle(g);
    SettleFacts(g);
    SettleReach(g);
    BaseTail(g.maxi, g.chain);
    assert h.chain == g.chain[1..];
    assert h.chain[|h.chain| - 1] == g.chain[|g.chain| - 1];
    Distribute(g.maxi, g.free, 1);
    if |h.chain| == 1 {
      OneBlock(h);
    } else if Weak(h.maxi, h.chain) {
      FullHead(h);
    }
  }

  lemma FullHead(h: Fifo)
    requires Fit(h) && Weak(h.maxi, h.chain) && |h.chain| > 1 && h.chain[0].rdi == 0
    ensures |Content(h.chain)| >= h.maxi
  {
    HeadInContent(h);
  }

  // -------- Which blocks are left --------

  /**
    `e` is the chain `c0` with the bytes `t` written behind it, and possibly a
    spare block; `c` is what is left of it after reading.
   */
  ghost predicate Whole(maxi: nat, c0: Chain, e: Chain, c: Chain, t: seq<byte>) {
    && Placed(maxi, maxi, c0, e, e, c, t) && Base(maxi, e)
    && (c != [] ==> e[|e| - 1].bytes == c[|c| - 1].bytes)
  }

  lemma WholeStart(maxi: nat, c: Chain)
    requires Base(maxi, c)
    ensures Whole(maxi, c, c, c, [])
  {
    PlacedStart(maxi, maxi, c, c);
  }

  lemma ShortenedAppend(maxi: nat, e: Chain, c: Chain, x: byte)
    requires Shortened(maxi, e, c) && c != [] && e[|e| - 1].bytes == c[|c| - 1].bytes
    ensures Shortened(maxi, Append(e, x), Append(c, x))
  {
    var k, e', c' := |e| - |c|, Append(e, x), Append(c, x);
    assert forall i :: 0 <= i < |e| - 1 ==> e'[i] == e[i];
    assert forall i :: 0 <= i < |c| - 1 ==> c'[i] == c[i];
    assert |c| > 1 ==> c[|c| - 1] == e[k + (|c| - 1)];
  }

  lemma WholeByte(maxi: nat, c0: Chain, e: Chain, c: Chain, t: seq<byte>, x: byte)
    requires Whole(maxi, c0, e, c, t) && maxi > 0 && c != [] && |c[|c| - 1].bytes| < maxi
    ensures Whole(maxi, c0, Append(e, x), Append(Advance(c), x), t + [x]) && !Spare(c0, Append(e, x))
  {
    hide Extended, Shortened;
    ShortenedLength(maxi, e, c);
    PlacedByte(maxi, maxi, c0, e, e, c, t, x);
    AdvanceTail(c);
    ShortenedAdvance(maxi, e, c);
    ShortenedAppend(maxi, e, Advance(c), x);
  }

  lemma ShortenedLength(maxi: nat, e: Chain, c: Chain)
    requires Shortened(maxi, e, c)
    ensures |c| <= |e|
  {
  }

  lemma AdvanceTail(c: Chain)
    requires c != []
    ensures |Advance(c)| == |c| && Advance(c)[|c| - 1].bytes == c[|c| - 1].bytes
  {
  }

  lemma WholeAlloc(maxi: nat, c0: Chain, e: Chain, c: Chain, t: seq<byte>)
    requires Whole(maxi, c0, e, c, t) && maxi > 0 && c != [] && FullTail(maxi, c)
    ensures Whole(maxi, c0, e + [Blk(0, [])], c + [Blk(0, [])], t)
    ensures Spare(c0, e + [Blk(0, [])]) && Body(c0, e + [Blk(0, [])]) == e
  {
    hide Extended, Shortened;
    TailsAgree(maxi, c0, e, c, t);
    PlacedAlloc(maxi, maxi, c0, e, e, c, t);
    ShortenedGrow(maxi, e, c);
    GrowBase(maxi, e);
  }

  lemma ShortenedGrow(maxi: nat, e: Chain, c: Chain)
    requires Shortened(maxi, e, c) && c != []
    ensures Shortened(maxi, e + [Blk(0, [])], c + [Blk(0, [])])
  {
    var k, b := |e| - |c|, Blk(0, []);
    assert forall i :: 0 <= i < |c| ==> (c + [b])[i] == c[i];
    assert forall i :: 0 <= i < |e| ==> (e + [b])[i] == e[i];
    assert (c + [b])[|c|] == (e + [b])[k + |c|];
  }

  lemma GrowBase(maxi: nat, e: Chain)
    requires Base(maxi, e)
    ensures Base(maxi, e + [Blk(0, [])])
  {
  }

  lemma WholeFree(maxi: nat, c0: Chain, e: Chain, c: Chain, t: seq<byte>)
    requires Whole(maxi, c0, e, c, t) && c != [] && |c[0].bytes| == maxi
    ensures Whole(maxi, c0, e, c[1..], t)
  {
    PlacedFree(maxi, maxi, c0, e, e, c, t);
  }

  /**
    A spare block is left if the request is not met, the blocks are full, there is
    a free block for it, and an empty block has come up behind a returned one.
   */
  predicate SparesOwn(f0: Fifo, num: nat, e: Chain, c: Chain, n: nat) {
    && n < num && FullTail(f0.maxi, Body(f0.chain, e)) && f0.free + |e| - |c| > |Body(f0.chain, e)| - |f0.chain|
    && c != [] && c[0].bytes == [] && |c| < |e|
  }

  /**
    The blocks after a copy of `f0` onto itself that loses nothing: what is left of
    `f0` with the bytes `t` written behind it. The head is not drained and full,
    unless nothing was asked for, and there is a spare block exactly if one is left.
   */
  ghost predicate SelfLayout(f0: Fifo, num: nat, e: Chain, c: Chain, t: seq<byte>, n: nat) {
    && |t| == n && Whole(f0.maxi, f0.chain, e, c, t)
    && (if num == 0 then c == f0.chain else Settled(f0.maxi, c))
    && (Spare(f0.chain, e) <==> SparesOwn(f0, num, e, c, n))
  }

  /** What holds between two rounds. */
  ghost predicate Amid(f0: Fifo, num: nat, e: Chain, c: Chain, t: seq<byte>, n: nat, dnull: bool) {
    && |t| == n && Whole(f0.maxi, f0.chain, e, c, t) && c != [] && !Spare(f0.chain, e)
    && (Settled(f0.maxi, c) || (c == f0.chain && n == 0 && !dnull))
    && (num == 0 ==> c == f0.chain)
    && (dnull ==> FullTail(f0.maxi, c))
    && (dnull && Drained(c[0]) ==> c[0].bytes == [] && |c| < |e|)
    && (!dnull && FullTail(f0.maxi, c) ==> |c| == |e|)
  }

  /** The request is met, or there is no block to be had. */
  lemma AmidEnds(f0: Fifo, num: nat, e: Chain, c: Chain, t: seq<byte>, n: nat, dnull: bool)
    requires Amid(f0, num, e, c, t, n, dnull)
    requires n == num || (dnull && f0.free + |f0.chain| <= |c|)
    ensures SelfLayout(f0, num, e, c, t, n)
  {
    hide Whole;
  }

  /** What is left after a byte has been moved, or none could be. */
  ghost predicate Stepped(f0: Fifo, e: Chain, c: Chain, e2: Chain, c2: Chain, t2: seq<byte>, k: nat) {
    && c != [] && Whole(f0.maxi, f0.chain, e2, c2, t2) && |e2| == |e| && |c2| == |c|
    && (if k == 0 then e2 == e && c2 == c else !Spare(f0.chain, e2) && c2[0].bytes != [])
  }

  /** The blocks within one round: found, after an allocation, after the bytes, after the source has moved on. */
  datatype Turn = Turn(e: Chain, c: Chain, e1: Chain, c1: Chain, e2: Chain, c2: Chain, c3: Chain)

  /** `over`: the head block has been measured as drained, `snull`: there is no source block to go on with. */
  ghost predicate IsTurn(f0: Fifo, num: nat, w: Turn, t: seq<byte>, n: nat, dnull: bool,
                         t2: seq<byte>, n2: nat, dnull2: bool, over: bool, snull: bool) {
    && Amid(f0, num, w.e, w.c, t, n, dnull) && f0.maxi > 0 && n < num
    && (if dnull then w.e1 == w.e + [Blk(0, [])] && w.c1 == w.c + [Blk(0, [])] && f0.free + |f0.chain| > |w.c|
        else w.e1 == w.e && w.c1 == w.c)
    && MovesOver(f0, num, w, n, t2, n2, dnull2, over, snull)
  }

  /** The bytes of a round, and what then becomes of the head block. */
  ghost predicate MovesOver(f0: Fifo, num: nat, w: Turn, n: nat, t2: seq<byte>, n2: nat,
                            dnull2: bool, over: bool, snull: bool) {
    && n <= n2 <= num && |t2| == n2
    && Stepped(f0, w.e1, w.c1, w.e2, w.c2, t2, n2 - n) && (dnull2 <==> FullTail(f0.maxi, w.c2))
    && (forall i :: 0 < i < |w.c2| ==> w.c2[i].rdi == 0)
    && (if !over then !Drained(w.c2[0]) && (n2 == num || dnull2) && w.c3 == w.c2 && !snull
        else (Drained(w.c2[0]) || |w.c2| == 1)
             && if |w.c2[0].bytes| == f0.maxi then w.c3 == w.c2[1..] && (snull <==> w.c3 == [])
                else |w.c2[0].bytes| < f0.maxi && w.c3 == w.c2 && snull)
  }

  /** After the bytes of a round, the head block still has some, or has been returned. */
  lemma TurnStays(f0: Fifo, num: nat, w: Turn, t: seq<byte>, n: nat, dnull: bool,
                  t2: seq<byte>, n2: nat, dnull2: bool, over: bool)
    requires IsTurn(f0, num, w, t, n, dnull, t2, n2, dnull2, over, false)
    ensures Amid(f0, num, w.e2, w.c3, t2, n2, dnull2)
  {
    hide Whole, Spare;
    WholeSize(f0.maxi, f0.chain, w.e, w.c, t);
    WholeSize(f0.maxi, f0.chain, w.e2, w.c2, t2);
    SpareNothing(f0.chain, w.e2);
    if dnull {
      FreshIsSpare(f0.chain, w.e);
      assert w.c1[0] == w.c[0];
    }
    if over {
      WholeFree(f0.maxi, f0.chain, w.e2, w.c2, t2);
      assert w.c3[0] == w.c2[1] && w.c3[|w.c3| - 1] == w.c2[|w.c2| - 1];
    }
    TailsAgree(f0.maxi, f0.chain, w.e2, w.c2, t2);
  }

  lemma SpareNothing(c0: Chain, e: Chain)
    ensures Spare(c0, e) ==> |e| > |c0| && e[|e| - 1].bytes == []
  {
  }

  lemma FreshIsSpare(c0: Chain, e: Chain)
    requires |c0| <= |e|
    ensures Spare(c0, e + [Blk(0, [])])
  {
  }

  /** After the bytes of a round, the source is given up. */
  lemma TurnStops(f0: Fifo, num: nat, w: Turn, t: seq<byte>, n: nat, dnull: bool,
                  t2: seq<byte>, n2: nat, dnull2: bool, over: bool)
    requires IsTurn(f0, num, w, t, n, dnull, t2, n2, dnull2, over, true)
    ensures SelfLayout(f0, num, w.e2, w.c3, t2, n2)
  {
    if |w.c2[0].bytes| == f0.maxi {
      WholeFree(f0.maxi, f0.chain, w.e2, w.c2, t2);
    }
    if dnull {
      assert w.c1[0] == w.c[0];
      WholeAlloc(f0.maxi, f0.chain, w.e, w.c, t);
    }
    TailsAgree(f0.maxi, f0.chain, w.e2, w.c2, t2);
  }

  lemma TailsAgree(maxi: nat, c0: Chain, e: Chain, c: Chain, t: seq<byte>)
    requires Whole(maxi, c0, e, c, t) && c != []
    ensures FullTail(maxi, e) <==> FullTail(maxi, c)
    ensures |c0| <= |Body(c0, e)|
  {
  }

  // -------- The copy in memory --------

  /** One byte from the head block to the tail block, which may be the same. */
  method ShiftByte(p: BufList, dcb: Link, scb: Link, ghost region: set<Link>)
    requires p.Ready() && p.Within(region) && Fit(p.State()) && p.chain != []
    requires dcb == p.list.tail && TailRoom(p.Size(), p.chain) > 0
    requires scb == p.list.head && p.chain[0].rdi < |p.chain[0].bytes|
    modifies p`chain, dcb`wri, dcb.data, scb`rdi
    ensures p.Ready() && p.Within(region) && p.State() == Shift(old(p.State()))
    ensures p.list.head == scb && p.list.tail == dcb
  {
    hide Shows, List.Valid;
    p.EndsAre();
    var x := p.Fetch(scb);
    p.EndsAre();
    p.Store(dcb, x);
  }

  /** Bytes from the head block to the tail block, until either is done or the request is. */
  method ShiftBlock(p: BufList, dcb: Link, scb: Link, left: nat, ghost c0: Chain, ghost e0: Chain, ghost t0: seq<byte>,
                    ghost region: set<Link>)
    returns (k: nat, nd: Link?, szS: nat, ghost e: Chain, ghost t: seq<byte>)
    requires p.Ready() && p.Within(region) && Fit(p.State()) && p.chain != []
    requires dcb == p.list.tail && scb == p.list.head
    requires Whole(p.Size(), c0, e0, p.chain, t0)
    modifies p`chain, dcb`wri, dcb.data, scb`rdi
    ensures Whole(p.Size(), c0, e, p.chain, t) && |t| == |t0| + k && |e| == |e0|
    ensures if k == 0 then e == e0 && p.chain == old(p.chain) else !Spare(c0, e)
    ensures p.Ready() && p.Within(region) && Shifted(old(p.State()), p.State(), k)
    ensures p.list.head == scb && p.list.tail == dcb
    ensures k <= left && szS + k == |Pending(old(p.chain)[0])|
    ensures k == left || szS == 0 || nd == null
    ensures nd == if TailRoom(p.Size(), p.chain) == 0 then null else dcb
  {
    hide Shifted, Shift, Shows, List.Valid, Whole, Spare;
    ghost var f := p.State();
    e, t := e0, t0;
    p.EndsAre();
    ShiftedStart(f);
    k := 0;
    var szD: nat := p.Size() - dcb.wri;
    szS := scb.wri - scb.rdi;
    while szD > 0 && szS > 0 && k < left
      invariant p.Ready() && p.Within(region) && Shifted(f, p.State(), k)
      invariant p.list.head == scb && p.list.tail == dcb
      invariant k <= left && szD == TailRoom(p.Size(), p.chain) && szS + k == |Pending(f.chain[0])|
      invariant Whole(p.Size(), c0, e, p.chain, t) && |t| == |t0| + k && |e| == |e0|
      invariant if k == 0 then e == e0 && p.chain == f.chain else !Spare(c0, e)
    {
      ShiftedHead(f, p.State(), k);
      ShiftedStep(f, p.State(), k);
      ghost var x := p.chain[0].bytes[p.chain[0].rdi];
      WholeShift(p.State(), c0, e, t);
      e, t := Append(e, x), t + [x];
      ShiftByte(p, dcb, scb, region);
      ShiftedHead(f, p.State(), k + 1);
      szD := szD - 1;
      szS := szS - 1;
      k := k + 1;
    }
    nd := if szD == 0 then null else dcb;
  }

  lemma ShiftedHead(f: Fifo, g: Fifo, k: nat)
    requires Shifted(f, g, k) && Fit(f)
    ensures Fit(g) && g.chain != [] && TailRoom(g.maxi, g.chain) + k == TailRoom(f.maxi, f.chain)
    ensures k < |Pending(f.chain[0])| ==> g.chain[0].rdi < |g.chain[0].bytes| && !Drained(g.chain[0])
    ensures |g.chain| == |f.chain| && (|f.chain| > 1 ==> |g.chain[0].bytes| == |f.chain[0].bytes|)
    ensures 0 < k <= |Pending(f.chain[0])| ==> g.chain[0].bytes != []
    ensures k == |Pending(f.chain[0])| && |f.chain| > 1 ==> Drained(g.chain[0])
  {
  }

  lemma WholeShift(f: Fifo, c0: Chain, e: Chain, t: seq<byte>)
    requires Fit(f) && f.chain != [] && f.chain[0].rdi < |f.chain[0].bytes| && TailRoom(f.maxi, f.chain) > 0
    requires Whole(f.maxi, c0, e, f.chain, t)
    ensures var x := f.chain[0].bytes[f.chain[0].rdi];
            && e != [] && Whole(f.maxi, c0, Append(e, x), Shift(f).chain, t + [x]) && !Spare(c0, Append(e, x))
            && |Append(e, x)| == |e|
  {
    hide Whole, Spare;
    WholeSize(f.maxi, c0, e, f.chain, t);
    WholeByte(f.maxi, c0, e, f.chain, t, f.chain[0].bytes[f.chain[0].rdi]);
  }

  lemma WholeSize(maxi: nat, c0: Chain, e: Chain, c: Chain, t: seq<byte>)
    requires Whole(maxi, c0, e, c, t)
    ensures |c| <= |e| && |c0| <= |e|
  {
  }

  /** With `n` bytes behind, the rest of the copy is the copy of the rest. */
  ghost predicate Ahead(f0: Fifo, num: nat, f: Fifo, n: nat) {
    && n <= num && (Loses(f, num - n) <==> Loses(f0, num))
    && n + Turns(f, num - n) == Turns(f0, num)
  }

  /** What holds between two rounds, with `n` bytes behind and the given places to go on. */
  ghost predicate Turning(f0: Fifo, num: nat, p: BufList, dcb: Link?, scb: Link?, n: nat, region: set<Link>)
    reads p, p.pool, p.list, p.list.nodes, Datas(p.list.Members())
  {
    && p.Ready() && p.Within(region) && Fit(p.State()) && SameBlocks(f0, p.State()) && n <= num
    && Content(p.chain) == Rotated(Content(f0.chain), n)
    && Ahead(f0, num, p.State(), n)
    && scb == p.list.head
    && (if dcb == null then NeedsBlock(p.State()) && (p.chain == [] || Staying(p.State())) else dcb == p.list.tail)
  }

  /** The copy is over: the content has been turned by `n` bytes, or is lost if that was to be. */
  ghost predicate Turned(f0: Fifo, num: nat, f: Fifo, n: nat) {
    && Fit(f) && SameBlocks(f0, f) && n == Turns(f0, num) <= num
    && if Loses(f0, num) then f.chain == [] else Content(f.chain) == Rotated(Content(f0.chain), n)
  }

  ghost function TurnsLeft(p: BufList, dcb: Link?, left: nat): nat
    reads p
  {
    4 * left + 2 * |p.chain| + if dcb == null then 0 else 1
  }

  /** A block to copy into, if there is none. */
  method NextTarget(p: BufList, cb: Link?, ghost f0: Fifo, ghost num: nat, ghost n: nat, ghost region: set<Link>)
    returns (nb: Link?)
    requires Turning(f0, num, p, cb, p.list.head, n, region) && p.chain != []
    modifies p`chain, p.list, p.pool`free, region
    ensures p.Ready() && p.Within(region) && Fit(p.State()) && SameBlocks(f0, p.State()) && p.chain != []
    ensures p.list.head == old(p.list.head) && Content(p.chain) == Rotated(Content(f0.chain), n)
    ensures Ahead(f0, num, p.State(), n)
    ensures nb == null ==> !Loses(f0, num) && n == Turns(f0, num) && p.chain == old(p.chain)
    ensures nb != null ==> nb == p.list.tail && nb in region && nb.data in Datas(region)
    ensures cb != null ==> nb == cb && p.chain == old(p.chain)
    ensures p.chain == if cb == null && nb != null then old(p.chain) + [Blk(0, [])] else old(p.chain)
    ensures if nb == null then |p.pool.free| == 0 else cb == null ==> |old(p.pool.free)| > 0
    ensures cb == null && nb != null ==>
              |p.chain| == |old(p.chain)| + 1 && TailRoom(p.Size(), p.chain) == p.Size() && Staying(p.State())
  {
    hide Content, Loses, Turns, Shows, List.Valid;
    p.EndsAre();
    nb := cb;
    if nb == null {
      GrowLoses(p.State(), num - n);
      GrowTurns(p.State(), num - n);
      PrepareFacts(p.State());
      nb := p.Alloc();
      p.EndsAre();
    }
  }

  /** What the end of a round means on values, if the head block still has data or is given up. */
  lemma TurnOn(f0: Fifo, num: nat, n0: nat, f: Fifo, g: Fifo, k: nat)
    requires SameBlocks(f0, f) && Fit(f) && Content(f.chain) == Rotated(Content(f0.chain), n0) && n0 <= num
    requires Ahead(f0, num, f, n0) && Shifted(f, g, k) && k <= num - n0
    requires k <= |Pending(f.chain[0])|
    ensures Fit(g) && SameBlocks(f0, g) && g.chain != [] && Content(g.chain) == Rotated(Content(f0.chain), n0 + k)
    ensures TailRoom(g.maxi, g.chain) == 0 ==> NeedsBlock(g)
    ensures k < |Pending(f.chain[0])| && (k == num - n0 || TailRoom(g.maxi, g.chain) == 0) ==>
              Staying(g) && Ahead(f0, num, g, n0 + k)
    ensures k == |Pending(f.chain[0])| && |g.chain[0].bytes| < g.maxi ==> Turned(f0, num, g, n0 + k)
    ensures k == |Pending(f.chain[0])| && |g.chain[0].bytes| == g.maxi && |g.chain| == 1 ==>
              Turned(f0, num, Fifo(g.maxi, g.free + 1, []), n0 + k)
    ensures k == |Pending(f.chain[0])| && |g.chain[0].bytes| == g.maxi && |g.chain| > 1 ==>
              && Settle(g) == Fifo(g.maxi, g.free + 1, g.chain[1..]) && Fit(Settle(g)) && Staying(Settle(g))
              && Content(Settle(g).chain) == Content(g.chain)
              && Ahead(f0, num, Settle(g), n0 + k)
              && TailRoom(g.maxi, Settle(g).chain) == TailRoom(g.maxi, g.chain)
              && NeedsBlock(Settle(g)) == NeedsBlock(g)
  {
    hide Content, Loses, Turns, Weak, Reach, Ahead, Turned, Shifted, Staying;
    RotatedAdd(Content(f0.chain), n0, k);
    ShiftedHead(f, g, k);
    ShiftedContent(f, g, k);
    if k < |Pending(f.chain[0])| {
      if k == num - n0 || TailRoom(g.maxi, g.chain) == 0 {
        TurnKeeps(f0, num, n0, f, g, k);
      }
    } else if |f.chain| == 1 {
      TurnLast(f0, num, n0, f, g, k);
    } else {
      TurnDrained(f0, num, n0, f, g, k);
    }
  }

  lemma ShiftedContent(f: Fifo, g: Fifo, k: nat)
    requires Shifted(f, g, k)
    ensures g.maxi == f.maxi && g.free == f.free && Content(g.chain) == Rotated(Content(f.chain), k)
    ensures g.chain[0].rdi <= |g.chain[0].bytes| <= g.maxi
  {
  }

  /** The head block still has bytes. */
  lemma TurnKeeps(f0: Fifo, num: nat, n0: nat, f: Fifo, g: Fifo, k: nat)
    requires Fit(f) && n0 <= num && Ahead(f0, num, f, n0) && Shifted(f, g, k) && k <= num - n0
    requires k < |Pending(f.chain[0])| && (k == num - n0 || TailRoom(g.maxi, g.chain) == 0)
    ensures g.chain != [] && Staying(g) && Ahead(f0, num, g, n0 + k)
  {
    hide Content, Loses, Turns, Weak, Reach, Shifted;
    ShiftedHead(f, g, k);
    RoundLoses(f, g, k, num - n0);
    RoundTurns(f, g, k, num - n0);
  }

  /** The only block has been measured as drained. */
  lemma TurnLast(f0: Fifo, num: nat, n0: nat, f: Fifo, g: Fifo, k: nat)
    requires SameBlocks(f0, f) && Fit(f) && Content(f.chain) == Rotated(Content(f0.chain), n0) && n0 <= num
    requires Ahead(f0, num, f, n0) && Shifted(f, g, k) && k <= num - n0
    requires k == |Pending(f.chain[0])| && |f.chain| == 1
    ensures |g.chain[0].bytes| < g.maxi ==> Turned(f0, num, g, n0 + k)
    ensures |g.chain[0].bytes| == g.maxi ==> Turned(f0, num, Fifo(g.maxi, g.free + 1, []), n0 + k)
  {
    hide Content, Loses, Turns, Weak, Reach, Shifted;
    RotatedAdd(Content(f0.chain), n0, k);
    ShiftedHead(f, g, k);
    ShiftedContent(f, g, k);
    LastRoundLoses(f, g, k, num - n0);
    ShiftedRoom(f, g, k);
    LastRoundTurns(f, num - n0);
    OneBlock(f);
    RotatedLength(Content(f.chain), k);
    ContentNothing();
  }

  /** The head of several blocks has been drained. */
  lemma TurnDrained(f0: Fifo, num: nat, n0: nat, f: Fifo, g: Fifo, k: nat)
    requires SameBlocks(f0, f) && Fit(f) && Content(f.chain) == Rotated(Content(f0.chain), n0) && n0 <= num
    requires Ahead(f0, num, f, n0) && Shifted(f, g, k) && k <= num - n0
    requires k == |Pending(f.chain[0])| && |f.chain| > 1
    ensures |g.chain[0].bytes| < g.maxi ==> Turned(f0, num, g, n0 + k)
    ensures |g.chain[0].bytes| == g.maxi ==>
              && Settle(g) == Fifo(g.maxi, g.free + 1, g.chain[1..]) && Fit(Settle(g)) && Staying(Settle(g))
              && Content(Settle(g).chain) == Content(g.chain) && Ahead(f0, num, Settle(g), n0 + k)
              && TailRoom(g.maxi, Settle(g).chain) == TailRoom(g.maxi, g.chain)
              && NeedsBlock(Settle(g)) == NeedsBlock(g)
  {
    hide Content, Loses, Turns, Weak, Reach, Shifted;
    RotatedAdd(Content(f0.chain), n0, k);
    ShiftedHead(f, g, k);
    ShiftedContent(f, g, k);
    DrainedRoundLoses(f, g, k, num - n0);
    DrainedRoundTurns(f, g, k, num - n0);
    SettleFacts(g);
  }

  /** Return the head block, whether or not it has been drained. */
  method ReturnHead(p: BufList, ghost region: set<Link>) returns (nb: Link?)
    requires p.Ready() && p.Within(region) && p.chain != []
    modifies p`chain, p.list, p.pool`free, region
    ensures p.Ready() && p.Within(region)
    ensures p.State() == Fifo(p.Size(), old(|p.pool.free|) + 1, old(p.chain)[1..])
    ensures nb == p.list.head && (nb == null <==> p.chain == []) && (nb != null ==> p.list.tail == old(p.list.tail))
  {
    hide Shows;
    nb := p.Free();
  }

  /** Past the end of the source block `cb`, which was measured to have `sz` bytes left. */
  method TurnSource(p: BufList, cb: Link, nd: Link?, sz: nat, ghost f0: Fifo, ghost num: nat, ghost n0: nat,
                    ghost f: Fifo, ghost k: nat, ghost region: set<Link>) returns (ns: Link?)
    requires p.Ready() && p.Within(region) && cb == p.list.head
    requires nd == if TailRoom(p.Size(), p.chain) == 0 then null else p.list.tail
    requires SameBlocks(f0, f) && Fit(f) && Content(f.chain) == Rotated(Content(f0.chain), n0) && n0 + k <= num
    requires Ahead(f0, num, f, n0) && Shifted(f, p.State(), k)
    requires sz + k == |Pending(f.chain[0])| && (k == num - n0 || sz == 0 || nd == null)
    modifies p`chain, p.list, p.pool`free, region
    ensures p.Ready() && p.Within(region)
    ensures ns == null ==> Turned(f0, num, p.State(), n0 + k)
    ensures ns != null && n0 + k == num ==> Turned(f0, num, p.State(), num)
    ensures ns != null ==> Turning(f0, num, p, nd, ns, n0 + k, region)
    ensures |p.chain| <= |old(p.chain)|
    ensures sz == 0 && ns != null ==> |p.chain| < |old(p.chain)| && |old(p.chain)[0].bytes| == p.Size()
    ensures old(p.chain) != []
    ensures if sz > 0 then ns == cb && p.chain == old(p.chain)
            else if |old(p.chain)[0].bytes| == p.Size() then
              p.chain == old(p.chain)[1..] && (ns == null <==> p.chain == [])
            else p.chain == old(p.chain) && ns == null
  {
    hide Content, Ahead, Shifted, Turned, Settle, Shows, List.Valid, BufList.Valid, BufList.Ready, BufList.Within;
    ghost var g := p.State();
    TurnOn(f0, num, n0, f, g, k);
    p.EndsAre();
    ns := cb;
    if sz == 0 {
      if cb.wri == p.Size() {
        ns := ReturnHead(p, region);
      } else {
        ns := null;
      }
    }
    if ns != null {
      TurningEnds(f0, num, p.State(), n0 + k);
    }
  }

  /** With nothing left to copy, nothing is lost any more. */
  lemma TurningEnds(f0: Fifo, num: nat, f: Fifo, n: nat)
    requires Fit(f) && SameBlocks(f0, f) && n <= num && Content(f.chain) == Rotated(Content(f0.chain), n)
    requires Ahead(f0, num, f, n)
    ensures n == num ==> Turned(f0, num, f, n)
  {
    assert Offset(f.chain) <= f.maxi;
  }

  /** The bytes of a round, and moving on. */
  method TurnBlock(p: BufList, dcb: Link, scb: Link, n0: nat, num: nat, ghost f0: Fifo,
                   ghost w0: Turn, ghost t0: seq<byte>, ghost region: set<Link>)
    returns (n: nat, nd: Link?, ns: Link?, ghost w: Turn, ghost t: seq<byte>, ghost over: bool)
    requires p.Ready() && p.Within(region) && Fit(p.State()) && SameBlocks(f0, p.State()) && p.chain != []
    requires dcb == p.list.tail && scb == p.list.head && dcb in region && dcb.data in Datas(region) && scb in region
    requires Content(p.chain) == Rotated(Content(f0.chain), n0) && Ahead(f0, num, p.State(), n0) && n0 < num
    requires w0.c1 == p.chain && Whole(f0.maxi, f0.chain, w0.e1, p.chain, t0) && |t0| == n0
    modifies p`chain, p.list, p.pool`free, region, Datas(region)
    ensures p.Ready() && p.Within(region)
    ensures ns == null ==> Turned(f0, num, p.State(), n)
    ensures ns != null && n == num ==> Turned(f0, num, p.State(), num)
    ensures ns != null ==> Turning(f0, num, p, nd, ns, n, region)
    ensures w == w0.(e2 := w.e2, c2 := w.c2, c3 := p.chain)
    ensures MovesOver(f0, num, w, n0, t, n, nd == null, over, ns == null)
  {
    hide Content, Loses, Turns, Ahead, Shifted, Turned, Shows, List.Valid, Whole, Spare, FullTail, Turning, Drained;
    hide BufList.Valid, BufList.Ready, BufList.Within;
    p.EndsAre();
    ghost var f := p.State();
    var k, szS;
    ghost var e;
    k, nd, szS, e, t := ShiftBlock(p, dcb, scb, num - n0, f0.chain, w0.e1, t0, region);
    n := n0 + k;
    ShiftedHead(f, p.State(), k);
    ghost var g := p.State();
    ns := TurnSource(p, scb, nd, szS, f0, num, n0, f, k, region);
    over := szS == 0;
    w := w0.(e2 := e, c2 := g.chain, c3 := p.chain);
    MakeMoves(f0, num, w, n0, t, n, nd == null, over, ns == null);
  }

  lemma MakeMoves(f0: Fifo, num: nat, w: Turn, n: nat, t2: seq<byte>, n2: nat,
                  dnull2: bool, over: bool, snull: bool)
    requires f0.maxi > 0 && n <= n2 <= num && |t2| == n2 && w.c1 != []
    requires Whole(f0.maxi, f0.chain, w.e2, w.c2, t2) && |w.e2| == |w.e1| && |w.c2| == |w.c1| && Base(f0.maxi, w.c2)
    requires if n2 == n then w.e2 == w.e1 && w.c2 == w.c1 else !Spare(f0.chain, w.e2) && w.c2[0].bytes != []
    requires dnull2 <==> TailRoom(f0.maxi, w.c2) == 0
    requires if !over then !Drained(w.c2[0]) && (n2 == num || dnull2) && w.c3 == w.c2 && !snull
             else (Drained(w.c2[0]) || |w.c2| == 1)
                  && if |w.c2[0].bytes| == f0.maxi then w.c3 == w.c2[1..] && (snull <==> w.c3 == [])
                     else w.c3 == w.c2 && snull
    ensures MovesOver(f0, num, w, n, t2, n2, dnull2, over, snull)
  {
    hide Whole;
  }

  /** One round of the copy. */
  method TurnRound(p: BufList, dcb: Link?, scb: Link, n0: nat, num: nat, ghost f0: Fifo,
                   ghost e0: Chain, ghost t0: seq<byte>, ghost region: set<Link>)
    returns (n: nat, nd: Link?, ns: Link?, stop: bool, ghost e: Chain, ghost t: seq<byte>)
    requires Turning(f0, num, p, dcb, scb, n0, region) && n0 < num && f0.maxi == p.Size()
    requires Amid(f0, num, e0, p.chain, t0, n0, dcb == null)
    modifies p`chain, p.list, p.pool`free, region, Datas(region)
    ensures p.Ready() && p.Within(region)
    ensures stop || ns == null || n == num ==>
              Turned(f0, num, p.State(), n) && SelfLayout(f0, num, e, p.chain, t, n)
    ensures !stop && ns != null ==> Amid(f0, num, e, p.chain, t, n, nd == null)
    ensures !stop ==> n0 <= n <= num
    ensures !stop && ns != null ==>
              Turning(f0, num, p, nd, ns, n, region) && TurnsLeft(p, nd, num - n) < old(TurnsLeft(p, dcb, num - n0))
  {
    hide Content, Loses, Turns, Ahead, Shifted, Turned, Shows, List.Valid, Amid, SelfLayout, Whole, Spare, FullTail;
    hide Stepped, IsTurn, Drained, Turning, BufList.Valid, BufList.Ready, MovesOver;
    n, ns, stop, e, t := n0, scb, false, e0, t0;
    TurningParts(f0, num, p, dcb, scb, n0, region);
    p.EndsAre();
    ghost var c := p.chain;
    AmidParts(f0, num, e0, c, t0, n0, dcb == null);
    nd := NextTarget(p, dcb, f0, num, n0, region);
    if nd == null {
      TurnedAsIs(f0, num, p.State(), n0);
      AmidEnds(f0, num, e0, c, t0, n0, true);
      stop := true;
      return;
    }
    ghost var e1 := if dcb == null then e0 + [Blk(0, [])] else e0;
    ghost var w := Turn(e0, c, e1, p.chain, [], [], []);
    ghost var over;
    n, nd, ns, w, t, over := TurnBlock(p, nd, scb, n0, num, f0, w, t0, region);
    e := w.e2;
    MakeTurn(f0, num, w, t0, n0, dcb == null, t, n, nd == null, over, ns == null);
    if ns == null {
      TurnStops(f0, num, w, t0, n0, dcb == null, t, n, nd == null, over);
    } else {
      TurnStays(f0, num, w, t0, n0, dcb == null, t, n, nd == null, over);
      if n == num {
        AmidEnds(f0, num, e, p.chain, t, n, nd == null);
      }
    }
  }

  lemma TurningParts(f0: Fifo, num: nat, p: BufList, dcb: Link?, scb: Link?, n: nat, region: set<Link>)
    requires Turning(f0, num, p, dcb, scb, n, region)
    ensures p.Ready() && p.Within(region) && Fit(p.State()) && SameBlocks(f0, p.State()) && n <= num
    ensures scb == p.list.head && Content(p.chain) == Rotated(Content(f0.chain), n)
    ensures if dcb == null then NeedsBlock(p.State()) && (p.chain == [] || Staying(p.State())) else dcb == p.list.tail
  {
  }

  /** What a round starts with. */
  lemma AmidParts(f0: Fifo, num: nat, e: Chain, c: Chain, t: seq<byte>, n: nat, dnull: bool)
    requires Amid(f0, num, e, c, t, n, dnull) && f0.maxi > 0
    ensures |t| == n && c != [] && Whole(f0.maxi, f0.chain, e, c, t)
    ensures dnull ==> FullTail(f0.maxi, c) && Whole(f0.maxi, f0.chain, e + [Blk(0, [])], c + [Blk(0, [])], t)
  {
    hide Whole;
    if dnull {
      WholeAlloc(f0.maxi, f0.chain, e, c, t);
    }
  }

  lemma MakeTurn(f0: Fifo, num: nat, w: Turn, t: seq<byte>, n: nat, dnull: bool,
                 t2: seq<byte>, n2: nat, dnull2: bool, over: bool, snull: bool)
    requires Amid(f0, num, w.e, w.c, t, n, dnull) && f0.maxi > 0 && n < num
    requires if dnull then w.e1 == w.e + [Blk(0, [])] && w.c1 == w.c + [Blk(0, [])] && f0.free + |f0.chain| > |w.c|
             else w.e1 == w.e && w.c1 == w.c
    requires MovesOver(f0, num, w, n, t2, n2, dnull2, over, snull)
    ensures IsTurn(f0, num, w, t, n, dnull, t2, n2, dnull2, over, snull) && n <= n2 <= num
    ensures !snull ==> 4 * (num - n2) + 2 * |w.c3| + (if dnull2 then 0 else 1)
                       < 4 * (num - n) + 2 * |w.c| + if dnull then 0 else 1
  {
    hide Whole;
    if dnull {
      assert w.c1[0] == w.c[0];
    }
  }

  lemma TurnedAsIs(f0: Fifo, num: nat, f: Fifo, n: nat)
    requires Fit(f) && SameBlocks(f0, f) && n <= num && Content(f.chain) == Rotated(Content(f0.chain), n)
    requires !Loses(f0, num) && n == Turns(f0, num)
    ensures Turned(f0, num, f, n)
  {
  }

  /**
    `BufCopy` with one list as its destination and its source: the content is
    rotated by the number of bytes copied if and only if the request loses no
    data; if it does, then all data that the list held is lost. The bytes that
    have been copied are `t`, and `e` is the chain with them and without any block
    returned.
   */
  method BufCopySelf(p: BufList, num: nat, ghost region: set<Link>)
    returns (n: nat, ghost e: Chain, ghost t: seq<byte>)
    requires p.Ready() && p.Within(region) && Base(p.Size(), p.chain)
    modifies p`chain, p.list, p.pool`free, region, Datas(region)
    ensures p.Ready() && p.Within(region) && Base(p.Size(), p.chain) && SameBlocks(old(p.State()), p.State())
    ensures n == Turns(old(p.State()), num) <= num
    ensures Content(p.chain) == Rotated(old(Content(p.chain)), n) <==> !Loses(old(p.State()), num)
    ensures Loses(old(p.State()), num) ==> old(Content(p.chain)) != [] && p.chain == []
    ensures SelfLayout(old(p.State()), num, e, p.chain, t, n)
  {
    hide Content, Loses, Turns, Turned, Shows, List.Valid, Turning, Amid, SelfLayout;
    ghost var f0 := p.State();
    n, e, t := 0, p.chain, [];
    NothingTurns(f0, num);
    var dcb := p.list.PeekTail();
    var scb := p.list.PeekHead();
    TurningStart(p, num, region);
    while n < num
      invariant p.Ready() && p.Within(region) && n <= num
      invariant p.Size() == f0.maxi
      invariant if scb == null || n == num then Turned(f0, num, p.State(), n) && SelfLayout(f0, num, e, p.chain, t, n)
                else Turning(f0, num, p, dcb, scb, n, region) && Amid(f0, num, e, p.chain, t, n, dcb == null)
      decreases if scb == null then 0 else 1, TurnsLeft(p, dcb, num - n)
    {
      if scb == null {
        break;
      }
      var stop;
      n, dcb, scb, stop, e, t := TurnRound(p, dcb, scb, n, num, f0, e, t, region);
      if stop {
        break;
      }
    }
    TurnedExact(f0, num, p.State(), n);
  }

  /** Before the first round. */
  lemma NothingTurns(f: Fifo, num: nat)
    requires Fit(f)
    ensures f.chain == [] || num == 0 ==> SelfLayout(f, num, f.chain, f.chain, [], 0)
    ensures f.chain != [] ==> Amid(f, num, f.chain, f.chain, [], 0, false)
  {
    WholeStart(f.maxi, f.chain);
  }

  lemma TurningStart(p: BufList, num: nat, region: set<Link>)
    requires p.Ready() && p.Within(region) && Base(p.Size(), p.chain)
    ensures p.chain == [] || num == 0 ==> Turned(p.State(), num, p.State(), 0)
    ensures p.chain != [] ==> Turning(p.State(), num, p, p.list.tail, p.list.head, 0, region)
    ensures (p.list.head == null <==> p.chain == []) && (p.list.tail == null <==> p.chain == [])
  {
    p.EndsAre();
    ContentNothing();
    if num == 0 {
      TurningEnds(p.State(), num, p.State(), 0);
    }
  }

  lemma TurnedExact(f0: Fifo, num: nat, f: Fifo, n: nat)
    requires Turned(f0, num, f, n)
    ensures Fit(f) && SameBlocks(f0, f) && n == Turns(f0, num) <= num
    ensures Content(f.chain) == Rotated(Content(f0.chain), n) <==> !Loses(f0, num)
    ensures Loses(f0, num) ==> Content(f0.chain) != [] && f.chain == []
  {
    RotatedLength(Content(f0.chain), n);
  }

  /** For every even block size there is a list that loses all its data: half a block, copied onto itself. */
  lemma HalfBlockLoses(f: Fifo)
    requires f.maxi > 0 && |f.chain| == 1 && f.chain[0].rdi == 0 && 2 * |f.chain[0].bytes| == f.maxi
    ensures Loses(f, |f.chain[0].bytes|) && !Loses(f, |f.chain[0].bytes| - 1)
  {
    OneBlock(f);
  }

  /** Data that fits once more behind itself in its only block is copied once at most. */
  lemma OneBlockTurnsOnce(f: Fifo, num: nat)
    requires Fit(f) && |f.chain| == 1 && |f.chain[0].bytes| + |Pending(f.chain[0])| < f.maxi
    ensures Turns(f, num) == Min(num, |Pending(f.chain[0])|) && !Loses(f, num)
  {
    OneBlock(f);
  }

  /** Data that fills a block is copied as often as requested, as long as there is a free block. */
  lemma LongListTurnsOn(f: Fifo, num: nat)
    requires Fit(f) && Weak(f.maxi, f.chain) && |Content(f.chain)| >= f.maxi && f.free > 0
    ensures Turns(f, num) == num && !Loses(f, num)
  {
    if |f.chain| == 1 {
      OneBlock(f);
    }
    assert f.maxi * f.free >= f.maxi;
  }
}
