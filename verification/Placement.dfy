/**
  Which blocks a move between two lists leaves in which list. The source keeps
  what it has not given up; the destination is extended as by a write, and may
  own one more block, allocated for a byte that then did not come.
 */
module Placement {
  import opened Basics
  import opened Layout
  import opened FifoSpec

  /** Both lists before a move, their block sizes, whether they share a pool, and the free blocks for `d`. */
  datatype Origin = Origin(md: nat, ms: nat, shared: bool, d: Chain, s: Chain, free: nat)

  /** The tail of `d` is a block that has been allocated since `d0` and not been written to. */
  predicate Spare(d0: Chain, d: Chain) {
    |d| > |d0| && d[|d| - 1].bytes == []
  }

  /** `d` without such a block. */
  function Body(d0: Chain, d: Chain): Chain {
    if Spare(d0, d) then d[..|d| - 1] else d
  }

  predicate FullTail(maxi: nat, c: Chain) {
    c == [] || |c[|c| - 1].bytes| == maxi
  }

  /** The blocks after the bytes `t` have been moved to the end of `d`, and taken from the front of `s`. */
  ghost predicate Placed(md: nat, ms: nat, d0: Chain, s0: Chain, d: Chain, s: Chain, t: seq<byte>) {
    && Shortened(ms, s0, s) && Extended(md, d0, t, Body(d0, d))
    && (Spare(d0, d) ==> d == Body(d0, d) + [Blk(0, [])] && FullTail(md, Body(d0, d)))
  }

  lemma PlacedStart(md: nat, ms: nat, d: Chain, s: Chain)
    ensures Placed(md, ms, d, s, d, s, [])
  {
    ExtendedSelf(md, d);
    ShortenedSelf(ms, s);
  }

  lemma PlacedByte(md: nat, ms: nat, d0: Chain, s0: Chain, d: Chain, s: Chain, t: seq<byte>, x: byte)
    requires Placed(md, ms, d0, s0, d, s, t) && md > 0 && Base(md, d)
    requires d != [] && |d[|d| - 1].bytes| < md && s != []
    ensures Placed(md, ms, d0, s0, Append(d, x), Advance(s), t + [x]) && !Spare(d0, Append(d, x))
  {
    hide Extended, Shortened;
    ShortenedAdvance(ms, s0, s);
    BaseOfBody(md, d0, d);
    ExtendedStep(md, d0, t, Body(d0, d), x);
  }

  lemma BaseOfBody(md: nat, d0: Chain, d: Chain)
    requires Base(md, d)
    ensures Base(md, Body(d0, d))
  {
  }

  lemma PlacedAlloc(md: nat, ms: nat, d0: Chain, s0: Chain, d: Chain, s: Chain, t: seq<byte>)
    requires Placed(md, ms, d0, s0, d, s, t) && md > 0 && FullTail(md, d)
    ensures Placed(md, ms, d0, s0, d + [Blk(0, [])], s, t) && Body(d0, d + [Blk(0, [])]) == d
  {
    assert |d0| <= |d|;
    assert (d + [Blk(0, [])])[..|d|] == d;
  }

  lemma PlacedFree(md: nat, ms: nat, d0: Chain, s0: Chain, d: Chain, s: Chain, t: seq<byte>)
    requires Placed(md, ms, d0, s0, d, s, t) && s != [] && |s[0].bytes| == ms
    ensures Placed(md, ms, d0, s0, d, s[1..], t)
  {
    hide Extended;
    ShortenedDrop(ms, s0, s);
  }

  // -------- What the move ends with --------

  /** The head of the source is not about to be returned. */
  predicate Settled(ms: nat, s: Chain) {
    s == [] || !Drained(s[0]) || |s[0].bytes| != ms
  }

  /**
    A spare block is left if the request is not met, the blocks of the destination
    are full, there is a free block for it, and the source then has nothing: it had
    nothing from the beginning while the destination owned no block, or an empty
    block has come up behind one that it returned.
   */
  predicate LeavesSpare(o: Origin, num: nat, e: Chain, s: Chain, n: nat) {
    && n < num && FullTail(o.md, e) && o.free + (if o.shared then |o.s| - |s| else 0) > |e| - |o.d|
    && ((n == 0 && o.d == [] && o.s != []) || (|s| < |o.s| && s != [] && s[0].bytes == []))
  }

  /** No block can be had at all, or none is asked for. */
  predicate Idle(o: Origin, num: nat) {
    num == 0 || (o.d == [] && o.free == 0)
  }

  /**
    The blocks after a move of `n` bytes at a request for `num`: nothing happens if
    it is idle; else the source has returned every full block that it has drained,
    and the destination has a spare block exactly if the move leaves one.
   */
  ghost predicate CopyLayout(o: Origin, num: nat, d: Chain, s: Chain, n: nat) {
    && n <= |Content(o.s)| && Placed(o.md, o.ms, o.d, o.s, d, s, Content(o.s)[..n])
    && (if Idle(o, num) then d == o.d && s == o.s else Settled(o.ms, s))
    && (Spare(o.d, d) <==> LeavesSpare(o, num, Body(o.d, d), s, n))
  }

  // -------- What holds between two rounds --------

  ghost predicate Untouched(o: Origin, d: Chain, s: Chain, n: nat) {
    d == o.d && s == o.s && n == 0
  }

  /**
    `dnull`: there is no destination block to go on with; `snull`: there is no
    source block to go on with.
   */
  ghost predicate Between(o: Origin, num: nat, d: Chain, s: Chain, n: nat, dnull: bool, snull: bool) {
    && (Idle(o, num) ==> Untouched(o, d, s, n)) && (d == [] ==> n == 0 && dnull)
    && (if snull then
          Settled(o.ms, s) && (Spare(o.d, d) <==> LeavesSpare(o, num, Body(o.d, d), s, n))
        else
          && s != [] && (Settled(o.ms, s) || (Untouched(o, d, s, n) && (dnull ==> d == [])))
          && (dnull && d != [] && Drained(s[0]) ==> s[0].bytes == [] && |s| < |o.s|)
          && (Spare(o.d, d) ==> o.d == [] && n == 0 && o.free > 0 && !dnull)
          && (o.d == [] && d != [] && n == 0 ==> Spare(o.d, d))
          && (!dnull && FullTail(o.md, d) ==> Untouched(o, d, s, n)))
  }

  lemma BetweenStart(o: Origin, num: nat)
    ensures Between(o, num, o.d, o.s, 0, o.d == [], o.s == [])
  {
  }

  /** There are free blocks in the destination's pool. */
  predicate Available(o: Origin, d: Chain, s: Chain) {
    o.free + (if o.shared then |o.s| - |s| else 0) > |d| - |o.d|
  }

  /** With no block for the destination the move is over. */
  lemma BetweenStop(o: Origin, num: nat, d: Chain, s: Chain, n: nat)
    requires o.md > 0 && Between(o, num, d, s, n, true, false) && FullTail(o.md, d) && !Available(o, d, s)
    requires |s| <= |o.s| && |o.d| <= |d|
    ensures !Spare(o.d, d) && !LeavesSpare(o, num, Body(o.d, d), s, n)
    ensures if Idle(o, num) then Untouched(o, d, s, n) else Settled(o.ms, s)
  {
  }

  /** The blocks within one round: found, after an allocation, after the bytes, after the source has moved on. */
  datatype Round = Round(d: Chain, s: Chain, n: nat, d1: Chain, d2: Chain, s2: Chain, n2: nat, s3: Chain)

  /** A block is allocated if there is none to go on with. */
  ghost predicate Allocates(o: Origin, d: Chain, s: Chain, dnull: bool, d1: Chain) {
    && (dnull ==> FullTail(o.md, d) && Available(o, d, s))
    && d1 == if dnull then d + [Blk(0, [])] else d
  }

  /** Bytes are moved until the destination's block is full, the source's drained, or the request met. */
  ghost predicate Fills(md: nat, num: nat, d: Chain, s: Chain, n: nat, d2: Chain, s2: Chain, n2: nat, dnull2: bool) {
    && d != [] && s != [] && |d2| == |d| && |s2| == |s| && n <= n2 <= num
    && (if n2 == n then d2 == d && s2 == s else d2[|d2| - 1].bytes != [] && s2[0].bytes != [])
    && (dnull2 <==> FullTail(md, d2)) && (n2 == num || dnull2 || Drained(s2[0]))
  }

  /** A drained block is returned if it is full, and else the last one. */
  ghost predicate MovesOn(ms: nat, s2: Chain, s3: Chain, snull2: bool)
    requires s2 != []
  {
    if !Drained(s2[0]) then s3 == s2 && !snull2
    else if |s2[0].bytes| == ms then s3 == s2[1..] && (snull2 <==> s3 == [])
    else s3 == s2 && snull2
  }

  ghost predicate IsRound(o: Origin, num: nat, r: Round, dnull: bool, dnull2: bool, snull2: bool) {
    && o.md > 0 && o.ms > 0 && |r.s| <= |o.s| && |o.d| <= |r.d| && r.n < num
    && (forall i :: 0 < i < |r.s2| ==> r.s2[i].rdi == 0)
    && Allocates(o, r.d, r.s, dnull, r.d1) && Fills(o.md, num, r.d1, r.s, r.n, r.d2, r.s2, r.n2, dnull2)
    && MovesOn(o.ms, r.s2, r.s3, snull2)
  }

  lemma AllocatesIf(o: Origin, d: Chain, s: Chain, dnull: bool, d1: Chain)
    requires dnull ==> FullTail(o.md, d) && Available(o, d, s)
    requires d1 == if dnull then d + [Blk(0, [])] else d
    ensures Allocates(o, d, s, dnull, d1)
  {
  }

  lemma FilledSource(md: nat, num: nat, d: Chain, s: Chain, n: nat, d2: Chain, s2: Chain, n2: nat, dnull2: bool)
    requires Fills(md, num, d, s, n, d2, s2, n2, dnull2)
    ensures s2 != [] && d2 != [] && n <= n2 <= num
  {
  }

  lemma MakeRound(o: Origin, num: nat, r: Round, dnull: bool, dnull2: bool, snull2: bool)
    requires o.md > 0 && o.ms > 0 && |r.s| <= |o.s| && |o.d| <= |r.d| && r.n < num && r.s2 != []
    requires forall i :: 0 < i < |r.s2| ==> r.s2[i].rdi == 0
    requires Allocates(o, r.d, r.s, dnull, r.d1) && Fills(o.md, num, r.d1, r.s, r.n, r.d2, r.s2, r.n2, dnull2)
    requires MovesOn(o.ms, r.s2, r.s3, snull2)
    ensures IsRound(o, num, r, dnull, dnull2, snull2)
  {
  }

  /** A round without progress brings the end of a block, and one for which a block has been allocated moves a byte. */
  lemma RoundProgress(o: Origin, num: nat, r: Round, dnull: bool, dnull2: bool, snull2: bool)
    requires IsRound(o, num, r, dnull, dnull2, snull2)
    ensures r.n2 <= num && 2 * (num - r.n2) + 2 * |r.s3| + (if dnull2 then 0 else 1) + (if snull2 then 0 else 2)
            < 2 * (num - r.n) + 2 * |r.s| + (if dnull then 0 else 1) + 2
    ensures r.n2 == r.n ==> r.d2 == r.d1 && (dnull ==> Drained(r.s[0]))
  {
  }

  /** What the source is left with after a round. */
  lemma RoundSource(o: Origin, num: nat, r: Round, dnull: bool, dnull2: bool, snull2: bool)
    requires IsRound(o, num, r, dnull, dnull2, snull2)
    ensures Settled(o.ms, r.s3) && |r.s3| <= |r.s| && (!snull2 ==> r.s3 != [])
    ensures !snull2 && Drained(r.s3[0]) ==> r.s3[0].bytes == [] && |r.s3| < |o.s|
    ensures snull2 && r.s3 != [] ==> r.s3 == r.s2
  {
    if r.s3 != r.s2 {
      assert r.s3 != [] ==> r.s3[0] == r.s2[1];
    }
  }

  lemma RoundMoves(o: Origin, num: nat, r: Round, dnull: bool, dnull2: bool, snull2: bool)
    requires Between(o, num, r.d, r.s, r.n, dnull, false) && IsRound(o, num, r, dnull, dnull2, snull2)
    requires r.n2 > r.n
    ensures Between(o, num, r.d2, r.s3, r.n2, dnull2, snull2)
  {
    RoundSource(o, num, r, dnull, dnull2, snull2);
    assert !Spare(o.d, r.d2);
  }

  lemma RoundAllocates(o: Origin, num: nat, r: Round, dnull: bool, dnull2: bool, snull2: bool)
    requires Between(o, num, r.d, r.s, r.n, dnull, false) && IsRound(o, num, r, dnull, dnull2, snull2)
    requires r.n2 == r.n && dnull
    ensures Between(o, num, r.d2, r.s3, r.n2, dnull2, snull2)
  {
    RoundSource(o, num, r, dnull, dnull2, snull2);
    assert Spare(o.d, r.d2) && Body(o.d, r.d2) == r.d;
  }

  lemma RoundRests(o: Origin, num: nat, r: Round, dnull: bool, dnull2: bool, snull2: bool)
    requires Between(o, num, r.d, r.s, r.n, dnull, false) && IsRound(o, num, r, dnull, dnull2, snull2)
    requires r.n2 == r.n && !dnull
    requires o.d == [] && r.n == 0 ==> Body(o.d, r.d) == []
    ensures Between(o, num, r.d2, r.s3, r.n2, dnull2, snull2)
  {
    RoundSource(o, num, r, dnull, dnull2, snull2);
    assert r.d2 == r.d;
  }

  lemma RoundBetween(o: Origin, num: nat, r: Round, dnull: bool, dnull2: bool, snull2: bool)
    requires Between(o, num, r.d, r.s, r.n, dnull, false) && IsRound(o, num, r, dnull, dnull2, snull2)
    requires o.d == [] && r.n == 0 ==> Body(o.d, r.d) == []
    ensures Between(o, num, r.d2, r.s3, r.n2, dnull2, snull2)
  {
    hide Between, Body, Settled;
    if r.n2 > r.n {
      RoundMoves(o, num, r, dnull, dnull2, snull2);
    } else if dnull {
      RoundAllocates(o, num, r, dnull, dnull2, snull2);
    } else {
      RoundRests(o, num, r, dnull, dnull2, snull2);
    }
  }

  /** If nothing has been moved to a list without blocks, then it owns at most the spare one. */
  lemma PlacedNothing(md: nat, ms: nat, d0: Chain, s0: Chain, d: Chain, s: Chain, t: seq<byte>)
    requires Placed(md, ms, d0, s0, d, s, t) && d0 == [] && t == []
    ensures Body(d0, d) == []
  {
  }

  /** The end of the copy: the request is met, the source is through, or the destination cannot go on. */
  lemma CopyEnds(o: Origin, num: nat, d: Chain, s: Chain, n: nat, dnull: bool, snull: bool)
    requires Between(o, num, d, s, n, dnull, snull) && o.md > 0 && n <= num && |s| <= |o.s| && |o.d| <= |d|
    requires n <= |Content(o.s)| && Placed(o.md, o.ms, o.d, o.s, d, s, Content(o.s)[..n])
    requires n == num || snull || (dnull && FullTail(o.md, d) && !Available(o, d, s))
    ensures CopyLayout(o, num, d, s, n)
  {
    hide Placed, Content;
    if !snull && n < num {
      BetweenStop(o, num, d, s, n);
    }
  }
}
