/**
  The value of one buffer list, without pointers: a sequence of blocks, each
  with its read index and the bytes written to it so far. The abstract meaning
  of a list is a single byte sequence, its `Content`.
 */
module Layout {
  import opened Basics

  /** One block: `rdi` is the read index, and `|bytes|` is the write index `wri`. */
  datatype Blk = Blk(rdi: nat, bytes: seq<byte>)

  type Chain = seq<Blk>

  /** The bytes of a block that have been written but not yet read. */
  function Pending(b: Blk): seq<byte> {
    if b.rdi <= |b.bytes| then b.bytes[b.rdi..] else []
  }

  /** The FIFO a chain of blocks stands for, oldest byte first. */
  function Content(c: Chain): seq<byte> {
    if c == [] then [] else Pending(c[0]) + Content(c[1..])
  }

  /** `rdi == wri`: nothing left to read in the block. */
  predicate Drained(b: Blk) {
    b.rdi == |b.bytes|
  }

  // -------- The three strengths of the layout invariant --------

  /** Indices are in range, and only the head block has been read from. */
  ghost predicate Base(maxi: nat, c: Chain) {
    && (forall i :: 0 <= i < |c| ==> c[i].rdi <= |c[i].bytes| <= maxi)
    && (forall i :: 0 < i < |c| ==> c[i].rdi == 0)
  }

  /** Moreover, writers only move on from a full block. */
  ghost predicate Weak(maxi: nat, c: Chain) {
    && Base(maxi, c)
    && (forall i :: 0 <= i < |c| - 1 ==> |c[i].bytes| == maxi)
  }

  /** Moreover, a block is only appended to receive a byte. */
  ghost predicate Strong(maxi: nat, c: Chain) {
    && Weak(maxi, c)
    && (forall i :: 0 < i < |c| ==> c[i].bytes != [])
  }

  // -------- Content under the elementary updates --------

  lemma {:induction false} ContentConcat(a: Chain, b: Chain)
    ensures Content(a + b) == Content(a) + Content(b)
  {
    if a == [] {
      assert a + b == b;
    } else {
      assert (a + b)[0] == a[0] && (a + b)[1..] == a[1..] + b;
      calc {
        Content(a + b);
        Pending(a[0]) + Content(a[1..] + b);
        { ContentConcat(a[1..], b); }
        Pending(a[0]) + (Content(a[1..]) + Content(b));
        Content(a) + Content(b);
      }
    }
  }

  lemma ContentOne(b: Blk)
    ensures Content([b]) == Pending(b)
  {
    assert [b][1..] == [];
  }

  /** A chain with one more byte written to its tail. */
  function Append(c: Chain, x: byte): Chain
    requires c != []
  {
    var t := c[|c| - 1];
    c[|c| - 1 := Blk(t.rdi, t.bytes + [x])]
  }

  /** A chain with one more byte read from its head. */
  function Advance(c: Chain): Chain
    requires c != []
  {
    c[0 := Blk(c[0].rdi + 1, c[0].bytes)]
  }

  lemma ContentSnoc(c: Chain, t: Blk)
    ensures Content(c + [t]) == Content(c) + Pending(t)
  {
    ContentConcat(c, [t]);
    ContentOne(t);
  }

  lemma PendingAppend(rdi: nat, bytes: seq<byte>, x: byte)
    requires rdi <= |bytes|
    ensures Pending(Blk(rdi, bytes + [x])) == Pending(Blk(rdi, bytes)) + [x]
  {
  }

  lemma ContentAppend(maxi: nat, c: Chain, x: byte)
    requires c != [] && Base(maxi, c)
    ensures Content(Append(c, x)) == Content(c) + [x]
  {
    hide Content, Pending;
    var k := |c| - 1;
    var t := c[k];
    var t' := Blk(t.rdi, t.bytes + [x]);
    assert c == c[..k] + [t];
    assert Append(c, x) == c[..k] + [t'];
    ContentSnoc(c[..k], t);
    ContentSnoc(c[..k], t');
    PendingAppend(t.rdi, t.bytes, x);
  }

  lemma ContentAdvance(maxi: nat, c: Chain)
    requires c != [] && Base(maxi, c) && !Drained(c[0])
    ensures Content(c) == [c[0].bytes[c[0].rdi]] + Content(Advance(c))
  {
    hide Content, Pending, Base;
    HeadBelow(maxi, c);
    assert Advance(c)[1..] == c[1..];
    ContentHead(c);
    ContentHead(Advance(c));
    PendingAdvance(c[0].rdi, c[0].bytes);
    ConcatAssociative([c[0].bytes[c[0].rdi]], Pending(Advance(c)[0]), Content(c[1..]));
  }

  lemma HeadBelow(maxi: nat, c: Chain)
    requires Base(maxi, c) && c != []
    ensures c[0].rdi <= |c[0].bytes| <= maxi
  {
  }

  lemma ContentDropHead(c: Chain)
    requires c != [] && Drained(c[0])
    ensures Content(c[1..]) == Content(c)
  {
  }

  lemma ContentGrow(c: Chain)
    ensures Content(c + [Blk(0, [])]) == Content(c)
  {
    ContentConcat(c, [Blk(0, [])]);
    ContentOne(Blk(0, []));
  }

  /** A drained head is the only block without data, unless the tail is a fresh one. */
  lemma DrainedMeansEmpty(maxi: nat, c: Chain)
    requires Weak(maxi, c) && c != [] && Drained(c[0]) && |c[0].bytes| < maxi
    ensures |c| == 1 && Content(c) == []
  {
    assert c == [c[0]];
  }

  // -------- What readers get to --------

  /** The bytes within reach of a reader, who does not move on from a block that is not full. */
  function Reach(maxi: nat, c: Chain): seq<byte> {
    if c == [] then [] else Pending(c[0]) + if |c[0].bytes| == maxi then Reach(maxi, c[1..]) else []
  }

  /** No block that is not full stands in front of data. */
  ghost predicate Open(maxi: nat, c: Chain) {
    forall k :: 0 <= k < |c| && |c[k].bytes| != maxi ==> Content(c[k + 1..]) == []
  }

  lemma OpenSplit(maxi: nat, c: Chain)
    requires c != []
    ensures Open(maxi, c) <==> Open(maxi, c[1..]) && (|c[0].bytes| == maxi || Content(c[1..]) == [])
  {
    var d := c[1..];
    if Open(maxi, d) && (|c[0].bytes| == maxi || Content(d) == []) {
      forall k | 0 <= k < |c| && |c[k].bytes| != maxi
        ensures Content(c[k + 1..]) == []
      {
        if k > 0 {
          assert d[k - 1] == c[k] && d[k - 1 + 1..] == c[k + 1..];
        }
      }
    }
    if Open(maxi, c) {
      forall k | 0 <= k < |d| && |d[k].bytes| != maxi
        ensures Content(d[k + 1..]) == []
      {
        assert d[k + 1..] == c[k + 1 + 1..];
      }
    }
  }

  /** Readers get to the front part of the content, and to all of it exactly if nothing hides data. */
  lemma {:induction false} ReachOfContent(maxi: nat, c: Chain)
    ensures Reach(maxi, c) <= Content(c)
    ensures Reach(maxi, c) == Content(c) <==> Open(maxi, c)
    decreases |c|
  {
    if c != [] {
      var d := c[1..];
      ReachOfContent(maxi, d);
      OpenSplit(maxi, c);
      assert Reach(maxi, c)[..|Pending(c[0])|] == Content(c)[..|Pending(c[0])|];
      assert Content(c)[|Pending(c[0])|..] == Content(d);
      if |c[0].bytes| == maxi {
        assert Reach(maxi, c)[|Pending(c[0])|..] == Reach(maxi, d);
      } else {
        assert Reach(maxi, c)[|Pending(c[0])|..] == [];
      }
    }
  }

  /** Writers that only move on from a full block hide nothing. */
  lemma WeakIsOpen(maxi: nat, c: Chain)
    requires Weak(maxi, c)
    ensures Open(maxi, c) && Reach(maxi, c) == Content(c)
  {
    assert c[|c|..] == [];
    ReachOfContent(maxi, c);
  }

  lemma BaseTail(maxi: nat, c: Chain)
    requires Base(maxi, c) && c != []
    ensures Base(maxi, c[1..]) && (|c| > 1 ==> (Weak(maxi, c) <==> |c[0].bytes| == maxi && Weak(maxi, c[1..])))
  {
    var d := c[1..];
    assert forall i :: 0 <= i < |d| ==> d[i] == c[i + 1];
    if |c| > 1 && |c[0].bytes| == maxi && Weak(maxi, d) {
      assert forall i :: 0 < i < |c| - 1 ==> c[i] == d[i - 1];
    }
  }

  lemma PendingAdvance(rdi: nat, bytes: seq<byte>)
    requires rdi < |bytes|
    ensures Pending(Blk(rdi, bytes)) == [bytes[rdi]] + Pending(Blk(rdi + 1, bytes))
  {
  }

  lemma ReachAdvance(maxi: nat, c: Chain)
    requires c != [] && c[0].rdi < |c[0].bytes|
    ensures Reach(maxi, c) == [c[0].bytes[c[0].rdi]] + Reach(maxi, Advance(c))
  {
    hide Reach, Pending;
    var d := Advance(c);
    assert d[1..] == c[1..];
    ReachHead(maxi, c);
    ReachHead(maxi, d);
    PendingAdvance(c[0].rdi, c[0].bytes);
    ConcatAssociative([c[0].bytes[c[0].rdi]], Pending(d[0]), if |c[0].bytes| == maxi then Reach(maxi, c[1..]) else []);
  }

  lemma ReachHead(maxi: nat, c: Chain)
    requires c != []
    ensures Reach(maxi, c) == Pending(c[0]) + if |c[0].bytes| == maxi then Reach(maxi, c[1..]) else []
  {
  }

  lemma ConcatAssociative(a: seq<byte>, b: seq<byte>, c: seq<byte>)
    ensures (a + b) + c == a + (b + c)
  {
  }

  /** An empty block at the tail brings nothing within reach. */
  lemma {:induction false} ReachGrow(maxi: nat, c: Chain)
    ensures Reach(maxi, c + [Blk(0, [])]) == Reach(maxi, c)
    decreases |c|
  {
    var b := Blk(0, []);
    if c == [] {
      assert (c + [b])[0] == b && (c + [b])[1..] == [];
    } else {
      assert (c + [b])[0] == c[0] && (c + [b])[1..] == c[1..] + [b];
      ReachGrow(maxi, c[1..]);
    }
  }

  /** A byte written to the tail is within reach exactly if all blocks before it are full. */
  lemma {:induction false} ReachAppend(maxi: nat, c: Chain, x: byte)
    requires c != [] && Base(maxi, c) && |c[|c| - 1].bytes| < maxi
    ensures Reach(maxi, Append(c, x)) == Reach(maxi, c) + if Weak(maxi, c) then [x] else []
    decreases |c|
  {
    var e := Append(c, x);
    if |c| == 1 {
      PendingAppend(c[0].rdi, c[0].bytes, x);
      assert e[1..] == [] && c[1..] == [];
    } else {
      BaseTail(maxi, c);
      assert e[0] == c[0] && e[1..] == Append(c[1..], x);
      ReachAppend(maxi, c[1..], x);
    }
  }

  // -------- How a chain changes --------

  /**
    `d` is `c` with the bytes `s` written behind it: blocks before the tail of `c`
    are untouched, its tail only grows, new blocks come only behind full ones, and
    none of them is empty.
   */
  ghost predicate Extended(maxi: nat, c: Chain, s: seq<byte>, d: Chain) {
    && |c| <= |d|
    && (forall i :: 0 <= i < |c| - 1 ==> d[i] == c[i])
    && (c != [] ==> d[|c| - 1].rdi == c[|c| - 1].rdi && c[|c| - 1].bytes <= d[|c| - 1].bytes)
    && (forall i :: 0 <= i < |d| - 1 && |c| - 1 <= i ==> |d[i].bytes| == maxi)
    && (forall i :: |c| <= i < |d| ==> d[i].rdi == 0 && d[i].bytes != [])
    && Content(d) == Content(c) + s
  }

  /**
    `d` is `c` with some bytes read from its front: the blocks that are missing at
    the front were full, and in the others nothing but the read index of the head
    has changed.
   */
  ghost predicate Shortened(maxi: nat, c: Chain, d: Chain) {
    var k := |c| - |d|;
    && |d| <= |c|
    && (forall i :: 0 <= i < k ==> |c[i].bytes| == maxi)
    && (forall i :: 0 < i < |d| ==> d[i] == c[k + i])
    && (d != [] ==> d[0].bytes == c[k].bytes && c[k].rdi <= d[0].rdi)
  }

  lemma ExtendedSelf(maxi: nat, c: Chain)
    ensures Extended(maxi, c, [], c)
  {
    assert Content(c) + [] == Content(c);
  }

  /** One more byte, in the tail or in a new block behind a full one. */
  lemma ExtendedStep(maxi: nat, c: Chain, s: seq<byte>, d: Chain, x: byte)
    requires Extended(maxi, c, s, d) && Base(maxi, d) && maxi > 0
    ensures d != [] && |d[|d| - 1].bytes| < maxi ==> Extended(maxi, c, s + [x], Append(d, x))
    ensures d == [] || |d[|d| - 1].bytes| == maxi ==>
              Extended(maxi, c, s + [x], Append(d + [Blk(0, [])], x))
  {
    hide Content;
    ConcatAssociative(Content(c), s, [x]);
    if d != [] && |d[|d| - 1].bytes| < maxi {
      ContentAppend(maxi, d, x);
    }
    if d == [] || |d[|d| - 1].bytes| == maxi {
      var e := d + [Blk(0, [])];
      ContentGrow(d);
      assert forall i :: 0 <= i < |d| ==> e[i] == d[i];
      ContentAppend(maxi, e, x);
      var g := Append(e, x);
      assert forall i :: 0 <= i < |d| ==> g[i] == d[i];
    }
  }

  lemma ShortenedSelf(maxi: nat, c: Chain)
    ensures Shortened(maxi, c, c)
  {
  }

  lemma ShortenedAdvance(maxi: nat, c: Chain, d: Chain)
    requires Shortened(maxi, c, d) && d != []
    ensures Shortened(maxi, c, Advance(d))
  {
  }

  lemma ShortenedDrop(maxi: nat, c: Chain, d: Chain)
    requires Shortened(maxi, c, d) && d != [] && |d[0].bytes| == maxi
    ensures Shortened(maxi, c, d[1..])
  {
    var k, e := |c| - |d|, d[1..];
    assert forall i :: 0 <= i < |e| ==> e[i] == d[i + 1] == c[k + (i + 1)];
  }

  // -------- Content from the point of view of a cursor --------

  /** What is left from index `r` of block `k` on. */
  function Rest(c: Chain, k: nat, r: nat): seq<byte> {
    if k < |c| && r <= |c[k].bytes| then c[k].bytes[r..] + Content(c[k + 1..]) else []
  }

  /** A cursor at index `r` of block `k` has passed exactly the bytes `seen`. */
  ghost predicate Passed(c: Chain, k: nat, r: nat, seen: seq<byte>) {
    k <= |c| && (k < |c| ==> r <= |c[k].bytes|) && Content(c) == seen + Rest(c, k, r)
  }

  lemma PassedStart(maxi: nat, c: Chain)
    requires Base(maxi, c)
    ensures Passed(c, 0, Offset(c), [])
  {
    assert [] + Content(c) == Content(c);
  }

  lemma ContentFrom(c: Chain, k: nat)
    requires k < |c| && c[k].rdi == 0
    ensures Content(c[k..]) == c[k].bytes[0..] + Content(c[k + 1..])
  {
    var d := c[k..];
    assert d[0] == c[k] && d[1..] == c[k + 1..];
  }

  lemma PassedBlock(maxi: nat, c: Chain, k: nat, seen: seq<byte>)
    requires Base(maxi, c) && k < |c| && Passed(c, k, |c[k].bytes|, seen)
    ensures Passed(c, k + 1, 0, seen)
  {
    hide Content;
    var b := c[k].bytes;
    assert b[|b|..] == [] && [] + Content(c[k + 1..]) == Content(c[k + 1..]);
    if k + 1 < |c| {
      ContentFrom(c, k + 1);
    } else {
      ContentNothing();
      assert c[k + 1..] == [];
    }
  }

  lemma ContentNothing()
    ensures Content([]) == []
  {
  }

  lemma PassedByte(c: Chain, k: nat, r: nat, seen: seq<byte>)
    requires k < |c| && r < |c[k].bytes| && Passed(c, k, r, seen)
    ensures Passed(c, k, r + 1, seen + [c[k].bytes[r]])
    ensures |seen| < |Content(c)| && Content(c)[|seen|] == c[k].bytes[r] && seen <= Content(c)
    ensures seen + [c[k].bytes[r]] == Content(c)[..|seen| + 1]
  {
    var b := c[k].bytes;
    SplitFirst(seen, b, r, Content(c[k + 1..]));
  }

  lemma SplitFirst(seen: seq<byte>, b: seq<byte>, r: nat, t: seq<byte>)
    requires r < |b|
    ensures var s := seen + (b[r..] + t);
            && s == (seen + [b[r]]) + (b[r + 1..] + t)
            && s[|seen|] == b[r] && seen + [b[r]] == s[..|seen| + 1]
  {
    assert b[r..] == [b[r]] + b[r + 1..];
  }

  lemma PassedPrefix(c: Chain, k: nat, r: nat, seen: seq<byte>)
    requires Passed(c, k, r, seen)
    ensures seen <= Content(c)
  {
  }

  lemma PassedAll(c: Chain, r: nat, seen: seq<byte>)
    requires Passed(c, |c|, r, seen)
    ensures seen == Content(c)
  {
  }

  // -------- Arithmetic of a chain --------

  /** `head.rdi`, the bytes of the head block that are neither readable nor writable. */
  function Offset(c: Chain): nat {
    if c == [] then 0 else c[0].rdi
  }

  /** Space left in the tail block. */
  function TailRoom(maxi: nat, c: Chain): nat {
    if c == [] || |c[|c| - 1].bytes| > maxi then 0 else maxi - |c[|c| - 1].bytes|
  }

  /**
    Every cell of a chain is either already read, readable, or still writable if
    and only if all blocks but the tail are full; else some are none of that.
   */
  lemma {:induction false} CellsOfChain(maxi: nat, c: Chain)
    requires Base(maxi, c)
    ensures Offset(c) + |Content(c)| + TailRoom(maxi, c) <= maxi * |c|
    ensures Offset(c) + |Content(c)| + TailRoom(maxi, c) == maxi * |c| <==> Weak(maxi, c)
    decreases |c|
  {
    hide Weak;
    if |c| <= 1 {
      OneIsWeak(maxi, c);
      if |c| == 1 {
        assert c[1..] == [];
      }
    } else {
      BaseTail(maxi, c);
      CellsOfChain(maxi, c[1..]);
      CellsStep(maxi, c);
    }
  }

  lemma OneIsWeak(maxi: nat, c: Chain)
    requires Base(maxi, c) && |c| <= 1
    ensures Weak(maxi, c)
  {
  }

  lemma CellsStep(maxi: nat, c: Chain)
    requires Base(maxi, c) && |c| > 1
    ensures maxi * |c| - Offset(c) - |Content(c)| - TailRoom(maxi, c)
         == maxi * |c[1..]| - Offset(c[1..]) - |Content(c[1..])| - TailRoom(maxi, c[1..]) + (maxi - |c[0].bytes|)
    ensures |c[0].bytes| <= maxi
  {
    hide Content, TailRoom, Base, Pending, Offset;
    TailRoomOfRest(maxi, c);
    ContentHead(c);
    FirstTwo(maxi, c);
    OneMore(maxi, |c[1..]|);
  }

  lemma OneMore(m: nat, k: nat)
    ensures m * (k + 1) == m * k + m
  {
  }

  lemma FirstTwo(maxi: nat, c: Chain)
    requires Base(maxi, c) && |c| > 1
    ensures Offset(c) + |Pending(c[0])| == |c[0].bytes| <= maxi && Offset(c[1..]) == 0
  {
    assert c[1..][0] == c[1];
  }

  lemma TailRoomOfRest(maxi: nat, c: Chain)
    requires |c| > 1
    ensures TailRoom(maxi, c[1..]) == TailRoom(maxi, c)
  {
  }

  lemma ContentHead(c: Chain)
    requires c != []
    ensures Content(c) == Pending(c[0]) + Content(c[1..])
  {
  }

  lemma DivUnique(n: int, m: int, q: int, r: int)
    requires 0 <= r < m && n == m * q + r
    ensures n / m == q
  {
    var d := n / m - q;
    assert m * d == r - n % m;
    assert d >= 1 ==> m * d >= m;
    assert d <= -1 ==> m * d <= -m;
  }

  /** `n` cells spread over `k` blocks, all full but the last, which is not empty. */
  lemma Ceil(m: int, k: int, n: int, room: int)
    requires 0 <= room < m && m * k == n + room
    ensures (n + m - 1) / m == k
  {
    DivUnique(n + m - 1, m, k, m - 1 - room);
  }

  lemma QuotientBound(m: int, k: int, n: int)
    requires m > 0 && n >= 0 && m * k <= n + 2 * m
    ensures k <= n / m + 2
  {
    var q := n / m;
    var d := k - 2 - q;
    assert n == m * q + n % m;
    assert m * d == m * k - 2 * m - m * q;
    assert d >= 1 ==> m * d >= m;
  }

  /** The number of blocks is determined by the read offset and the byte count. */
  lemma BlockCount(maxi: nat, c: Chain)
    requires maxi > 0 && Strong(maxi, c) && c != []
    ensures var n := Offset(c) + |Content(c)|;
            |c| == if n == 0 then 1 else (n + maxi - 1) / maxi
  {
    CellsOfChain(maxi, c);
    var room := TailRoom(maxi, c);
    if room < maxi {
      Ceil(maxi, |c|, Offset(c) + |Content(c)|, room);
    } else {
      assert |c| == 1;
    }
  }

  /** Lazy freeing and the partial tail cost at most two blocks beyond the data. */
  lemma BlockBound(maxi: nat, c: Chain)
    requires maxi > 0 && Strong(maxi, c)
    ensures |c| <= |Content(c)| / maxi + 2
  {
    if c != [] {
      CellsOfChain(maxi, c);
      assert c[0].rdi <= maxi;
      QuotientBound(maxi, |c|, |Content(c)|);
    }
  }
}
