/**
  The statements about the blocks that an operation leaves behind leave no
  choice: two chains of which the same is said are the same chain.
 */
module Determinacy {
  import opened Basics
  import opened Layout
  import opened FifoSpec
  import opened Placement

  // -------- Behind the last byte --------

  /** A chain whose blocks are full but for the last one, and not empty but for the first one. */
  ghost predicate Filled(maxi: nat, c: Chain) {
    && Base(maxi, c) && c != [] && (forall i :: 0 <= i < |c| - 1 ==> |c[i].bytes| == maxi)
    && forall i :: 0 < i < |c| ==> c[i].bytes != []
  }

  lemma FilledRest(maxi: nat, c: Chain)
    requires Filled(maxi, c) && |c| > 1
    ensures Filled(maxi, c[1..]) && c[1..][0].rdi == 0 && c[1] == c[1..][0] && Content(c[1..]) != []
  {
    BaseTail(maxi, c);
    var d := c[1..];
    assert forall i :: 0 <= i < |d| ==> d[i] == c[i + 1];
    assert Pending(d[0]) == d[0].bytes;
  }

  /** Two blocks that have grown out of the same one, and have the same pending bytes, are the same. */
  lemma SameBlock(a: Blk, b: Blk, p: seq<byte>)
    requires a.rdi == b.rdi <= |p| && p <= a.bytes && p <= b.bytes && Pending(a) == Pending(b)
    ensures a == b
  {
    assert a.bytes == a.bytes[..a.rdi] + Pending(a) && b.bytes == b.bytes[..b.rdi] + Pending(b);
    assert a.bytes[..a.rdi] == p[..a.rdi] == b.bytes[..b.rdi];
  }

  lemma HeadOfContent(c: Chain)
    requires c != []
    ensures Content(c) == Pending(c[0]) + Content(c[1..])
    ensures |c| == 1 ==> Content(c) == Pending(c[0])
  {
    if |c| == 1 {
      assert c[1..] == [];
    }
  }

  lemma SplitSame(a: seq<byte>, b: seq<byte>, c: seq<byte>, d: seq<byte>)
    requires a + b == c + d && |a| == |c|
    ensures a == c && b == d
  {
    assert a == (a + b)[..|a|] && c == (c + d)[..|c|];
    assert b == (a + b)[|a|..] && d == (c + d)[|c|..];
  }

  lemma {:induction false} FilledUnique(maxi: nat, d: Chain, e: Chain, p: seq<byte>)
    requires maxi > 0 && Filled(maxi, d) && Filled(maxi, e) && Content(d) == Content(e)
    requires d[0].rdi == e[0].rdi <= |p| && p <= d[0].bytes && p <= e[0].bytes
    ensures d == e
    decreases |d|
  {
    hide Content, Filled, Pending;
    PendingSize(maxi, d);
    PendingSize(maxi, e);
    HeadOfContent(d);
    HeadOfContent(e);
    if |d| > 1 {
      FilledRest(maxi, d);
    }
    if |e| > 1 {
      FilledRest(maxi, e);
    }
    if |d| == 1 && |e| == 1 {
      SameBlock(d[0], e[0], p);
    } else if |d| > 1 && |e| > 1 {
      SplitSame(Pending(d[0]), Content(d[1..]), Pending(e[0]), Content(e[1..]));
      SameBlock(d[0], e[0], p);
      FilledUnique(maxi, d[1..], e[1..], []);
      assert d == [d[0]] + d[1..] && e == [e[0]] + e[1..];
    }
  }

  lemma PendingSize(maxi: nat, c: Chain)
    requires Filled(maxi, c)
    ensures c != [] && |Pending(c[0])| == |c[0].bytes| - c[0].rdi <= maxi - c[0].rdi
    ensures |c| > 1 ==> |Pending(c[0])| == maxi - c[0].rdi
  {
  }

  lemma ExtendedRest(maxi: nat, c: Chain, s: seq<byte>, d: Chain)
    requires Extended(maxi, c, s, d) && |c| > 1 && Base(maxi, d) && Base(maxi, c)
    ensures d[0] == c[0] && Extended(maxi, c[1..], s, d[1..]) && Base(maxi, d[1..]) && Base(maxi, c[1..])
  {
    var c', d' := c[1..], d[1..];
    assert forall i :: 0 <= i < |c'| ==> c'[i] == c[i + 1];
    assert forall i :: 0 <= i < |d'| ==> d'[i] == d[i + 1];
    SplitSame(Pending(d[0]), Content(d'), Pending(c[0]), Content(c') + s);
  }

  lemma ExtendedFilled(maxi: nat, c: Chain, s: seq<byte>, d: Chain)
    requires Extended(maxi, c, s, d) && |c| <= 1 && Base(maxi, d) && d != []
    ensures Filled(maxi, d)
  {
  }

  lemma ExtendedNothing(maxi: nat, s: seq<byte>, d: Chain)
    requires Extended(maxi, [], s, d)
    ensures d == [] <==> s == []
  {
    if d != [] {
      assert Pending(d[0]) == d[0].bytes;
    }
  }

  /** Writing the same bytes behind the same chain gives the same blocks. */
  lemma {:induction false} ExtendedUnique(maxi: nat, c: Chain, s: seq<byte>, d: Chain, e: Chain)
    requires maxi > 0 && Base(maxi, c) && Base(maxi, d) && Base(maxi, e)
    requires Extended(maxi, c, s, d) && Extended(maxi, c, s, e)
    ensures d == e
    decreases |c|
  {
    if |c| > 1 {
      hide Extended, Content;
      ExtendedRest(maxi, c, s, d);
      ExtendedRest(maxi, c, s, e);
      ExtendedUnique(maxi, c[1..], s, d[1..], e[1..]);
      ExtendedSize(maxi, c, s, d);
      ExtendedSize(maxi, c, s, e);
      assert d == [d[0]] + d[1..] && e == [e[0]] + e[1..];
    } else {
      if c == [] {
        ExtendedNothing(maxi, s, d);
        ExtendedNothing(maxi, s, e);
      }
      if d != [] && e != [] {
        ExtendedFilled(maxi, c, s, d);
        ExtendedFilled(maxi, c, s, e);
        FilledUnique(maxi, d, e, if c == [] then [] else c[0].bytes);
      }
    }
  }

  lemma ExtendedSize(maxi: nat, c: Chain, s: seq<byte>, d: Chain)
    requires Extended(maxi, c, s, d)
    ensures |c| <= |d|
  {
  }

  // -------- In front of the first byte --------

  /** What is left behind `k` blocks of a chain does not hold more than the chain does. */
  lemma {:induction false} RestIsShorter(c: Chain, k: nat)
    requires k <= |c|
    ensures |Content(c[k..])| <= |Content(c)|
    decreases k
  {
    if k == 0 {
      assert c[0..] == c;
    } else {
      RestIsShorter(c[1..], k - 1);
      assert c[1..][k - 1..] == c[k..];
    }
  }

  /** A shortened chain holds what its blocks held, but for what has been read from its head. */
  lemma ShortenedContent(maxi: nat, c: Chain, d: Chain)
    requires Base(maxi, c) && Base(maxi, d) && Shortened(maxi, c, d)
    ensures var k := |c| - |d|;
            && (d != [] ==> d[1..] == c[k + 1..] && d[0].bytes == c[k].bytes && c[k].rdi <= d[0].rdi <= |d[0].bytes|
                            && |Content(d)| == |d[0].bytes| - d[0].rdi + |Content(c[k + 1..])|
                            && |Content(c[k..])| == |d[0].bytes| - c[k].rdi + |Content(c[k + 1..])|)
            && (d == [] ==> Content(d) == [])
  {
    var k := |c| - |d|;
    if d != [] {
      assert forall i :: 0 <= i < |d| - 1 ==> d[1..][i] == c[k + 1..][i];
      assert d[1..] == c[k + 1..];
      assert c[k..][0] == c[k] && c[k..][1..] == c[k + 1..];
    }
  }

  /** The longer of two shortened chains with the same content has a drained full head; the other head is unread. */
  lemma FewerBlocks(maxi: nat, c: Chain, d: Chain, e: Chain)
    requires Base(maxi, c) && Base(maxi, d) && Base(maxi, e) && Shortened(maxi, c, d) && Shortened(maxi, c, e)
    requires Content(d) == Content(e) && |d| > |e|
    ensures Drained(d[0]) && |d[0].bytes| == maxi
    ensures e != [] ==> e[0].rdi == c[|c| - |e|].rdi
  {
    hide Content, Base;
    ShortenedContent(maxi, c, d);
    ShortenedContent(maxi, c, e);
    var k, k' := |c| - |d|, |c| - |e|;
    var r := c[k + 1..];
    RestIsShorter(r, k' - (k + 1));
    assert r[k' - (k + 1)..] == c[k'..];
  }

  /** With as many blocks left, two shortened chains with the same content are the same. */
  lemma AsManyBlocks(maxi: nat, c: Chain, d: Chain, e: Chain)
    requires Base(maxi, c) && Base(maxi, d) && Base(maxi, e) && Shortened(maxi, c, d) && Shortened(maxi, c, e)
    requires Content(d) == Content(e) && |d| == |e|
    ensures d == e
  {
    hide Content, Base;
    ShortenedContent(maxi, c, d);
    ShortenedContent(maxi, c, e);
    if d != [] {
      assert d == [d[0]] + d[1..] && e == [e[0]] + e[1..];
    }
  }

  lemma ShortenedUnique(maxi: nat, c: Chain, d: Chain, e: Chain)
    requires Base(maxi, c) && Base(maxi, d) && Base(maxi, e) && Shortened(maxi, c, d) && Shortened(maxi, c, e)
    requires Content(d) == Content(e) && Settled(maxi, d) && Settled(maxi, e)
    ensures d == e
  {
    hide Content, Base, Shortened;
    if |d| > |e| {
      FewerBlocks(maxi, c, d, e);
    } else if |e| > |d| {
      FewerBlocks(maxi, c, e, d);
    } else {
      AsManyBlocks(maxi, c, d, e);
    }
  }

  // -------- The operations --------

  /** What is said about a write fixes the list and its share of the pool. */
  lemma WriteDetermined(f: Fifo, s: seq<byte>, n: nat, g: Fifo, h: Fifo)
    requires Fit(f) && Fit(g) && Fit(h) && WriteLayout(f, s, g, n) && WriteLayout(f, s, h, n)
    ensures g == h
  {
    if s != [] {
      ExtendedUnique(f.maxi, f.chain, s[..n], g.chain, h.chain);
    }
  }

  lemma RestSame(s: seq<byte>, a: seq<byte>, b: seq<byte>)
    requires s + a == s + b
    ensures a == b
  {
    assert (s + a)[|s|..] == a && (s + b)[|s|..] == b;
  }

  /** What is said about a read fixes the list and its share of the pool. */
  lemma ReadDetermined(f: Fifo, n: nat, s: seq<byte>, g: Fifo, h: Fifo)
    requires Fit(f) && Fit(g) && Fit(h) && ReadLayout(f, n, s, g) && ReadLayout(f, n, s, h)
    ensures g == h
  {
    hide Content, Base, Shortened;
    ReadSizes(f, n, s, g);
    ReadSizes(f, n, s, h);
    RestSame(s, Content(g.chain), Content(h.chain));
    if n > 0 {
      if |g.chain| > |h.chain| {
        FewerBlocks(f.maxi, f.chain, g.chain, h.chain);
      } else if |h.chain| > |g.chain| {
        FewerBlocks(f.maxi, f.chain, h.chain, g.chain);
      } else {
        AsManyBlocks(f.maxi, f.chain, g.chain, h.chain);
      }
    }
  }

  lemma ReadSizes(f: Fifo, n: nat, s: seq<byte>, g: Fifo)
    requires ReadLayout(f, n, s, g)
    ensures |g.chain| <= |f.chain| && g.maxi == f.maxi && g.free == f.free + |f.chain| - |g.chain|
  {
  }

  /** What is said about a copy fixes both lists. */
  lemma CopyDetermined(o: Origin, num: nat, n: nat, d: Chain, s: Chain, d': Chain, s': Chain)
    requires o.md > 0 && Base(o.md, o.d) && Base(o.ms, o.s)
    requires Base(o.md, d) && Base(o.ms, s) && Base(o.md, d') && Base(o.ms, s')
    requires CopyLayout(o, num, d, s, n) && CopyLayout(o, num, d', s', n) && Content(s) == Content(s')
    ensures d == d' && s == s'
  {
    hide Content, Base, Shortened, Extended, LeavesSpare, Spare, Body;
    if !Idle(o, num) {
      ShortenedUnique(o.ms, o.s, s, s');
      BaseOfBody(o.md, o.d, d);
      BaseOfBody(o.md, o.d, d');
      ExtendedUnique(o.md, o.d, Content(o.s)[..n], Body(o.d, d), Body(o.d, d'));
      BodyIs(o.d, d);
      BodyIs(o.d, d');
    }
  }

  lemma BodyIs(d0: Chain, d: Chain)
    ensures !Spare(d0, d) ==> Body(d0, d) == d
  {
  }
}
