/**
  The multi-byte search over the content of a list, as a matcher that consumes
  one byte at a time. On a mismatch it only reconsiders the current byte, never
  a longer part of what it has already seen, and the offset it reports loses
  one position for each partial match given up on a byte that does not start
  the pattern. This module says exactly what the result means, and for which
  patterns it is what the documentation of the search promises.
 */
module Search {
  import opened Basics

  ghost predicate OccursAt(p: seq<byte>, c: seq<byte>, s: nat) {
    s + |p| <= |c| && c[s..s + |p|] == p
  }

  ghost predicate Occurs(p: seq<byte>, c: seq<byte>) {
    exists s: nat :: OccursAt(p, c, s)
  }

  /** What is promised: the offset of the first occurrence, or -1. */
  ghost predicate Documented(p: seq<byte>, c: seq<byte>, r: int) {
    if Occurs(p, c) then r >= 0 && OccursAt(p, c, r) && forall s: nat :: s < r ==> !OccursAt(p, c, s)
    else r == -1
  }

  // -------- The matcher --------

  /** Number of pattern bytes matched after one more byte. */
  function Next(p: seq<byte>, i: nat, y: byte): (j: nat)
    requires i < |p|
    ensures j <= i + 1 && j <= |p|
  {
    if p[i] == y then i + 1 else if p[0] == y then 1 else 0
  }

  /** Number of pattern bytes matched after `q` bytes; the complete pattern is kept. */
  function Matched(p: seq<byte>, c: seq<byte>, q: nat): (i: nat)
    requires p != [] && q <= |c|
    ensures i <= |p| && i <= q
  {
    if q == 0 then 0
    else
      var i := Matched(p, c, q - 1);
      if i == |p| then i else Next(p, i, c[q - 1])
  }

  /** How often a partial match was given up on a byte that does not start the pattern. */
  function Drops(p: seq<byte>, c: seq<byte>, q: nat): nat
    requires p != [] && q <= |c|
  {
    if q == 0 then 0
    else Drops(p, c, q - 1) + (if Matched(p, c, q - 1) > 0 && Matched(p, c, q) == 0 then 1 else 0)
  }

  /** The number of bytes after which the pattern is complete for the first time. */
  function FirstHit(p: seq<byte>, c: seq<byte>, q: nat): (h: nat)
    requires p != [] && q <= |c| && Matched(p, c, q) == |p|
    ensures 0 < h <= q && Matched(p, c, h) == |p| && Matched(p, c, h - 1) < |p|
  {
    if Matched(p, c, q - 1) == |p| then FirstHit(p, c, q - 1) else q
  }

  /** The result of the search. */
  function Find(p: seq<byte>, c: seq<byte>): int
    requires p != []
  {
    if Matched(p, c, |c|) < |p| then -1
    else
      var h := FirstHit(p, c, |c|);
      h - |p| - Drops(p, c, h)
  }

  // -------- What holds for every pattern --------

  lemma {:induction false} DropsBound(p: seq<byte>, c: seq<byte>, q: nat)
    requires p != [] && q <= |c|
    ensures Drops(p, c, q) + Matched(p, c, q) <= q
  {
    if q > 0 {
      DropsBound(p, c, q - 1);
    }
  }

  lemma Extend(s: seq<byte>, a: nat, b: nat)
    requires a <= b < |s|
    ensures s[a..b + 1] == s[a..b] + [s[b]]
  {
  }

  /** The matched bytes are the last ones read. */
  lemma {:induction false} MatchedIsSuffix(p: seq<byte>, c: seq<byte>, q: nat)
    requires p != [] && q <= |c| && (q > 0 ==> Matched(p, c, q - 1) < |p|)
    ensures var i := Matched(p, c, q); c[q - i..q] == p[..i]
  {
    if q > 0 {
      var j := Matched(p, c, q - 1);
      if q > 1 {
        BelowBefore(p, c, q - 2, q - 1);
      }
      MatchedIsSuffix(p, c, q - 1);
      if p[j] == c[q - 1] {
        Extend(c, q - 1 - j, q - 1);
        Extend(p, 0, j);
      } else if p[0] == c[q - 1] {
        Extend(c, q - 1, q - 1);
        Extend(p, 0, 0);
      }
    }
  }

  lemma {:induction false} BelowBefore(p: seq<byte>, c: seq<byte>, q: nat, r: nat)
    requires p != [] && q <= r <= |c| && Matched(p, c, r) < |p|
    ensures Matched(p, c, q) < |p|
    decreases r
  {
    if q < r {
      BelowBefore(p, c, q, r - 1);
    }
  }

  /** A first hit fixes the end of the scan whatever lies behind it. */
  lemma {:induction false} FirstHitUnique(p: seq<byte>, c: seq<byte>, h: nat, q: nat)
    requires p != [] && 0 < h <= q <= |c|
    requires Matched(p, c, h - 1) < |p| && Matched(p, c, h) == |p|
    ensures Matched(p, c, q) == |p| && FirstHit(p, c, q) == h
    decreases q
  {
    if h < q {
      FirstHitUnique(p, c, h, q - 1);
    }
  }

  /**
    A result is never out of thin air: the pattern occurs, and the result falls
    short of its position by the number of partial matches dropped on the way.
   */
  lemma FindSound(p: seq<byte>, c: seq<byte>)
    requires p != [] && Matched(p, c, |c|) == |p|
    ensures var h := FirstHit(p, c, |c|);
            Find(p, c) >= 0 && OccursAt(p, c, Find(p, c) + Drops(p, c, h))
  {
    var h := FirstHit(p, c, |c|);
    MatchedIsSuffix(p, c, h);
    DropsBound(p, c, h);
    assert p[..|p|] == p;
  }

  /** The variables of the search loop after `q` bytes without a complete match. */
  ghost predicate Scanning(p: seq<byte>, c: seq<byte>, q: nat, i: nat, offs: nat) {
    p != [] && q <= |c| && i == Matched(p, c, q) < |p| && offs == q - i - Drops(p, c, q)
  }

  lemma ScanStart(p: seq<byte>, c: seq<byte>)
    requires p != []
    ensures Scanning(p, c, 0, 0, 0)
  {
  }

  lemma ScanEnd(p: seq<byte>, c: seq<byte>, i: nat, offs: nat)
    requires Scanning(p, c, |c|, i, offs)
    ensures Find(p, c) == -1
  {
  }

  /** One more byte: `offs` and `i` are adjusted on a mismatch, and then the byte is looked at afresh. */
  lemma ScanStep(p: seq<byte>, c: seq<byte>, q: nat, i: nat, offs: nat)
    requires Scanning(p, c, q, i, offs) && q < |c|
    ensures var y := c[q];
            var offs' := if p[i] == y then offs else if i == 0 then offs + 1 else offs + i;
            var i' := if p[i] == y then i else 0;
            var i'' := if p[i'] == y then i' + 1 else i';
            if i'' == |p| then Find(p, c) == offs' else i'' < |p| && Scanning(p, c, q + 1, i'', offs')
  {
    if Matched(p, c, q + 1) == |p| {
      FirstHitUnique(p, c, q + 1, |c|);
    }
  }

  // -------- Which patterns are always found --------

  /** If the first byte recurs at `t`, the rest of the pattern is a prefix of it. */
  predicate Realigns(p: seq<byte>, t: nat) {
    t < |p| && p[t] == p[0] ==> p[t..] <= p
  }

  /** Wherever the first byte recurs in the pattern, the rest of the pattern is a prefix of it. */
  predicate SelfAligned(p: seq<byte>) {
    forall t :: 1 <= t < |p| ==> Realigns(p, t)
  }

  /** A prefix of the pattern that ends here, without its last byte. */
  lemma ShrinkSuffix(p: seq<byte>, c: seq<byte>, q: nat, k: nat)
    requires 1 <= k <= q <= |c| && k <= |p| && c[q - k..q] == p[..k]
    ensures c[q - 1] == p[k - 1] && c[q - k..q - 1] == p[..k - 1]
  {
    assert c[q - 1] == c[q - k..q][k - 1] == p[..k][k - 1];
    assert c[q - k..q - 1] == c[q - k..q][..k - 1];
    assert p[..k - 1] == p[..k][..k - 1];
  }

  /** Under that condition the matcher always remembers the longest prefix that ends here. */
  lemma {:induction false} Longest(p: seq<byte>, c: seq<byte>, q: nat, k: nat)
    requires p != [] && SelfAligned(p) && q <= |c| && Matched(p, c, q) < |p|
    requires Matched(p, c, q) < k <= q && k <= |p|
    ensures c[q - k..q] != p[..k]
    decreases q
  {
    BelowBefore(p, c, q - 1, q);
    if c[q - k..q] == p[..k] {
      var i, j := Matched(p, c, q - 1), k - 1;
      ShrinkSuffix(p, c, q, k);
      if j > i {
        Longest(p, c, q - 1, j);
      } else if 1 <= j < i {
        BorderAgrees(p, c, q - 1, j);
      }
    }
  }

  lemma BorderAgrees(p: seq<byte>, c: seq<byte>, q: nat, j: nat)
    requires p != [] && SelfAligned(p) && q <= |c| && 1 <= j < Matched(p, c, q) < |p|
    requires c[q - j..q] == p[..j]
    ensures p[Matched(p, c, q)] == p[j]
  {
    var i := Matched(p, c, q);
    BelowBefore(p, c, q - 1, q);
    MatchedIsSuffix(p, c, q);
    assert c[q - i..q][i - j..] == c[q - j..q];
    BorderContinues(p, i, j, c[q - i..q]);
  }

  /** A border of a matched prefix is continued by the same byte as the prefix. */
  lemma BorderContinues(p: seq<byte>, i: nat, j: nat, u: seq<byte>)
    requires SelfAligned(p) && 1 <= j < i < |p|
    requires u == p[..i] && u[i - j..] == p[..j]
    ensures p[i] == p[j]
  {
    var t := i - j;
    assert u[t] == u[t..][0] == p[..j][0];
    assert Realigns(p, t);
    assert p[t..][j] == p[j];
  }

  /** With a self-aligned pattern the scan stops at the end of the first occurrence, if there is one. */
  lemma FindComplete(p: seq<byte>, c: seq<byte>)
    requires p != [] && SelfAligned(p)
    ensures Find(p, c) >= 0 <==> Occurs(p, c)
    ensures Matched(p, c, |c|) == |p| ==>
              var h := FirstHit(p, c, |c|);
              OccursAt(p, c, h - |p|) && (forall s: nat :: s < h - |p| ==> !OccursAt(p, c, s))
  {
    if Matched(p, c, |c|) == |p| {
      FindSound(p, c);
      var h := FirstHit(p, c, |c|);
      forall s: nat | s < h - |p|
        ensures !OccursAt(p, c, s)
      {
        NotBefore(p, c, s, h - 1);
      }
    } else {
      forall s: nat
        ensures !OccursAt(p, c, s)
      {
        if s + |p| <= |c| {
          NotBefore(p, c, s, |c|);
        }
      }
    }
  }

  lemma NotBefore(p: seq<byte>, c: seq<byte>, s: nat, r: nat)
    requires p != [] && SelfAligned(p) && s + |p| <= r <= |c| && Matched(p, c, r) < |p|
    ensures !OccursAt(p, c, s)
  {
    BelowBefore(p, c, s + |p|, r);
    Longest(p, c, s + |p|, |p|);
    assert p[..|p|] == p;
  }

  /** With a self-aligned pattern the promise is kept exactly when no partial match was dropped. */
  lemma FindExact(p: seq<byte>, c: seq<byte>)
    requires p != [] && SelfAligned(p)
    ensures Documented(p, c, Find(p, c)) <==>
              (Matched(p, c, |c|) == |p| ==> Drops(p, c, FirstHit(p, c, |c|)) == 0)
  {
    FindComplete(p, c);
  }

  // -------- Patterns that are missed --------

  lemma {:induction false} MatchedPrefix(p: seq<byte>, c: seq<byte>, base: nat, i: nat)
    requires p != [] && i <= |p| && base + i <= |c| && c[base..base + i] == p[..i]
    requires Matched(p, c, base) == 0
    ensures Matched(p, c, base + i) == i
    decreases i
  {
    if i > 0 {
      assert c[base..base + i - 1] == c[base..base + i][..i - 1];
      assert p[..i - 1] == p[..i][..i - 1];
      MatchedPrefix(p, c, base, i - 1);
      assert c[base..base + i][i - 1] == p[..i][i - 1];
    }
  }

  lemma {:induction false} MatchedGrowth(p: seq<byte>, c: seq<byte>, q: nat, r: nat)
    requires p != [] && q <= r <= |c|
    ensures Matched(p, c, r) <= Matched(p, c, q) + (r - q)
    decreases r
  {
    if q < r {
      MatchedGrowth(p, c, q, r - 1);
    }
  }

  /** The text in which a pattern that recurs at `t` but deviates after `j` bytes is missed. */
  function MissedText(p: seq<byte>, t: nat, j: nat): seq<byte>
    requires t + j <= |p|
  {
    p[..t + j] + p[j..]
  }

  lemma MissedTextOccurs(p: seq<byte>, t: nat, j: nat)
    requires t + j < |p| && p[t..t + j] == p[..j]
    ensures OccursAt(p, MissedText(p, t, j), t)
  {
    var c := MissedText(p, t, j);
    assert c[t..t + |p|] == p[t..t + j] + p[j..];
    assert p[..j] + p[j..] == p;
  }

  lemma Missed(p: seq<byte>, t: nat, j: nat)
    requires 1 <= t && 1 <= j && t + j < |p|
    requires p[t..t + j] == p[..j] && p[t + j] != p[j]
    ensures OccursAt(p, MissedText(p, t, j), t) && Find(p, MissedText(p, t, j)) == -1
  {
    var c := MissedText(p, t, j);
    MissedTextOccurs(p, t, j);
    assert c[t + j] == p[j] && c[..t + j] == p[..t + j];
    MatchedInMissed(p, c, t, j);
    MatchedGrowth(p, c, t + j + 1, |c|);
  }

  lemma MatchedInMissed(p: seq<byte>, c: seq<byte>, t: nat, j: nat)
    requires 1 <= t && 1 <= j && t + j < |p| && p[t + j] != p[j]
    requires t + j < |c| && c[..t + j] == p[..t + j] && c[t + j] == p[j]
    ensures Matched(p, c, t + j + 1) <= 1
  {
    assert c[0..0 + (t + j)] == p[..t + j];
    MatchedPrefix(p, c, 0, t + j);
  }

  lemma FirstDeviation(p: seq<byte>, t: nat) returns (j: nat)
    requires 1 <= t < |p| && !Realigns(p, t)
    ensures 1 <= j && t + j < |p| && p[t..t + j] == p[..j] && p[t + j] != p[j]
  {
    assert p[t..] != p[..|p| - t];
    ghost var x :| 0 <= x < |p| - t && p[t..][x] != p[..|p| - t][x];
    j := 1;
    while p[t + j] == p[j]
      invariant 1 <= j <= x
      invariant forall i :: 0 <= i < j ==> p[t + i] == p[i]
      decreases x - j
    {
      j := j + 1;
    }
  }

  /** The search finds a pattern in every text that contains it if and only if it is self-aligned. */
  lemma FoundIffSelfAligned(p: seq<byte>)
    requires p != []
    ensures (forall c: seq<byte> :: Find(p, c) >= 0 <==> Occurs(p, c)) <==> SelfAligned(p)
  {
    if SelfAligned(p) {
      forall c: seq<byte>
        ensures Find(p, c) >= 0 <==> Occurs(p, c)
      {
        FindComplete(p, c);
      }
    } else {
      var t :| 1 <= t < |p| && !Realigns(p, t);
      var j := FirstDeviation(p, t);
      Missed(p, t, j);
      assert Occurs(p, MissedText(p, t, j));
    }
  }

  // -------- Patterns whose offset can be trusted --------

  lemma {:induction false} SingleByteNeverDrops(p: seq<byte>, c: seq<byte>, q: nat)
    requires |p| == 1 && q <= |c| && (q > 0 ==> Matched(p, c, q - 1) < 1)
    ensures Drops(p, c, q) == 0
  {
    if q > 0 {
      if q > 1 {
        BelowBefore(p, c, q - 2, q - 1);
      }
      SingleByteNeverDrops(p, c, q - 1);
    }
  }

  /** A byte that is neither of two given ones. */
  function Other(a: byte, b: byte): (y: byte)
    ensures y != a && y != b
  {
    if a != 0 && b != 0 then 0 else if a != 1 && b != 1 then 1 else 2
  }

  /** A longer pattern after a partial match of one byte: reported one position too early. */
  function ShiftedText(p: seq<byte>): seq<byte>
    requires |p| >= 2
  {
    [p[0], Other(p[0], p[1])] + p
  }

  lemma Shifted(p: seq<byte>)
    requires |p| >= 2
    ensures Find(p, ShiftedText(p)) == 1
    ensures OccursAt(p, ShiftedText(p), 2) && !OccursAt(p, ShiftedText(p), 1)
  {
    var c := ShiftedText(p);
    assert c[2..2 + |p|] == p;
    assert c[1..1 + |p|][0] == c[1];
    assert Matched(p, c, 0) == 0 && Matched(p, c, 1) == 1 && Matched(p, c, 2) == 0;
    assert Drops(p, c, 0) == 0 && Drops(p, c, 1) == 0 && Drops(p, c, 2) == 1;
    ShiftedScan(p, c, |p|);
    MatchedPrefixAt(p, c, |p| - 1);
    FirstHitUnique(p, c, |p| + 2, |c|);
  }

  lemma MatchedPrefixAt(p: seq<byte>, c: seq<byte>, i: nat)
    requires p != [] && 2 + |p| <= |c| && c[2..2 + |p|] == p && i <= |p| && Matched(p, c, 2) == 0
    ensures Matched(p, c, 2 + i) == i
  {
    assert c[2..2 + i] == c[2..2 + |p|][..i];
    MatchedPrefix(p, c, 2, i);
  }

  lemma {:induction false} ShiftedScan(p: seq<byte>, c: seq<byte>, i: nat)
    requires p != [] && 2 + |p| <= |c| && c[2..2 + |p|] == p && i <= |p| && Matched(p, c, 2) == 0
    ensures Matched(p, c, 2 + i) == i && Drops(p, c, 2 + i) == Drops(p, c, 2)
    decreases i
  {
    MatchedPrefixAt(p, c, i);
    if i > 0 {
      ShiftedScan(p, c, i - 1);
    }
  }

  lemma SingleByteDocumented(p: seq<byte>, c: seq<byte>)
    requires |p| == 1
    ensures Documented(p, c, Find(p, c))
  {
    FindExact(p, c);
    if Matched(p, c, |c|) == |p| {
      SingleByteNeverDrops(p, c, FirstHit(p, c, |c|));
    }
  }

  lemma LongerUndocumented(p: seq<byte>)
    requires |p| >= 2
    ensures !Documented(p, ShiftedText(p), Find(p, ShiftedText(p)))
  {
    Shifted(p);
    assert Occurs(p, ShiftedText(p));
  }

  /** The documented result is returned for every text if and only if the pattern is a single byte. */
  lemma DocumentedIffSingleByte(p: seq<byte>)
    requires p != []
    ensures (forall c: seq<byte> :: Documented(p, c, Find(p, c))) <==> |p| == 1
  {
    if |p| == 1 {
      forall c: seq<byte>
        ensures Documented(p, c, Find(p, c))
      {
        SingleByteDocumented(p, c);
      }
    } else {
      LongerUndocumented(p);
    }
  }

  /** The search for one byte is the search for a pattern of one byte. */
  lemma FindByteAgrees(x: byte, c: seq<byte>, n: int)
    requires n == -1 ==> x !in c
    requires n != -1 ==> 0 <= n < |c| && c[n] == x && x !in c[..n]
    ensures n == Find([x], c)
  {
    var r := Find([x], c);
    SingleByteDocumented([x], c);
    assert forall s: nat :: OccursAt([x], c, s) <==> s < |c| && c[s] == x by {
      forall s: nat | s < |c|
        ensures c[s..s + 1] == [c[s]]
      {
      }
    }
    if n != -1 {
      assert OccursAt([x], c, n);
      assert forall s: nat :: s < n ==> c[s] in c[..n];
    }
  }

  /** What is promised for a single byte: anything but zero if it occurs, or -1. */
  ghost predicate DocumentedByte(x: byte, c: seq<byte>, n: int) {
    if x in c then n != 0 else n == -1
  }

  /** The promise is kept if and only if the byte is not the first one. */
  lemma FindByteDocumented(x: byte, c: seq<byte>, n: int)
    requires n == -1 ==> x !in c
    requires n != -1 ==> 0 <= n < |c| && c[n] == x && x !in c[..n]
    ensures DocumentedByte(x, c, n) <==> c == [] || c[0] != x
  {
    assert n > 0 ==> c[..n][0] == c[0];
  }

  // -------- A pattern of no bytes --------

  /** Number of bytes of the memory `p` matched after `q` bytes, if no count ends the match. */
  function Held(p: seq<byte>, c: seq<byte>, q: nat): (i: nat)
    requires q <= |c|
    ensures i <= q
  {
    if q == 0 then 0
    else
      var i := Held(p, c, q - 1);
      if i < |p| && p[i] == c[q - 1] then i + 1 else if p != [] && p[0] == c[q - 1] then 1 else 0
  }

  /** The first `q` bytes have all been matched. */
  ghost predicate HeldSoFar(p: seq<byte>, c: seq<byte>, q: nat) {
    q <= |c| && forall g :: 1 <= g <= q ==> Held(p, c, g) > 0
  }

  /** As long as the search for no bytes goes on, it stays inside the memory `p`. */
  ghost predicate StaysInside(p: seq<byte>, c: seq<byte>) {
    forall q: nat :: q < |c| && HeldSoFar(p, c, q) ==> Held(p, c, q) < |p|
  }

  lemma EnoughMemory(p: seq<byte>, c: seq<byte>)
    requires |c| <= |p|
    ensures StaysInside(p, c)
  {
  }

  /**
    The result for a count of 0. The program only compares the number of matched
    bytes with the count after it has looked at a byte, so that it goes on in the
    memory `p` behind the pattern until it meets a byte that does not match it.
   */
  ghost predicate FoundNothing(p: seq<byte>, c: seq<byte>, n: int) {
    if HeldSoFar(p, c, |c|) then n == -1
    else exists q: nat :: FirstUnheld(p, c, q) && n == if q == 0 then 1 else q
  }

  /** The byte at `q` is the first one that does not match. */
  ghost predicate FirstUnheld(p: seq<byte>, c: seq<byte>, q: nat) {
    q < |c| && HeldSoFar(p, c, q) && Held(p, c, q + 1) == 0
  }

  /** An empty pattern occurs at the front of every text, and is never reported there. */
  lemma EmptyNeverDocumented(p: seq<byte>, c: seq<byte>, n: int)
    requires FoundNothing(p, c, n)
    ensures !Documented([], c, n)
  {
    assert OccursAt([], c, 0);
  }

  /** The variables of the search loop for a count of 0. */
  ghost predicate Holding(p: seq<byte>, c: seq<byte>, q: nat, i: nat, offs: nat) {
    StaysInside(p, c) && HeldSoFar(p, c, q) && i == Held(p, c, q) && offs == q - i
  }

  lemma HoldEnd(p: seq<byte>, c: seq<byte>, i: nat, offs: nat)
    requires Holding(p, c, |c|, i, offs)
    ensures FoundNothing(p, c, -1)
  {
  }

  lemma HoldStep(p: seq<byte>, c: seq<byte>, q: nat, i: nat, offs: nat)
    requires Holding(p, c, q, i, offs) && q < |c|
    ensures i < |p|
    ensures var y := c[q];
            var offs' := if p[i] == y then offs else if i == 0 then offs + 1 else offs + i;
            var i' := if p[i] == y then i else 0;
            var i'' := if p[i'] == y then i' + 1 else i';
            if i'' == 0 then FoundNothing(p, c, offs') else Holding(p, c, q + 1, i'', offs')
  {
    if Held(p, c, q + 1) == 0 {
      assert FirstUnheld(p, c, q);
      assert q > 0 ==> Held(p, c, q) > 0;
    }
  }

  // -------- Any count --------

  /** What the search for the first `num` bytes of `data` amounts to. */
  ghost predicate Sought(data: seq<byte>, num: nat, c: seq<byte>, n: int)
    requires num <= |data|
  {
    if num > 0 then n == Find(data[..num], c) else FoundNothing(data, c, n)
  }

  ghost predicate Seeking(data: seq<byte>, num: nat, c: seq<byte>, q: nat, i: nat, offs: nat) {
    && num <= |data| && (num == 0 ==> StaysInside(data, c))
    && if num > 0 then Scanning(data[..num], c, q, i, offs) else Holding(data, c, q, i, offs)
  }

  lemma SeekStart(data: seq<byte>, num: nat, c: seq<byte>)
    requires num <= |data| && (num == 0 ==> StaysInside(data, c))
    ensures Seeking(data, num, c, 0, 0, 0)
  {
    if num > 0 {
      ScanStart(data[..num], c);
    }
  }

  lemma SeekEnd(data: seq<byte>, num: nat, c: seq<byte>, i: nat, offs: nat)
    requires Seeking(data, num, c, |c|, i, offs)
    ensures Sought(data, num, c, -1)
  {
    if num > 0 {
      ScanEnd(data[..num], c, i, offs);
    } else {
      HoldEnd(data, c, i, offs);
    }
  }

  lemma SeekStep(data: seq<byte>, num: nat, c: seq<byte>, q: nat, i: nat, offs: nat)
    requires Seeking(data, num, c, q, i, offs) && q < |c|
    ensures i < |data|
    ensures var y := c[q];
            var offs' := if data[i] == y then offs else if i == 0 then offs + 1 else offs + i;
            var i' := if data[i] == y then i else 0;
            var i'' := if data[i'] == y then i' + 1 else i';
            if i'' == num then Sought(data, num, c, offs') else Seeking(data, num, c, q + 1, i'', offs')
  {
    if num > 0 {
      ScanStep(data[..num], c, q, i, offs);
    } else {
      HoldStep(data, c, q, i, offs);
    }
  }

  /** "ab" in "acab" is reported at 1 instead of 2, and "aab" is not found in "aaab". */
  lemma FindExamples()
    ensures Find([97, 98], [97, 99, 97, 98]) == 1
    ensures OccursAt([97, 97, 98], [97, 97, 97, 98], 1) && Find([97, 97, 98], [97, 97, 97, 98]) == -1
  {
    assert ShiftedText([97, 98])[1] == 0;
    var p, c: seq<byte> := [97, 98], [97, 99, 97, 98];
    assert Matched(p, c, 1) == 1 && Matched(p, c, 2) == 0 && Matched(p, c, 3) == 1 && Matched(p, c, 4) == 2;
    assert Drops(p, c, 1) == 0 && Drops(p, c, 2) == 1 && Drops(p, c, 3) == 1;
    Missed([97, 97, 98], 1, 1);
    assert MissedText([97, 97, 98], 1, 1) == [97, 97, 97, 98];
  }

  // -------- Comparing with a string --------

  /** What is left of `c` behind the first `offs` bytes. */
  function Behind(c: seq<byte>, offs: nat): seq<byte> {
    if offs <= |c| then c[offs..] else []
  }

  /**
    The result of comparing a string with `rest`, the content behind the offset:
    the length of a matching string, -1 if the data ran out undecided, and 0
    otherwise. A list that owns no block always compares as 0.
   */
  function Verdict(str: seq<byte>, rest: seq<byte>, hasBlock: bool): int {
    if !hasBlock then 0
    else if rest == [] then -1
    else if str <= rest then |str|
    else if rest <= str then -1
    else 0
  }

  /**
    What is promised: the length of a string that matches, -1 if the data ends
    before the string does, and 0 if there is a difference. What an empty string
    gives is left open, since its length is also the result for no match.
   */
  ghost predicate DocumentedCompare(str: seq<byte>, rest: seq<byte>, n: int) {
    && (str != [] && str <= rest ==> n == |str|)
    && (rest < str ==> n == -1)
    && (!(str <= rest) && !(rest <= str) ==> n == 0)
  }

  /** The promise is kept if and only if the list owns a block or the string is empty. */
  lemma CompareDocumented(str: seq<byte>, rest: seq<byte>, hasBlock: bool)
    requires !hasBlock ==> rest == []
    ensures DocumentedCompare(str, rest, Verdict(str, rest, hasBlock)) <==> hasBlock || str == []
  {
    assert rest == [] ==> rest <= str;
    assert str == [] ==> str <= rest;
  }

  /**
    The result in each case: the length of a non-empty string that the data behind
    the offset starts with, -1 if the data ends before that is decided, and 0 if
    there is a difference, no block, or nothing to compare with some data.
   */
  ghost predicate Compared(str: seq<byte>, c: seq<byte>, offs: nat, hasBlock: bool, n: int) {
    var rest := if offs <= |c| then c[offs..] else [];
    && (!hasBlock ==> n == 0)
    && (str != [] && str <= rest ==> n == |str|)
    && (hasBlock && (rest == [] || rest < str) ==> n == -1)
    && (!(str <= rest) && !(rest <= str) ==> n == 0)
    && (str == [] && rest != [] ==> n == 0)
  }

  lemma VerdictCases(str: seq<byte>, c: seq<byte>, offs: nat, hasBlock: bool)
    requires !hasBlock ==> c == []
    ensures Compared(str, c, offs, hasBlock, Verdict(str, Behind(c, offs), hasBlock))
    ensures !hasBlock ==> Verdict(str, Behind(c, offs), hasBlock) == 0
  {
  }

  /** The first `n` bytes of the text agree with those of `c` behind `offs`, up to the end of `seen`. */
  ghost predicate Agrees(text: seq<byte>, c: seq<byte>, offs: nat, n: nat, seen: seq<byte>) {
    n <= |text| && |seen| == offs + n && seen <= c && seen[offs..] == text[..n]
  }

  lemma AgreesStart(text: seq<byte>, c: seq<byte>, offs: nat, seen: seq<byte>)
    requires |seen| == offs && seen <= c
    ensures Agrees(text, c, offs, 0, seen)
  {
  }

  /** The data ends before the offset. */
  lemma VerdictBehindEnd(text: seq<byte>, c: seq<byte>, offs: nat)
    requires |c| <= offs
    ensures Verdict(text, Behind(c, offs), true) == -1
  {
  }

  lemma AgreesBound(text: seq<byte>, c: seq<byte>, offs: nat, n: nat, seen: seq<byte>)
    requires Agrees(text, c, offs, n, seen) && |seen| < |c|
    ensures offs < |c|
  {
  }

  lemma AgreesStep(text: seq<byte>, c: seq<byte>, offs: nat, n: nat, seen: seq<byte>)
    requires Agrees(text, c, offs, n, seen) && n < |text| && |seen| < |c| && c[|seen|] == text[n]
    ensures Agrees(text, c, offs, n + 1, seen + [text[n]])
  {
    assert (seen + [text[n]])[offs..] == seen[offs..] + [text[n]];
  }

  lemma VerdictAtEnd(text: seq<byte>, c: seq<byte>, offs: nat, n: nat, seen: seq<byte>)
    requires Agrees(text, c, offs, n, seen) && seen == c && (n == 0 || n < |text|)
    ensures Verdict(text, Behind(c, offs), true) == -1
  {
  }

  lemma VerdictMatch(text: seq<byte>, c: seq<byte>, offs: nat, seen: seq<byte>)
    requires Agrees(text, c, offs, |text|, seen) && offs < |c|
    ensures Verdict(text, Behind(c, offs), true) == |text|
  {
    assert Behind(c, offs)[..|text|] == seen[offs..] == text;
  }

  lemma VerdictMismatch(text: seq<byte>, c: seq<byte>, offs: nat, n: nat, seen: seq<byte>)
    requires Agrees(text, c, offs, n, seen) && n < |text| && |seen| < |c| && c[|seen|] != text[n]
    ensures Verdict(text, Behind(c, offs), true) == 0
  {
    assert Behind(c, offs)[n] == c[|seen|];
  }
}
