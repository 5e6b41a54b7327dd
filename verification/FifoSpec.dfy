/**
  Specification of one buffer list and its share of the memory pool as a value:
  what a single byte written or read does, what a bulk transfer is (the same,
  repeated), and what that means for the abstract byte sequence.
 */
module FifoSpec {
  import opened Basics
  import opened Layout

  /**
    A list as its users see it: `maxi` data bytes per block, `free` blocks left
    in the memory pool, and the chain of blocks owned by the list.
   */
  datatype Fifo = Fifo(maxi: nat, free: nat, chain: Chain)

  ghost predicate Fit(f: Fifo) {
    f.maxi > 0 && Base(f.maxi, f.chain)
  }

  /** Bytes that can still be written: the tail block's rest and the free blocks. */
  function Room(f: Fifo): nat {
    f.maxi * f.free + TailRoom(f.maxi, f.chain)
  }

  // -------- Writing --------

  /** There is no tail block, or it is full. */
  predicate NeedsBlock(f: Fifo) {
    f.chain == [] || |f.chain[|f.chain| - 1].bytes| == f.maxi
  }

  /** A block moves from the pool to the tail of the list. */
  function Grow(f: Fifo): Fifo
    requires f.free > 0
  {
    Fifo(f.maxi, f.free - 1, f.chain + [Blk(0, [])])
  }

  /** Make the tail block writable if that is possible. */
  function Prepare(f: Fifo): Fifo {
    if NeedsBlock(f) && f.free > 0 then Grow(f) else f
  }

  /** One byte written; the flag says whether it was accepted. */
  function PutByte(f: Fifo, x: byte): (Fifo, bool) {
    var g := Prepare(f);
    if NeedsBlock(g) then (g, false) else (g.(chain := Append(g.chain, x)), true)
  }

  /** Bytes of `s` written one at a time until one is refused, and how many were accepted. */
  function PutAll(f: Fifo, s: seq<byte>): (r: (Fifo, nat))
    ensures r.1 <= |s|
    decreases |s|
  {
    if s == [] then (f, 0)
    else
      var (g, ok) := PutByte(f, s[0]);
      if ok then var (h, n) := PutAll(g, s[1..]); (h, n + 1) else (g, 0)
  }

  /** A bulk write: with nothing to write it still makes the tail writable. */
  function Write(f: Fifo, s: seq<byte>): (Fifo, nat) {
    if s == [] then (Prepare(f), 0) else PutAll(f, s)
  }

  // -------- Reading --------

  /** A block that is both drained and full is only returned when the reader comes back. */
  function Settle(f: Fifo): Fifo {
    if f.chain != [] && Drained(f.chain[0]) && |f.chain[0].bytes| == f.maxi
    then Fifo(f.maxi, f.free + 1, f.chain[1..])
    else f
  }

  /** One byte read, if the head block has one. */
  function TakeByte(f: Fifo): (Fifo, Option<byte>) {
    var g := Settle(f);
    if g.chain == [] || g.chain[0].rdi >= |g.chain[0].bytes| then (g, None)
    else (g.(chain := Advance(g.chain)), Some(g.chain[0].bytes[g.chain[0].rdi]))
  }

  lemma TakeByteIs(f: Fifo)
    ensures var g := Settle(f);
            if g.chain == [] || g.chain[0].rdi >= |g.chain[0].bytes| then TakeByte(f) == (g, None)
            else TakeByte(f) == (g.(chain := Advance(g.chain)), Some(g.chain[0].bytes[g.chain[0].rdi]))
  {
  }

  /** Up to `n` bytes read one at a time, stopping when there is none. */
  function TakeAll(f: Fifo, n: nat): (Fifo, seq<byte>)
    decreases n
  {
    if n == 0 then (f, [])
    else
      var (g, r) := TakeByte(f);
      match r
      case None => (g, [])
      case Some(x) => var (h, s) := TakeAll(g, n - 1); (h, [x] + s)
  }

  /** A bulk read: with nothing to read it still returns a drained full head block. */
  function Read(f: Fifo, n: nat): (Fifo, seq<byte>) {
    if n == 0 then (Settle(f), []) else TakeAll(f, n)
  }

  /** A bulk flush; 0 means everything, including the attempt to read past the end. */
  function Flush(f: Fifo, n: nat): Fifo {
    TakeAll(f, if n == 0 then |Content(f.chain)| + 1 else n).0
  }

  lemma FlushIs(f: Fifo, n: nat)
    ensures Flush(f, n) == TakeAll(f, if n == 0 then |Content(f.chain)| + 1 else n).0
  {
  }

  // -------- What the elementary steps mean --------

  /** `g` has the same blocks as `f`, divided differently between list and pool. */
  ghost predicate SameBlocks(f: Fifo, g: Fifo) {
    g.maxi == f.maxi && g.free + |g.chain| == f.free + |f.chain|
  }

  /** Every layout invariant that holds of `f` holds of `g`. */
  ghost predicate AsStrong(f: Fifo, g: Fifo) {
    && (Base(f.maxi, f.chain) ==> Base(g.maxi, g.chain))
    && (Weak(f.maxi, f.chain) ==> Weak(g.maxi, g.chain))
    && (Strong(f.maxi, f.chain) ==> Strong(g.maxi, g.chain))
  }

  lemma GrowRoom(f: Fifo)
    requires f.free > 0 && NeedsBlock(f)
    ensures Room(Grow(f)) == Room(f)
  {
    assert f.maxi * f.free == f.maxi * (f.free - 1) + f.maxi;
  }

  /** Which invariants survive an allocation depends on the tail only. */
  lemma GrowStrength(f: Fifo)
    requires f.free > 0 && Fit(f)
    ensures Base(f.maxi, Grow(f).chain)
    ensures Weak(f.maxi, Grow(f).chain) <==> Weak(f.maxi, f.chain) && NeedsBlock(f)
    ensures Strong(f.maxi, Grow(f).chain) <==> f.chain == []
  {
    var c, d := f.chain, Grow(f).chain;
    assert forall i :: 0 <= i < |c| ==> d[i] == c[i];
    assert d[|c|].bytes == [];
  }

  lemma NoRoom(f: Fifo)
    requires Fit(f)
    ensures Room(f) == 0 <==> f.free == 0 && NeedsBlock(f)
  {
    assert NeedsBlock(f) <==> TailRoom(f.maxi, f.chain) == 0;
    assert f.free > 0 ==> f.maxi * f.free >= f.maxi;
  }

  lemma PrepareFacts(f: Fifo)
    requires Fit(f)
    ensures var g := Prepare(f);
            && Fit(g) && SameBlocks(f, g)
            && (Weak(f.maxi, f.chain) ==> Weak(g.maxi, g.chain))
            && Content(g.chain) == Content(f.chain)
            && Room(g) == Room(f) && Offset(g.chain) == Offset(f.chain)
            && (NeedsBlock(g) <==> Room(f) == 0)
            && (NeedsBlock(g) ==> g == f)
  {
    hide Content, Room;
    NoRoom(f);
    if NeedsBlock(f) && f.free > 0 {
      GrowRoom(f);
      ContentGrow(f.chain);
      var c := Grow(f).chain;
      assert forall i :: 0 <= i < |f.chain| ==> c[i] == f.chain[i];
    }
  }

  lemma AppendFacts(f: Fifo, x: byte)
    requires Fit(f) && f.chain != [] && !NeedsBlock(f)
    ensures var g := f.(chain := Append(f.chain, x));
            && SameBlocks(f, g) && AsStrong(f, g)
            && Content(g.chain) == Content(f.chain) + [x]
            && Room(g) == Room(f) - 1 && Offset(g.chain) == Offset(f.chain)
  {
    ContentAppend(f.maxi, f.chain, x);
  }

  /** A byte is accepted exactly when there is room, and then it joins the end of the content. */
  lemma PutByteFacts(f: Fifo, x: byte)
    requires Fit(f)
    ensures var (g, ok) := PutByte(f, x);
            && Fit(g) && SameBlocks(f, g) && AsStrong(f, g)
            && (ok <==> Room(f) > 0)
            && Content(g.chain) == Content(f.chain) + (if ok then [x] else [])
            && Room(g) == Room(f) - (if ok then 1 else 0)
            && Offset(g.chain) == Offset(f.chain)
            && (!ok ==> g == f)
  {
    PrepareFacts(f);
    var g := Prepare(f);
    if !NeedsBlock(g) {
      AppendFacts(g, x);
      if Strong(f.maxi, f.chain) {
        var c := Append(g.chain, x);
        assert forall i :: 0 < i < |c| - 1 ==> c[i] == f.chain[i];
      }
    }
  }

  /** `f` is reached from `f0` on the way of writing `s`, with `n` bytes behind. */
  ghost predicate Putting(f0: Fifo, s: seq<byte>, f: Fifo, n: nat) {
    && n <= |s| && Fit(f)
    && PutAll(f0, s) == (PutAll(f, s[n..]).0, n + PutAll(f, s[n..]).1)
  }

  lemma PutAllStep(f: Fifo, s: seq<byte>)
    requires s != [] && Fit(f) && !NeedsBlock(f)
    ensures var g := f.(chain := Append(f.chain, s[0]));
            Fit(g) && PutAll(f, s) == (PutAll(g, s[1..]).0, 1 + PutAll(g, s[1..]).1)
  {
    AppendFacts(f, s[0]);
  }

  lemma PuttingStart(f: Fifo, s: seq<byte>)
    requires Fit(f)
    ensures Putting(f, s, f, 0)
  {
    assert s[0..] == s;
  }

  lemma PuttingStep(f0: Fifo, s: seq<byte>, f: Fifo, n: nat)
    requires Putting(f0, s, f, n) && n < |s| && !NeedsBlock(f)
    ensures Putting(f0, s, f.(chain := Append(f.chain, s[n])), n + 1) && Fit(f.(chain := Append(f.chain, s[n])))
  {
    PutAllStep(f, s[n..]);
    assert s[n..][1..] == s[n + 1..];
  }

  lemma PreparedPut(f: Fifo, s: seq<byte>)
    requires s != [] && Fit(f)
    ensures PutAll(Prepare(f), s) == PutAll(f, s)
    ensures NeedsBlock(Prepare(f)) ==> PutAll(f, s) == (Prepare(f), 0)
  {
    var g := Prepare(f);
    if g != f {
      assert Prepare(g) == g;
    }
  }

  lemma PuttingPrepare(f0: Fifo, s: seq<byte>, f: Fifo, n: nat)
    requires Putting(f0, s, f, n) && n < |s|
    ensures Putting(f0, s, Prepare(f), n)
    ensures NeedsBlock(Prepare(f)) ==> PutAll(f0, s) == (Prepare(f), n)
  {
    hide Content, Room, Weak;
    var g := Prepare(f);
    PrepareFacts(f);
    PreparedPut(f, s[n..]);
  }

  lemma PuttingEnd(f0: Fifo, s: seq<byte>, f: Fifo)
    requires Putting(f0, s, f, |s|)
    ensures PutAll(f0, s) == (f, |s|)
  {
  }

  /** The same for a bulk write, which with nothing to write only prepares the tail. */
  ghost predicate Writing(f0: Fifo, s: seq<byte>, f: Fifo, n: nat) {
    if s == [] then Fit(f) && n == 0 && Prepare(f) == Prepare(f0) else Putting(f0, s, f, n)
  }

  lemma WritingStart(f: Fifo, s: seq<byte>)
    requires Fit(f)
    ensures Writing(f, s, f, 0)
  {
    PuttingStart(f, s);
  }

  /** Preparing the tail is part of writing, and all that is left of it if it fails. */
  lemma WritingPrepare(f0: Fifo, s: seq<byte>, f: Fifo, n: nat)
    requires Writing(f0, s, f, n) && (s == [] || n < |s|)
    ensures Writing(f0, s, Prepare(f), n)
    ensures NeedsBlock(Prepare(f)) || s == [] ==> Write(f0, s) == (Prepare(f), n)
  {
    if s == [] {
      PrepareFacts(f);
    } else {
      PuttingPrepare(f0, s, f, n);
    }
  }

  lemma WritingIsPutting(f0: Fifo, s: seq<byte>, f: Fifo, n: nat)
    requires s != []
    ensures Writing(f0, s, f, n) <==> Putting(f0, s, f, n)
  {
  }

  lemma WritingEnd(f0: Fifo, s: seq<byte>, f: Fifo)
    requires s != [] && Writing(f0, s, f, |s|)
    ensures Write(f0, s) == (f, |s|)
  {
    PuttingEnd(f0, s, f);
  }

  lemma KeptTrans(f: Fifo, g: Fifo, h: Fifo)
    requires SameBlocks(f, g) && AsStrong(f, g) && SameBlocks(g, h) && AsStrong(g, h)
    ensures SameBlocks(f, h) && AsStrong(f, h)
  {
  }

  lemma PrefixStep(c: seq<byte>, s: seq<byte>, n: nat)
    requires n < |s|
    ensures (c + [s[0]]) + s[1..][..n] == c + s[..n + 1]
  {
    assert [s[0]] + s[1..][..n] == s[..n + 1];
  }

  /** A bulk write accepts exactly `min(num, free space)` bytes, in order, and nothing else changes. */
  lemma {:induction false} PutAllFacts(f: Fifo, s: seq<byte>)
    requires Fit(f)
    ensures var (g, n) := PutAll(f, s);
            && Fit(g) && SameBlocks(f, g) && AsStrong(f, g)
            && n == Min(|s|, Room(f))
            && Content(g.chain) == Content(f.chain) + s[..n]
            && Room(g) == Room(f) - n
            && Offset(g.chain) == Offset(f.chain)
    decreases |s|
  {
    hide Content, Room, Base, Weak, Strong, PutByte, Offset;
    if s != [] {
      PutByteFacts(f, s[0]);
      var (g, ok) := PutByte(f, s[0]);
      if ok {
        PutAllFacts(g, s[1..]);
        var (h, n) := PutAll(g, s[1..]);
        PrefixStep(Content(f.chain), s, n);
        KeptTrans(f, g, h);
      }
    }
  }

  lemma SettleFacts(f: Fifo)
    requires Fit(f)
    ensures var g := Settle(f);
            && Fit(g) && SameBlocks(f, g) && AsStrong(f, g)
            && Content(g.chain) == Content(f.chain)
            && Settle(g) == g
            && (f.chain != [] && !Drained(f.chain[0]) ==> g == f)
  {
    var g := Settle(f);
    if g != f {
      ContentDropHead(f.chain);
      var c := g.chain;
      assert forall i :: 0 <= i < |c| ==> c[i] == f.chain[i + 1];
    }
  }

  lemma AdvanceFacts(f: Fifo)
    requires Fit(f) && f.chain != [] && !Drained(f.chain[0])
    ensures var g := f.(chain := Advance(f.chain));
            && Fit(g) && SameBlocks(f, g) && AsStrong(f, g)
            && [f.chain[0].bytes[f.chain[0].rdi]] + Content(g.chain) == Content(f.chain)
            && |g.chain| == |f.chain| && TailRoom(f.maxi, g.chain) == TailRoom(f.maxi, f.chain)
  {
    ContentAdvance(f.maxi, f.chain);
  }

  /** A byte read is the oldest byte of the content; without one, the head block is drained. */
  lemma TakeByteFacts(f: Fifo)
    requires Fit(f)
    ensures var (g, r) := TakeByte(f);
            && Fit(g) && SameBlocks(f, g) && AsStrong(f, g)
            && (r.None? ==> Content(g.chain) == Content(f.chain))
            && (r.None? && Weak(f.maxi, f.chain) ==> Content(f.chain) == [])
            && (r.Some? ==> [r.value] + Content(g.chain) == Content(f.chain))
  {
    SettleFacts(f);
    var g := Settle(f);
    if g.chain != [] && g.chain[0].rdi < |g.chain[0].bytes| {
      AdvanceFacts(g);
    } else if g.chain != [] && Weak(f.maxi, f.chain) {
      DrainedMeansEmpty(g.maxi, g.chain);
    }
  }

  lemma WholeSplit(s: seq<byte>, rest: seq<byte>, whole: seq<byte>)
    requires s + rest == whole && |s| == |whole|
    ensures s == whole && rest == []
  {
    assert s == (s + rest)[..|s|];
  }

  lemma JoinReads(x: byte, s: seq<byte>, before: seq<byte>, between: seq<byte>, after: seq<byte>)
    requires [x] + between == before && s + after == between
    ensures ([x] + s) + after == before
  {
  }

  lemma TakeAllStep(f: Fifo, n: nat)
    requires n > 0
    ensures var (g, r) := TakeByte(f);
            TakeAll(f, n) == if r.None? then (g, []) else
              (TakeAll(g, n - 1).0, [r.value] + TakeAll(g, n - 1).1)
  {
  }

  /** A bulk read returns exactly the first `min(num, count)` bytes and leaves the others. */
  lemma {:induction false} TakeAllFacts(f: Fifo, n: nat)
    requires Fit(f)
    ensures var (g, s) := TakeAll(f, n);
            && Fit(g) && SameBlocks(f, g) && AsStrong(f, g)
            && s + Content(g.chain) == Content(f.chain)
            && |s| <= n
            && (Weak(f.maxi, f.chain) ==> |s| == Min(n, |Content(f.chain)|))
    decreases n
  {
    hide Content, TakeByte, Base, Weak, Strong;
    if n > 0 {
      var (g, r) := TakeByte(f);
      TakeByteFacts(f);
      TakeAllStep(f, n);
      if r.Some? {
        var (h, s) := TakeAll(g, n - 1);
        TakeAllFacts(g, n - 1);
        KeptTrans(f, g, h);
        JoinReads(r.value, s, Content(f.chain), Content(g.chain), Content(h.chain));
      }
    }
  }

  lemma TakeAtMost(f: Fifo, n: nat)
    requires Fit(f)
    ensures |TakeAll(f, n).1| <= |Content(f.chain)|
  {
    TakeAllFacts(f, n);
  }

  /** Returning the drained head first makes no difference to a read. */
  lemma {:induction false} TakeAllSettle(f: Fifo, n: nat)
    requires Fit(f) && n > 0
    ensures TakeAll(Settle(f), n) == TakeAll(f, n)
  {
    SettleFacts(f);
  }

  /** Reading a byte from a head block that has one. */
  lemma TakeAllHead(f: Fifo, n: nat)
    requires Fit(f) && f.chain != [] && !Drained(f.chain[0]) && n > 0
    ensures var g := f.(chain := Advance(f.chain));
            && Fit(g)
            && TakeAll(f, n) == (TakeAll(g, n - 1).0, [f.chain[0].bytes[f.chain[0].rdi]] + TakeAll(g, n - 1).1)
  {
    AdvanceFacts(f);
    TakeAllStep(f, n);
  }

  /** A list whose head block is drained but not full has nothing to give. */
  lemma TakeAllNothing(f: Fifo, n: nat)
    requires Fit(f) && (f.chain == [] || (Drained(f.chain[0]) && |f.chain[0].bytes| < f.maxi))
    ensures TakeAll(f, n) == (f, []) && Settle(f) == f
  {
  }

  /** `f` is reached from `f0` on the way of reading `num` bytes, of which `s` have been read. */
  ghost predicate Taking(f0: Fifo, num: nat, f: Fifo, s: seq<byte>) {
    && |s| <= num && Fit(f)
    && TakeAll(f0, num) == (TakeAll(f, num - |s|).0, s + TakeAll(f, num - |s|).1)
  }

  lemma TakingStart(f: Fifo, num: nat)
    requires Fit(f)
    ensures Taking(f, num, f, [])
  {
    assert [] + TakeAll(f, num).1 == TakeAll(f, num).1;
  }

  lemma TakingSettle(f0: Fifo, num: nat, f: Fifo, s: seq<byte>)
    requires Taking(f0, num, f, s) && |s| < num
    ensures Taking(f0, num, Settle(f), s) && Fit(Settle(f))
  {
    SettleFacts(f);
    TakeAllSettle(f, num - |s|);
  }

  lemma TakingStep(f0: Fifo, num: nat, f: Fifo, s: seq<byte>)
    requires Taking(f0, num, f, s) && |s| < num && f.chain != [] && !Drained(f.chain[0])
    ensures Taking(f0, num, f.(chain := Advance(f.chain)), s + [f.chain[0].bytes[f.chain[0].rdi]])
    ensures Fit(f.(chain := Advance(f.chain)))
  {
    TakeAllHead(f, num - |s|);
    var x := f.chain[0].bytes[f.chain[0].rdi];
    var t := TakeAll(f.(chain := Advance(f.chain)), num - |s| - 1).1;
    ConcatAssociative(s, [x], t);
  }

  lemma TakingEnd(f0: Fifo, num: nat, f: Fifo, s: seq<byte>)
    requires Taking(f0, num, f, s)
    requires |s| == num || f.chain == [] || (Drained(f.chain[0]) && |f.chain[0].bytes| < f.maxi)
    ensures TakeAll(f0, num) == (f, s)
  {
    if |s| < num {
      TakeAllNothing(f, num - |s|);
    }
    assert s + [] == s;
  }

  /** The same for a bulk read, which with nothing to read only settles the head. */
  ghost predicate Reading(f0: Fifo, num: nat, f: Fifo, s: seq<byte>) {
    if num == 0 then Fit(f) && s == [] && Settle(f) == Settle(f0) else Taking(f0, num, f, s)
  }

  lemma ReadingStart(f: Fifo, num: nat)
    requires Fit(f)
    ensures Reading(f, num, f, [])
  {
    TakingStart(f, num);
  }

  lemma ReadingSettle(f0: Fifo, num: nat, f: Fifo, s: seq<byte>)
    requires Reading(f0, num, f, s) && (num == 0 || |s| < num)
    ensures Reading(f0, num, Settle(f), s) && Fit(Settle(f))
  {
    if num == 0 {
      SettleFacts(f);
    } else {
      TakingSettle(f0, num, f, s);
    }
  }

  lemma ReadingIsTaking(f0: Fifo, num: nat, f: Fifo, s: seq<byte>)
    requires num > 0
    ensures Reading(f0, num, f, s) <==> Taking(f0, num, f, s)
    ensures Reading(f0, num, f, s) ==> Fit(f)
  {
  }

  lemma ReadingEnd(f0: Fifo, num: nat, f: Fifo, s: seq<byte>)
    requires Reading(f0, num, f, s)
    requires (|s| == num && (num > 0 || (f.chain != [] && !Drained(f.chain[0]))))
             || f.chain == [] || (Drained(f.chain[0]) && |f.chain[0].bytes| < f.maxi)
    ensures Read(f0, num) == (f, s)
  {
    if num > 0 {
      TakingEnd(f0, num, f, s);
    }
  }

  /** Flushing everything never reaches its nominal goal. */
  lemma TakingBound(f0: Fifo, num: nat, f: Fifo, s: seq<byte>)
    requires Fit(f0) && Taking(f0, num, f, s)
    ensures |s| <= |Content(f0.chain)|
  {
    TakeAtMost(f0, num);
  }

  // -------- Capacity --------

  lemma Distribute(m: int, a: int, b: int)
    ensures m * (a + b) == m * a + m * b
  {
  }

  /**
    For the sole owner of a pool, what is writable, readable, and consumed but not
    returned is everything if and only if all blocks but the tail are full. It is
    never more, and else it is less: a block left behind partly filled is wasted.
   */
  lemma CapacityEquation(f: Fifo, capacity: nat)
    requires Base(f.maxi, f.chain) && f.free + |f.chain| == capacity
    ensures Room(f) + |Content(f.chain)| + Offset(f.chain) <= f.maxi * capacity
    ensures Room(f) + |Content(f.chain)| + Offset(f.chain) == f.maxi * capacity <==> Weak(f.maxi, f.chain)
    ensures Offset(f.chain) <= f.maxi
  {
    CellsOfChain(f.maxi, f.chain);
    Distribute(f.maxi, f.free, |f.chain|);
  }

  /** A read that runs dry has tried the head block and found it drained and not full. */
  lemma {:induction false} LastTake(f: Fifo, n: nat)
    requires Fit(f) && |TakeAll(f, n).1| < n
    ensures var g := TakeAll(f, n).0;
            g.chain != [] ==> Drained(g.chain[0]) && |g.chain[0].bytes| < f.maxi
    decreases n
  {
    var (g, r) := TakeByte(f);
    TakeByteFacts(f);
    TakeAllStep(f, n);
    SettleFacts(f);
    if r.Some? {
      LastTake(g, n - 1);
    }
  }

  // -------- Where the documentation of the byte reader fails --------

  /** The head is about to be returned to the pool, and the block behind it has no data yet. */
  predicate Pitfall(f: Fifo) {
    && |f.chain| >= 2 && Drained(f.chain[0]) && |f.chain[0].bytes| == f.maxi
    && f.chain[1].bytes == []
  }

  lemma StrongHasNoPitfall(f: Fifo)
    requires Strong(f.maxi, f.chain)
    ensures !Pitfall(f)
  {
    assert |f.chain| >= 2 ==> f.chain[1].bytes != [];
  }

  /** Writers that respect the tail can only cause it on a list without data. */
  lemma PitfallIsEmpty(f: Fifo)
    requires Fit(f) && Weak(f.maxi, f.chain) && Pitfall(f)
    ensures |f.chain| == 2 && Content(f.chain) == []
  {
    var c := f.chain;
    assert c[1..] == [c[1]];
    ContentOne(c[1]);
  }

  /** Writers that respect the tail never strand the readers. */
  lemma WeakNotStranded(f: Fifo)
    requires Weak(f.maxi, f.chain)
    ensures !Stranded(f)
  {
    if f.chain != [] && Drained(f.chain[0]) && |f.chain[0].bytes| < f.maxi {
      DrainedMeansEmpty(f.maxi, f.chain);
      assert f.chain[1..] == [];
    }
  }

  /** Behind a drained head there is another block without data only in the pitfall. */
  lemma SettleDrained(f: Fifo)
    requires Fit(f) && f.chain != [] && Drained(f.chain[0])
    ensures var g := Settle(f);
            && Fit(g)
            && (|f.chain[0].bytes| == f.maxi ==> (g.chain != [] && Drained(g.chain[0]) <==> Pitfall(f)))
            && (|f.chain[0].bytes| != f.maxi ==> g == f && !Pitfall(f))
  {
    SettleFacts(f);
  }

  /** What a reader that does not look again makes of it. */
  lemma PitfallStep(f: Fifo)
    requires Fit(f) && Pitfall(f)
    ensures Settle(f).chain != [] && Settle(f).chain[0] == Blk(0, [])
    ensures Advance(Settle(f).chain) == [Blk(1, [])] + f.chain[2..]
  {
    assert f.chain[1..] == [f.chain[1]] + f.chain[2..];
  }

  /** Bytes that fit into the tail block go there, and nothing else moves. */
  lemma {:induction false} FillTail(f: Fifo, s: seq<byte>)
    requires f.chain != []
    requires |f.chain[|f.chain| - 1].bytes| + |s| <= f.maxi
    ensures var k := |f.chain| - 1;
            var t := f.chain[k];
            PutAll(f, s) == (f.(chain := f.chain[k := Blk(t.rdi, t.bytes + s)]), |s|)
    decreases |s|
  {
    var k := |f.chain| - 1;
    var t := f.chain[k];
    if s == [] {
      assert t.bytes + s == t.bytes;
      assert f.chain[k := t] == f.chain;
    } else {
      var g := PutByte(f, s[0]).0;
      assert g.chain == f.chain[k := Blk(t.rdi, t.bytes + [s[0]])];
      FillTail(g, s[1..]);
      assert (t.bytes + [s[0]]) + s[1..] == t.bytes + s;
      var t' := Blk(t.rdi, t.bytes + s);
      assert g.chain[k := t'] == f.chain[k := t'];
    }
  }

  /** Bytes that the head block holds come from there, and nothing else moves. */
  lemma {:induction false} DrainHead(f: Fifo, n: nat)
    requires f.chain != [] && f.chain[0].rdi + n <= |f.chain[0].bytes|
    ensures var h := f.chain[0];
            TakeAll(f, n) == (f.(chain := f.chain[0 := Blk(h.rdi + n, h.bytes)]), h.bytes[h.rdi..h.rdi + n])
    decreases n
  {
    var h := f.chain[0];
    if n == 0 {
      assert f.chain[0 := h] == f.chain;
      assert h.bytes[h.rdi..h.rdi] == [];
    } else {
      var g := TakeByte(f).0;
      assert g.chain == f.chain[0 := Blk(h.rdi + 1, h.bytes)];
      DrainHead(g, n - 1);
      TakeAllStep(f, n);
      var h' := Blk(h.rdi + n, h.bytes);
      assert g.chain[0 := h'] == f.chain[0 := h'];
      assert [h.bytes[h.rdi]] + h.bytes[h.rdi + 1..h.rdi + n] == h.bytes[h.rdi..h.rdi + n];
    }
  }

  /** Any block-sized write, an empty write and a block-sized read lead into the pitfall. */
  lemma PitfallReachable(f: Fifo, s: seq<byte>)
    requires f.maxi > 0 && f.chain == [] && f.free >= 2 && |s| == f.maxi
    ensures Pitfall(Read(Write(Write(f, s).0, []).0, f.maxi).0)
  {
    var a := Grow(f);
    assert PutAll(f, s) == PutAll(a, s) by {
      assert PutByte(f, s[0]) == PutByte(a, s[0]);
    }
    FillTail(a, s);
    var b := Write(f, s).0;
    assert [] + s == s;
    assert b.chain == [Blk(0, s)];
    var c := Write(b, []).0;
    assert c.chain == [Blk(0, s), Blk(0, [])];
    DrainHead(c, f.maxi);
  }

  // -------- What is within reach of the readers --------

  lemma PutByteReach(f: Fifo, x: byte)
    requires Fit(f)
    ensures var (g, ok) := PutByte(f, x);
            && Reach(g.maxi, g.chain) == Reach(f.maxi, f.chain) + (if ok && Weak(f.maxi, f.chain) then [x] else [])
            && (Weak(f.maxi, f.chain) <==> Weak(g.maxi, g.chain))
  {
    var g := Prepare(f);
    PrepareFacts(f);
    if g != f {
      ReachGrow(f.maxi, f.chain);
      GrowStrength(f);
    }
    if !NeedsBlock(g) {
      ReachAppend(g.maxi, g.chain, x);
      AppendStrength(g, x);
    }
  }

  lemma AppendStrength(f: Fifo, x: byte)
    requires Fit(f) && f.chain != [] && !NeedsBlock(f)
    ensures Weak(f.maxi, Append(f.chain, x)) <==> Weak(f.maxi, f.chain)
  {
    var c, e := f.chain, Append(f.chain, x);
    assert forall i :: 0 <= i < |c| - 1 ==> e[i] == c[i];
  }

  /** What a bulk write accepts is within reach if and only if the layout is weakly sound. */
  lemma {:induction false} PutAllReach(f: Fifo, s: seq<byte>)
    requires Fit(f)
    ensures var (g, n) := PutAll(f, s);
            && Reach(g.maxi, g.chain) == Reach(f.maxi, f.chain) + (if Weak(f.maxi, f.chain) then s[..n] else [])
            && (Weak(f.maxi, f.chain) <==> Weak(g.maxi, g.chain))
    decreases |s|
  {
    hide Reach, Base, Weak, PutByte;
    if s != [] {
      PutByteFacts(f, s[0]);
      PutByteReach(f, s[0]);
      var (g, ok) := PutByte(f, s[0]);
      if ok {
        PutAllReach(g, s[1..]);
        PrefixStep(Reach(f.maxi, f.chain), s, PutAll(g, s[1..]).1);
      }
    }
  }

  lemma SettleReach(f: Fifo)
    requires Fit(f)
    ensures Reach(f.maxi, Settle(f).chain) == Reach(f.maxi, f.chain)
  {
  }

  lemma TakeByteReach(f: Fifo)
    requires Fit(f)
    ensures var (g, r) := TakeByte(f);
            && Reach(f.maxi, f.chain) == (if r.None? then [] else [r.value]) + Reach(g.maxi, g.chain)
            && (r.None? ==> Reach(g.maxi, g.chain) == [])
  {
    var g := Settle(f);
    SettleFacts(f);
    SettleReach(f);
    if g.chain != [] && !Drained(g.chain[0]) {
      ReachAdvance(g.maxi, g.chain);
    }
  }

  /** A bulk read delivers exactly the first `min(num, |reach|)` bytes within reach, on any layout. */
  lemma {:induction false} TakeAllReach(f: Fifo, n: nat)
    requires Fit(f)
    ensures var (g, s) := TakeAll(f, n);
            var r := Reach(f.maxi, f.chain);
            s == r[..Min(n, |r|)] && Reach(g.maxi, g.chain) == r[|s|..]
    decreases n
  {
    hide Reach, TakeByte, Base;
    if n > 0 {
      var (g, r) := TakeByte(f);
      TakeByteFacts(f);
      TakeByteReach(f);
      TakeAllStep(f, n);
      if r.Some? {
        TakeAllReach(g, n - 1);
        var t := Reach(g.maxi, g.chain);
        assert ([r.value] + t)[..Min(n, |t| + 1)] == [r.value] + t[..Min(n - 1, |t|)];
      }
    }
  }

  /** The end of the data is reported correctly for `n` bytes unless it is the end of the reach only. */
  lemma TakeAllExact(f: Fifo, n: nat)
    requires Fit(f)
    ensures var r, c := Reach(f.maxi, f.chain), Content(f.chain);
            && |TakeAll(f, n).1| == Min(n, |r|) && r <= c
            && (|TakeAll(f, n).1| == Min(n, |c|) <==> n <= |r| || Open(f.maxi, f.chain))
  {
    TakeAllReach(f, n);
    ReachOfContent(f.maxi, f.chain);
  }

  /** The head block is drained but stays, and hides the data behind it. */
  ghost predicate Stranded(f: Fifo) {
    && f.chain != [] && Drained(f.chain[0]) && |f.chain[0].bytes| < f.maxi
    && Content(f.chain[1..]) != []
  }

  /** A byte-wise reader that looks again finds no byte although there is one if and only if it is stranded. */
  lemma TakeByteExact(f: Fifo)
    requires Fit(f)
    ensures var r := TakeByte(f).1;
            && (r.None? <==> Reach(f.maxi, f.chain) == [])
            && (r.Some? ==> Content(f.chain) != [] && r.value == Content(f.chain)[0])
            && ((r.None? <==> Content(f.chain) == []) <==> !Stranded(Settle(f)))
  {
    TakeByteReach(f);
    TakeByteFacts(f);
    SettleFacts(f);
  }

  /** `rval` is -1 for no data, or else the byte that has left the front. */
  ghost predicate Consumed(before: seq<byte>, rval: int, after: seq<byte>) {
    if rval == -1 then before == [] && after == []
    else 0 <= rval < 256 && before == [rval as byte] + after
  }

  /** Unless it is in the pitfall, a byte-wise reader consumes correctly if and only if it is not stranded. */
  lemma ReadByteExact(f: Fifo)
    requires Fit(f) && !Pitfall(f)
    ensures var (g, r) := TakeByte(f);
            Consumed(Content(f.chain), AsInt(r), Content(g.chain)) <==> !Stranded(f)
  {
    TakeByteExact(f);
    TakeByteFacts(f);
    SettleFacts(f);
    assert Settle(f) != f ==> !Stranded(f) && !Stranded(Settle(f));
  }

  /** In the pitfall it never does: the byte it delivers has never been written. */
  lemma PitfallConsumes(f: Fifo, rval: int)
    requires Fit(f) && Pitfall(f) && rval != -1
    ensures !Consumed(Content(f.chain), rval, Content([Blk(1, [])] + f.chain[2..]))
  {
    var c := f.chain;
    assert c[1..][1..] == c[2..];
    assert Content(c) == Content(c[1..]) == Content(c[2..]);
    var d := [Blk(1, [])] + c[2..];
    assert d[0] == Blk(1, []) && d[1..] == c[2..];
  }

  /**
    A complete flush takes everything within reach, which is everything if and
    only if the chain is open; a weakly sound list keeps at most one block, drained but not full.
   */
  lemma FlushAll(f: Fifo)
    requires Fit(f)
    ensures var g := Flush(f, 0);
            && SameBlocks(f, g) && Content(f.chain) == Reach(f.maxi, f.chain) + Content(g.chain)
            && (Content(g.chain) == [] <==> Open(f.maxi, f.chain))
            && (g.chain != [] ==> Drained(g.chain[0]) && |g.chain[0].bytes| < f.maxi)
            && (Weak(f.maxi, f.chain) ==> |g.chain| <= 1)
  {
    hide Content, TakeAll, Weak, Reach, Open;
    var n := |Content(f.chain)| + 1;
    var (g, s) := TakeAll(f, n);
    TakeAllFacts(f, n);
    TakeAllReach(f, n);
    ReachOfContent(f.maxi, f.chain);
    LastTake(f, n);
    if g.chain != [] && Weak(f.maxi, f.chain) {
      DrainedMeansEmpty(g.maxi, g.chain);
    }
  }

  // -------- The layout that a transfer leaves behind --------

  /** What a bulk write makes of the chain, without regard to how it is done. */
  ghost predicate WriteLayout(f: Fifo, s: seq<byte>, g: Fifo, n: nat) {
    && SameBlocks(f, g) && n <= |s|
    && if s == [] then
         g.chain == f.chain + (if f.free > 0 && (f.chain == [] || |f.chain[|f.chain| - 1].bytes| == f.maxi)
                               then [Blk(0, [])] else [])
       else Extended(f.maxi, f.chain, s[..n], g.chain)
  }

  /**
    What reading `n` bytes makes of the chain if `s` are delivered. If the request
    is met, the block of the last byte is still the head, even if it is drained. If
    not, the reader has come to the end or to a drained block that is not full.
    A request for nothing only returns a head that is both drained and full.
   */
  ghost predicate ReadLayout(f: Fifo, n: nat, s: seq<byte>, g: Fifo) {
    && SameBlocks(f, g) && Shortened(f.maxi, f.chain, g.chain)
    && s + Content(g.chain) == Content(f.chain) && |s| <= n
    && if n == 0 then
         g.chain == if f.chain != [] && Drained(f.chain[0]) && |f.chain[0].bytes| == f.maxi
                    then f.chain[1..] else f.chain
       else if |s| == n then
         g.chain != [] && f.chain[|f.chain| - |g.chain|].rdi < g.chain[0].rdi
       else
         g.chain == [] || (Drained(g.chain[0]) && |g.chain[0].bytes| < f.maxi)
  }

  lemma {:induction false} PutAllExtends(f0: Fifo, s0: seq<byte>, f: Fifo, s: seq<byte>)
    requires Fit(f) && SameBlocks(f0, f) && Extended(f0.maxi, f0.chain, s0, f.chain)
    ensures var (g, n) := PutAll(f, s);
            SameBlocks(f0, g) && Extended(f0.maxi, f0.chain, s0 + s[..n], g.chain)
    decreases |s|
  {
    hide Content, Extended, Base, Room;
    if s == [] {
      assert s0 + s == s0;
    } else {
      var (g, ok) := PutByte(f, s[0]);
      PutByteFacts(f, s[0]);
      if ok {
        BaseOf(f);
        ExtendedStep(f.maxi, f0.chain, s0, f.chain, s[0]);
        TailBelow(f);
        PutAllExtends(f0, s0 + [s[0]], g, s[1..]);
        PrefixStep(s0, s, PutAll(g, s[1..]).1);
      } else {
        assert s0 + [] == s0;
      }
    }
  }

  lemma BaseOf(f: Fifo)
    requires Fit(f)
    ensures Base(f.maxi, f.chain) && f.maxi > 0
  {
  }

  lemma TailBelow(f: Fifo)
    requires Fit(f)
    ensures f.chain != [] ==> |f.chain[|f.chain| - 1].bytes| <= f.maxi
  {
  }

  lemma WriteLeaves(f: Fifo, s: seq<byte>)
    requires Fit(f)
    ensures WriteLayout(f, s, Write(f, s).0, Write(f, s).1)
  {
    if s == [] {
      assert f.chain + [] == f.chain;
    } else {
      ExtendedSelf(f.maxi, f.chain);
      PutAllExtends(f, [], f, s);
      assert [] + s[..PutAll(f, s).1] == s[..PutAll(f, s).1];
    }
  }

  /** The head is the block of the last byte, or nothing has been read yet. */
  ghost predicate Lingers(f0: Fifo, f: Fifo) {
    f.chain != [] && |f.chain| <= |f0.chain| && f0.chain[|f0.chain| - |f.chain|].rdi < f.chain[0].rdi
  }

  lemma TakeByteShortens(f0: Fifo, f: Fifo)
    requires Fit(f0) && Fit(f) && SameBlocks(f0, f) && Shortened(f0.maxi, f0.chain, f.chain)
    ensures var (g, r) := TakeByte(f);
            && SameBlocks(f0, g) && Shortened(f0.maxi, f0.chain, g.chain) && (r.Some? ==> Lingers(f0, g))
            && (r.None? ==> g.chain == [] || (Drained(g.chain[0]) && |g.chain[0].bytes| < f0.maxi))
  {
    var g := Settle(f);
    SettleFacts(f);
    if g != f {
      ShortenedDrop(f0.maxi, f0.chain, f.chain);
    }
    if g.chain != [] {
      ShortenedAdvance(f0.maxi, f0.chain, g.chain);
    }
  }

  lemma TakeNone(f: Fifo)
    ensures TakeAll(f, 0) == (f, [])
  {
  }

  lemma {:induction false} TakeAllShortens(f0: Fifo, f: Fifo, n: nat)
    requires Fit(f0) && Fit(f) && SameBlocks(f0, f) && Shortened(f0.maxi, f0.chain, f.chain)
    ensures var (g, s) := TakeAll(f, n);
            && SameBlocks(f0, g) && Shortened(f0.maxi, f0.chain, g.chain)
            && (|s| == n > 0 ==> Lingers(f0, g))
            && (|s| < n ==> g.chain == [] || (Drained(g.chain[0]) && |g.chain[0].bytes| < f0.maxi))
    decreases n
  {
    hide Shortened, TakeByte, TakeAll, SameBlocks, AsStrong, Lingers, Content, Fit, Drained;
    TakeNone(f);
    if n > 0 {
      var (g, r) := TakeByte(f);
      TakeByteShortens(f0, f);
      TakeByteFacts(f);
      TakeAllStep(f, n);
      if r.Some? {
        TakeAllShortens(f0, g, n - 1);
        TakeNone(g);
      }
    }
  }

  lemma WriteByteLeaves(f: Fifo, x: byte)
    requires Fit(f)
    ensures WriteLayout(f, [x], PutByte(f, x).0, if PutByte(f, x).1 then 1 else 0)
  {
    WriteLeaves(f, [x]);
    assert PutAll(f, [x]) == (PutByte(f, x).0, if PutByte(f, x).1 then 1 else 0);
  }

  /** Reading a byte is a bulk read of one byte. */
  lemma ReadByteLeaves(f: Fifo)
    requires Fit(f)
    ensures ReadLayout(f, 1, if TakeByte(f).1.None? then [] else [TakeByte(f).1.value], TakeByte(f).0)
  {
    ReadLeaves(f, 1);
    TakeAllStep(f, 1);
  }

  /** A flush of some bytes leaves what a read of them leaves; one of 0 bytes asks for more than there is. */
  lemma FlushLeaves(f: Fifo, n: nat)
    requires Fit(f)
    ensures n > 0 ==> Flush(f, n) == Read(f, n).0
    ensures var m := if n == 0 then |Content(f.chain)| + 1 else n;
            ReadLayout(f, m, TakeAll(f, m).1, Flush(f, n))
  {
    hide ReadLayout, TakeAll, Content;
    ReadLeaves(f, if n == 0 then |Content(f.chain)| + 1 else n);
  }

  lemma ReadLeaves(f: Fifo, n: nat)
    requires Fit(f)
    ensures ReadLayout(f, n, Read(f, n).1, Read(f, n).0)
  {
    ShortenedSelf(f.maxi, f.chain);
    ReadFacts(f, n);
    if n == 0 {
      SettleFacts(f);
      if Settle(f) != f {
        ShortenedDrop(f.maxi, f.chain, f.chain);
      }
    } else {
      TakeAllShortens(f, f, n);
    }
  }

  // -------- When a block may be appended by hand --------

  /**
    Bytes that go into a block appended by hand (`BufAlloc`) are within reach of
    the readers if and only if all blocks before it are full.
   */
  lemma AllocHidesData(f: Fifo, s: seq<byte>)
    requires Fit(f) && f.free > 0 && s != []
    ensures var (g, n) := PutAll(Grow(f), s);
            && n > 0 && Content(g.chain) == Content(f.chain) + s[..n]
            && (Reach(g.maxi, g.chain) == Reach(f.maxi, f.chain) + s[..n]
                <==> Weak(f.maxi, f.chain) && NeedsBlock(f))
  {
    hide Content, Base, Weak, PutAll;
    var g := Grow(f);
    GrowStrength(f);
    ReachGrow(f.maxi, f.chain);
    ContentGrow(f.chain);
    PutAllReach(g, s);
    PutAllFacts(g, s);
    NoRoom(g);
  }

  /** Two writes around a manual allocation, and one read, leave data out of reach. */
  lemma StrandedReachable(f: Fifo, x: byte, y: byte)
    requires f.maxi > 1 && f.chain == [] && f.free >= 2
    ensures var a := Grow(PutByte(f, x).0);
            var b := TakeByte(PutByte(a, y).0).0;
            Stranded(b) && Content(b.chain) == [y] && TakeByte(b) == (b, None)
  {
    var b0 := PutByte(f, x).0;
    assert [] + [x] == [x] && [] + [y] == [y];
    assert b0.chain == [Blk(0, [x])];
    assert Grow(b0).chain == [Blk(0, [x]), Blk(0, [])];
    var c := PutByte(Grow(b0), y).0;
    assert c.chain == [Blk(0, [x]), Blk(0, [y])];
    var b := TakeByte(c).0;
    assert b.chain == [Blk(1, [x]), Blk(0, [y])];
    assert b.chain[1..] == [Blk(0, [y])];
    ContentOne(Blk(0, [y]));
  }

  // -------- Round trip --------

  function Flatten(ws: seq<seq<byte>>): seq<byte> {
    if ws == [] then [] else ws[0] + Flatten(ws[1..])
  }

  function Sum(ns: seq<nat>): nat {
    if ns == [] then 0 else ns[0] + Sum(ns[1..])
  }

  function WriteChunks(f: Fifo, ws: seq<seq<byte>>): Fifo
    decreases |ws|
  {
    if ws == [] then f else WriteChunks(Write(f, ws[0]).0, ws[1..])
  }

  function ReadChunks(f: Fifo, ns: seq<nat>): (Fifo, seq<byte>)
    decreases |ns|
  {
    if ns == [] then (f, [])
    else
      var (g, s) := Read(f, ns[0]);
      var (h, t) := ReadChunks(g, ns[1..]);
      (h, s + t)
  }

  /** What a bulk write does, with or without anything to write. */
  lemma WriteFacts(f: Fifo, s: seq<byte>)
    requires Fit(f)
    ensures var (g, n) := Write(f, s);
            && Fit(g) && SameBlocks(f, g) && (Weak(f.maxi, f.chain) ==> Weak(g.maxi, g.chain))
            && (s != [] ==> AsStrong(f, g))
            && n == Min(|s|, Room(f))
            && Content(g.chain) == Content(f.chain) + s[..n]
            && Room(g) == Room(f) - n
  {
    hide Content, Room, Base, Weak, Strong, PutAll, Prepare;
    if s == [] {
      PrepareFacts(f);
    } else {
      PutAllFacts(f, s);
    }
  }

  /** What a bulk read does, with or without anything to read. */
  lemma ReadFacts(f: Fifo, n: nat)
    requires Fit(f)
    ensures var (g, s) := Read(f, n);
            var r, c := Reach(f.maxi, f.chain), Content(f.chain);
            && Fit(g) && SameBlocks(f, g) && AsStrong(f, g)
            && s + Content(g.chain) == c && |s| == Min(n, |r|)
            && (|s| == Min(n, |c|) <==> n <= |r| || Open(f.maxi, f.chain))
  {
    hide Content, Reach, Open, Base, Weak, Strong, TakeAll, Settle;
    if n == 0 {
      SettleFacts(f);
    } else {
      TakeAllFacts(f, n);
      TakeAllExact(f, n);
    }
  }

  lemma {:induction false} WriteChunksFacts(f: Fifo, ws: seq<seq<byte>>)
    requires Fit(f) && Weak(f.maxi, f.chain) && |Flatten(ws)| <= Room(f)
    ensures var g := WriteChunks(f, ws);
            Fit(g) && Weak(g.maxi, g.chain) && Content(g.chain) == Content(f.chain) + Flatten(ws)
    decreases |ws|
  {
    if ws != [] {
      hide Content, Room, Base, Weak, Strong, Write;
      var (g, n) := Write(f, ws[0]);
      WriteFacts(f, ws[0]);
      assert ws[0][..n] == ws[0];
      WriteChunksFacts(g, ws[1..]);
      ConcatAssociative(Content(f.chain), ws[0], Flatten(ws[1..]));
    }
  }

  lemma {:induction false} ReadChunksFacts(f: Fifo, ns: seq<nat>)
    requires Fit(f) && Weak(f.maxi, f.chain) && Sum(ns) <= |Content(f.chain)|
    ensures var (g, s) := ReadChunks(f, ns);
            s + Content(g.chain) == Content(f.chain) && |s| == Sum(ns)
    decreases |ns|
  {
    if ns != [] {
      WeakIsOpen(f.maxi, f.chain);
      ReadFacts(f, ns[0]);
      var (g, s) := Read(f, ns[0]);
      ReadChunksFacts(g, ns[1..]);
      var (h, t) := ReadChunks(g, ns[1..]);
      ConcatAssociative(s, t, Content(h.chain));
    }
  }

  /** What is written into an empty list in any pieces is read back, in any pieces. */
  lemma RoundTrip(f: Fifo, ws: seq<seq<byte>>, ns: seq<nat>)
    requires Fit(f) && Weak(f.maxi, f.chain) && Content(f.chain) == []
    requires |Flatten(ws)| <= Room(f) && Sum(ns) == |Flatten(ws)|
    ensures var (g, s) := ReadChunks(WriteChunks(f, ws), ns);
            s == Flatten(ws) && Content(g.chain) == []
  {
    WriteChunksFacts(f, ws);
    var g := WriteChunks(f, ws);
    assert Content(g.chain) == Flatten(ws);
    ReadChunksFacts(g, ns);
    WholeSplit(ReadChunks(g, ns).1, Content(ReadChunks(g, ns).0.chain), Flatten(ws));
  }
}
