/**
  Whole runs: any number of lists on one pool, any interleaving of operations
  on them. For each list the history of bytes accepted and the history of bytes
  delivered are recorded, and compared with what the list holds.
 */
module Runs {
  import opened Basics
  import opened Layout
  import opened FifoSpec
  import opened Placement
  import opened Transfer

  /** An operation on one list. */
  datatype Op =
    | WriteBytes(data: seq<byte>)
    | WriteByte(x: byte)
    | ReadBytes(num: nat)
    | ReadByte
    | FlushBytes(num: nat)
    | FlushByte
    | PeekByte
    | AllocBlock
    | FreeBlock
    | GetTail
    | Uninit

  /** What the caller is told: a number, the bytes in its buffer, or whether it was handed a block. */
  datatype Reply = Number(n: int) | Bytes(bytes: seq<byte>) | Handle(given: bool)

  /** The list afterwards, the bytes it has accepted, the bytes that have left it, and the reply. */
  datatype Outcome = Outcome(after: Fifo, accepted: seq<byte>, gone: seq<byte>, reply: Reply)

  function Taken(r: (Fifo, Option<byte>)): Outcome {
    Outcome(r.0, [], if r.1.None? then [] else [r.1.value], Number(AsInt(r.1)))
  }

  function Step(f: Fifo, op: Op): Outcome {
    match op
    case WriteBytes(s) => var (g, n) := Write(f, s); Outcome(g, if n <= |s| then s[..n] else s, [], Number(n))
    case WriteByte(x) =>
      var (g, ok) := PutByte(f, x);
      Outcome(g, if ok then [x] else [], [], Number(if ok then x as int else -1))
    case ReadBytes(n) => var (g, s) := Read(f, n); Outcome(g, [], s, Bytes(s))
    case ReadByte => Taken(TakeByte(f))
    case FlushBytes(n) =>
      var s := TakeAll(f, if n == 0 then |Content(f.chain)| + 1 else n).1;
      Outcome(Flush(f, n), [], s, Number(|s|))
    case FlushByte => Taken(TakeByte(f))
    case PeekByte => Outcome(Settle(f), [], [], Number(AsInt(TakeByte(f).1)))
    case AllocBlock => Outcome(if f.free > 0 then Grow(f) else f, [], [], Handle(f.free > 0))
    case FreeBlock =>
      if f.chain == [] then Outcome(f, [], [], Handle(false))
      else Outcome(Fifo(f.maxi, f.free + 1, f.chain[1..]), [], Pending(f.chain[0]), Handle(|f.chain| > 1))
    case GetTail => Outcome(Prepare(f), [], [], Handle(!NeedsBlock(Prepare(f))))
    case Uninit => Outcome(Fifo(f.maxi, f.free + |f.chain|, []), [], Content(f.chain), Number(0))
  }

  /** `op` may turn `f` into `g` and reply `reply`; only a byte-wise read in the pitfall is not a `Step`. */
  ghost predicate Effect(f: Fifo, op: Op, g: Fifo, reply: Reply) {
    if op.ReadByte? && Pitfall(f)
    then g == Settle(f).(chain := [Blk(1, [])] + f.chain[2..]) && reply.Number? && 0 <= reply.n < 256
    else g == Step(f, op).after && reply == Step(f, op).reply
  }

  /**
    What every operation does to a list and tells its caller, in terms of the
    bytes within reach, the room, and the blocks that come and go.
   */
  ghost predicate Means(f: Fifo, op: Op, g: Fifo, reply: Reply) {
    var r := Reach(f.maxi, f.chain);
    match op
    case WriteBytes(s) => reply == Number(Min(|s|, Room(f))) && WriteLayout(f, s, g, reply.n)
    case WriteByte(x) =>
      reply == Number(if Room(f) > 0 then x as int else -1) && WriteLayout(f, [x], g, if Room(f) > 0 then 1 else 0)
    case ReadBytes(n) => reply == Bytes(r[..Min(n, |r|)]) && ReadLayout(f, n, reply.bytes, g)
    case ReadByte => reply == Number(if r == [] then -1 else r[0] as int) && ReadLayout(f, 1, r[..Min(1, |r|)], g)
    case FlushBytes(n) =>
      && reply == Number(if n == 0 then |r| else Min(n, |r|))
      && ReadLayout(f, if n == 0 then |Content(f.chain)| + 1 else n, r[..reply.n], g)
    case FlushByte => reply == Number(if r == [] then -1 else r[0] as int) && ReadLayout(f, 1, r[..Min(1, |r|)], g)
    case PeekByte => reply == Number(if r == [] then -1 else r[0] as int) && ReadLayout(f, 0, [], g)
    case AllocBlock =>
      && reply == Handle(f.free > 0)
      && g == if f.free > 0 then Fifo(f.maxi, f.free - 1, f.chain + [Blk(0, [])]) else f
    case FreeBlock =>
      && reply == Handle(|f.chain| >= 2)
      && g == if f.chain == [] then f else Fifo(f.maxi, f.free + 1, f.chain[1..])
    case GetTail => reply == Handle(Room(f) > 0) && WriteLayout(f, [], g, 0)
    case Uninit => reply == Number(0) && g == Fifo(f.maxi, f.free + |f.chain|, [])
  }

  lemma WriteMeans(f: Fifo, op: Op)
    requires Fit(f) && (op.WriteBytes? || op.WriteByte? || op.GetTail?)
    ensures Means(f, op, Step(f, op).after, Step(f, op).reply)
  {
    hide Content, Base, Weak, Strong, PutByte, PutAll, Prepare, Room, Reach, WriteLayout;
    match op
    case WriteBytes(s) => WriteFacts(f, s); WriteLeaves(f, s);
    case WriteByte(x) => PutByteFacts(f, x); WriteByteLeaves(f, x);
    case GetTail => PrepareFacts(f); WriteLeaves(f, []);
  }

  lemma ReadMeans(f: Fifo, op: Op)
    requires Fit(f) && (op.ReadBytes? || op.FlushBytes? || op.PeekByte? || op.FlushByte? || op.ReadByte?)
    ensures Means(f, op, Step(f, op).after, Step(f, op).reply)
  {
    hide Content, Base, Weak, Strong, TakeAll, TakeByte, Reach, ReadLayout, Room;
    var r := Reach(f.maxi, f.chain);
    if op.ReadBytes? {
      ReadLeaves(f, op.num);
      TakeAllReach(f, op.num);
      assert r[..0] == [];
    } else if op.FlushBytes? {
      FlushLeaves(f, op.num);
      TakeAllReach(f, if op.num == 0 then |Content(f.chain)| + 1 else op.num);
      ReachOfContent(f.maxi, f.chain);
    } else if op.PeekByte? {
      ReadLeaves(f, 0);
      TakeByteReach(f);
    } else {
      ReadByteLeaves(f);
      TakeByteReach(f);
      assert r != [] ==> r[..1] == [r[0]];
    }
  }

  /** Outside the pitfall of the byte-wise read, the effect of an operation is what it means. */
  lemma EffectMeans(f: Fifo, op: Op, g: Fifo, reply: Reply)
    requires Effect(f, op, g, reply) && (Fit(f) || Blockwise(op)) && (op.ReadByte? ==> !Pitfall(f))
    ensures Means(f, op, g, reply)
  {
    if !Blockwise(op) {
      hide Means, Step, Pitfall;
      if op.WriteBytes? || op.WriteByte? || op.GetTail? {
        WriteMeans(f, op);
      } else {
        ReadMeans(f, op);
      }
    }
  }

  /** Operations on whole blocks do not care about the indices. */
  predicate Blockwise(op: Op) {
    op.AllocBlock? || op.FreeBlock? || op.Uninit?
  }

  /** Bytes leave at the front and join at the end, in order, and no block is lost. */
  ghost predicate IsFifo(f: Fifo, o: Outcome) {
    && SameBlocks(f, o.after) && Fit(o.after)
    && o.gone + Content(o.after.chain) == Content(f.chain) + o.accepted
  }

  // -------- The three grades of a run --------

  /** Which layout invariant a run keeps. */
  datatype Grade = BaseGrade | WeakGrade | StrongGrade

  ghost predicate Sound(grade: Grade, maxi: nat, c: Chain) {
    match grade
    case BaseGrade => Base(maxi, c)
    case WeakGrade => Weak(maxi, c)
    case StrongGrade => Strong(maxi, c)
  }

  /** An attempt to make the tail writable does not leave an empty block behind data in a `Strong` list. */
  predicate Preparable(grade: Grade, f: Fifo) {
    grade.StrongGrade? && NeedsBlock(f) && f.free > 0 ==> f.chain == []
  }

  /** The operations after which the invariant still holds. */
  predicate Legal(grade: Grade, f: Fifo, op: Op) {
    match op
    case ReadByte => !Pitfall(f)
    case WriteBytes(s) => s == [] ==> Preparable(grade, f)
    case GetTail => Preparable(grade, f)
    case AllocBlock =>
      f.free > 0 && !grade.BaseGrade? ==> if grade.WeakGrade? then NeedsBlock(f) else f.chain == []
    case _ => true
  }

  lemma SoundIsBase(grade: Grade, maxi: nat, c: Chain)
    requires Sound(grade, maxi, c)
    ensures Base(maxi, c)
  {
  }

  lemma AsStrongIsSound(grade: Grade, f: Fifo, g: Fifo)
    requires Sound(grade, f.maxi, f.chain) && AsStrong(f, g)
    ensures Sound(grade, g.maxi, g.chain)
  {
  }

  lemma EmptyEnds(s: seq<byte>)
    ensures s + [] == s == [] + s && s[..|s|] == s
  {
  }

  lemma WriteIsFifo(f: Fifo, op: Op)
    requires Fit(f) && (op.WriteBytes? || op.WriteByte? || op.GetTail?)
    ensures IsFifo(f, Step(f, op))
    ensures !op.GetTail? && op != WriteBytes([]) ==> AsStrong(f, Step(f, op).after)
  {
    hide Content, Base, Weak, Strong, PutByte, PutAll, Prepare, Room;
    EmptyEnds(Content(Step(f, op).after.chain));
    EmptyEnds(Content(f.chain));
    match op
    case WriteBytes(s) => WriteFacts(f, s);
    case WriteByte(x) => PutByteFacts(f, x);
    case GetTail => PrepareFacts(f);
  }

  lemma ReadIsFifo(f: Fifo, op: Op)
    requires Fit(f) && (op.ReadBytes? || op.FlushBytes? || op.PeekByte? || op.FlushByte? || op.ReadByte?)
    ensures IsFifo(f, Step(f, op)) && AsStrong(f, Step(f, op).after)
  {
    hide Content, Base, Weak, Strong, TakeAll, Settle, TakeByte;
    EmptyEnds(Content(f.chain));
    match op
    case ReadBytes(n) => ReadFacts(f, n);
    case FlushBytes(n) => TakeAllFacts(f, if n == 0 then |Content(f.chain)| + 1 else n);
    case PeekByte => SettleFacts(f);
    case _ => TakeByteFacts(f);
  }

  lemma BlockIsFifo(f: Fifo, op: Op)
    requires Fit(f) && Blockwise(op)
    ensures IsFifo(f, Step(f, op)) && (!op.AllocBlock? ==> AsStrong(f, Step(f, op).after))
  {
    EmptyEnds(Content(f.chain));
    if op.AllocBlock? && f.free > 0 {
      ContentGrow(f.chain);
      GrowStrength(f);
    } else if op.FreeBlock? && f.chain != [] {
      DropHeadStrength(f.maxi, f.chain);
    }
  }

  lemma DropHeadStrength(maxi: nat, c: Chain)
    requires Base(maxi, c) && c != []
    ensures Base(maxi, c[1..]) && (Weak(maxi, c) ==> Weak(maxi, c[1..])) && (Strong(maxi, c) ==> Strong(maxi, c[1..]))
  {
    var d := c[1..];
    assert forall i :: 0 <= i < |d| ==> d[i] == c[i + 1];
  }

  /** Every operation is a FIFO step on any layout, as long as it is a `Step`. */
  lemma StepIsFifo(f: Fifo, op: Op)
    requires Fit(f)
    ensures IsFifo(f, Step(f, op))
  {
    hide IsFifo, Step, Fit;
    if op.WriteBytes? || op.WriteByte? || op.GetTail? {
      WriteIsFifo(f, op);
    } else if Blockwise(op) {
      BlockIsFifo(f, op);
    } else {
      ReadIsFifo(f, op);
    }
  }

  lemma StepSound(grade: Grade, f: Fifo, op: Op)
    requires f.maxi > 0 && Sound(grade, f.maxi, f.chain)
    ensures Legal(grade, f, op) ==> Sound(grade, f.maxi, Step(f, op).after.chain)
    ensures !op.ReadByte? && Sound(grade, f.maxi, Step(f, op).after.chain) ==> Legal(grade, f, op)
  {
    hide Content, Base, Weak, Strong, Room, IsFifo, AsStrong, TakeAll, PutAll, Pitfall;
    SoundIsBase(grade, f.maxi, f.chain);
    StepMaxi(f, op);
    if f.free > 0 {
      GrowStrength(f);
    }
    if op.GetTail? || op == WriteBytes([]) {
      PrepareFacts(f);
      if Prepare(f) == f {
        SelfStrong(f);
      }
    } else if op.AllocBlock? {
    } else {
      if op.WriteBytes? || op.WriteByte? {
        WriteIsFifo(f, op);
      } else if Blockwise(op) {
        BlockIsFifo(f, op);
      } else {
        ReadIsFifo(f, op);
      }
      AsStrongIsSound(grade, f, Step(f, op).after);
    }
  }

  /** An operation keeps the invariant of a run if and only if it is legal. */
  lemma SoundIffLegal(grade: Grade, f: Fifo, op: Op, g: Fifo, reply: Reply)
    requires f.maxi > 0 && Sound(grade, f.maxi, f.chain) && Effect(f, op, g, reply)
    ensures Sound(grade, g.maxi, g.chain) <==> Legal(grade, f, op)
  {
    SoundIsBase(grade, f.maxi, f.chain);
    if op.ReadByte? && Pitfall(f) {
      assert g.chain[0] == Blk(1, []);
      assert !Base(g.maxi, g.chain);
    } else {
      hide Base, Weak, Strong, Step, Pitfall;
      StepSound(grade, f, op);
      StepMaxi(f, op);
    }
  }

  lemma SelfStrong(f: Fifo)
    ensures AsStrong(f, f)
  {
  }

  lemma StepMaxi(f: Fifo, op: Op)
    requires Fit(f)
    ensures Step(f, op).after.maxi == f.maxi
  {
    StepIsFifo(f, op);
  }

  /** What an operation does to the number of blocks does not depend on the layout if it is about whole blocks. */
  lemma EffectKeepsBlocks(f: Fifo, op: Op, g: Fifo, reply: Reply)
    requires Effect(f, op, g, reply) && (Fit(f) || Blockwise(op))
    ensures SameBlocks(f, g)
  {
    hide Base, Content, TakeAll, PutAll, TakeByte, PutByte;
    if op.ReadByte? && Pitfall(f) {
      SettleFacts(f);
    } else if !Blockwise(op) {
      StepIsFifo(f, op);
    }
  }

  /** The operations that may be called on any list of that grade. */
  predicate Always(grade: Grade, op: Op) {
    match op
    case ReadByte => grade.StrongGrade?
    case WriteBytes(s) => s == [] ==> !grade.StrongGrade?
    case GetTail => !grade.StrongGrade?
    case AllocBlock => grade.BaseGrade?
    case _ => true
  }

  lemma AlwaysLegal(grade: Grade, f: Fifo, op: Op)
    requires f.maxi > 0 && Sound(grade, f.maxi, f.chain) && Always(grade, op)
    ensures Legal(grade, f, op)
  {
    if op.ReadByte? {
      StrongHasNoPitfall(f);
    }
  }

  /** Each of the others is illegal on some list. */
  lemma AlwaysExact(grade: Grade, op: Op)
    ensures Always(grade, op) <==> forall f: Fifo :: f.maxi > 0 && Sound(grade, f.maxi, f.chain) ==> Legal(grade, f, op)
  {
    if Always(grade, op) {
      forall f: Fifo | f.maxi > 0 && Sound(grade, f.maxi, f.chain)
        ensures Legal(grade, f, op)
      {
        AlwaysLegal(grade, f, op);
      }
    } else if op.ReadByte? {
      assert !Legal(grade, Fifo(1, 0, [Blk(1, [0]), Blk(0, [])]), op);
    } else {
      assert !Legal(grade, Fifo(if op.AllocBlock? then 2 else 1, 1, [Blk(0, [0])]), op);
    }
  }

  // -------- Several lists on one pool --------

  /**
    `free` blocks in the pool, the value of each list, and for each list all
    bytes it has ever accepted (`ins`) and all that have ever left it (`outs`).
   */
  datatype Sys = Sys(maxi: nat, free: nat, chains: seq<Chain>, ins: seq<seq<byte>>, outs: seq<seq<byte>>)

  /** An operation on one list, or a move of at most `num` bytes from one list to another. */
  datatype Act = On(i: nat, op: Op) | Copy(dst: nat, src: nat, num: nat)

  function View(a: Sys, i: nat): Fifo
    requires i < |a.chains|
  {
    Fifo(a.maxi, a.free, a.chains[i])
  }

  ghost predicate WellFormed(a: Sys) {
    |a.chains| == |a.ins| == |a.outs| && a.maxi > 0
  }

  /** The whole state after the operation `op` on list `i`. */
  function AfterOn(a: Sys, i: nat, op: Op): Sys
    requires i < |a.chains| == |a.ins| == |a.outs|
  {
    var o := Step(View(a, i), op);
    Sys(a.maxi, o.after.free, a.chains[i := o.after.chain],
        a.ins[i := a.ins[i] + o.accepted], a.outs[i := a.outs[i] + o.gone])
  }

  ghost predicate NextOn(grade: Grade, a: Sys, i: nat, op: Op, reply: Reply, b: Sys) {
    && WellFormed(a) && i < |a.chains| && Legal(grade, View(a, i), op)
    && reply == Step(View(a, i), op).reply && b == AfterOn(a, i, op)
  }

  /** `b` follows from `a` by moving the first `n` bytes of list `s` to the end of list `d`. */
  ghost predicate Moved(a: Sys, d: nat, s: nat, n: nat, b: Sys)
    requires WellFormed(a) && d < |a.chains| && s < |a.chains| && d != s && |b.chains| == |a.chains|
  {
    && Carried(a.maxi, a.maxi, a.chains[d], a.chains[s], b.chains[d], b.chains[s], n)
    && (Strong(a.maxi, a.chains[d]) && Strong(a.maxi, a.chains[s]) ==> Strong(a.maxi, b.chains[d]))
    && b.free + |b.chains[d]| + |b.chains[s]| == a.free + |a.chains[d]| + |a.chains[s]|
    && n <= |Content(a.chains[s])|
    && b == Sys(a.maxi, b.free, a.chains[d := b.chains[d]][s := b.chains[s]],
                a.ins[d := a.ins[d] + Content(a.chains[s])[..n]],
                a.outs[s := a.outs[s] + Content(a.chains[s])[..n]])
  }

  ghost predicate NextCopy(a: Sys, d: nat, s: nat, num: nat, reply: Reply, b: Sys) {
    && WellFormed(a) && d < |a.chains| && s < |a.chains| && d != s && |b.chains| == |a.chains|
    && var n := CopyLength(View(a, d), a.maxi, a.chains[s], true, num);
       && reply == Number(n) && Moved(a, d, s, n, b)
       && CopyLayout(Origin(a.maxi, a.maxi, true, a.chains[d], a.chains[s], a.free), num, b.chains[d], b.chains[s], n)
       && (n == num || Reach(a.maxi, b.chains[s]) == [] || (FullTail(a.maxi, b.chains[d]) && b.free == 0))
  }

  ghost predicate Next(grade: Grade, a: Sys, act: Act, reply: Reply, b: Sys) {
    match act
    case On(i, op) => NextOn(grade, a, i, op, reply, b)
    case Copy(d, s, num) => NextCopy(a, d, s, num, reply, b)
  }

  /** Blocks in all lists. */
  function Blocks(cs: seq<Chain>): nat {
    if cs == [] then 0 else |cs[0]| + Blocks(cs[1..])
  }

  /** Each list is sound, and holds what it has accepted and not yet given away, in order. */
  ghost predicate InOrder(grade: Grade, a: Sys, i: nat)
    requires i < |a.chains| == |a.ins| == |a.outs|
  {
    Sound(grade, a.maxi, a.chains[i]) && a.ins[i] == a.outs[i] + Content(a.chains[i])
  }

  ghost predicate Inv(grade: Grade, capacity: nat, a: Sys) {
    && WellFormed(a)
    && (forall i :: 0 <= i < |a.chains| ==> InOrder(grade, a, i))
    && a.free + Blocks(a.chains) == capacity
  }

  ghost predicate Init(capacity: nat, a: Sys) {
    && WellFormed(a) && a.free == capacity
    && (forall i :: 0 <= i < |a.chains| ==> a.chains[i] == [] && a.ins[i] == [] && a.outs[i] == [])
  }

  lemma {:induction false} BlocksUpdate(cs: seq<Chain>, i: nat, c: Chain)
    requires i < |cs|
    ensures Blocks(cs[i := c]) == Blocks(cs) - |cs[i]| + |c|
    decreases |cs|
  {
    if i == 0 {
      assert cs[0 := c][1..] == cs[1..];
    } else {
      BlocksUpdate(cs[1..], i - 1, c);
      assert cs[i := c][1..] == cs[1..][i - 1 := c];
    }
  }

  lemma {:induction false} NoBlocks(cs: seq<Chain>)
    requires forall i :: 0 <= i < |cs| ==> cs[i] == []
    ensures Blocks(cs) == 0
    decreases |cs|
  {
    if cs != [] {
      NoBlocks(cs[1..]);
    }
  }

  lemma HistoryStep(ins: seq<byte>, outs: seq<byte>, c: seq<byte>, gone: seq<byte>, c': seq<byte>, accepted: seq<byte>)
    requires ins == outs + c && gone + c' == c + accepted
    ensures ins + accepted == (outs + gone) + c'
  {
    assert ins + accepted == outs + (c + accepted);
  }

  lemma NextOnKeeps(grade: Grade, capacity: nat, a: Sys, i: nat, op: Op, reply: Reply, b: Sys)
    requires Inv(grade, capacity, a) && NextOn(grade, a, i, op, reply, b)
    ensures Inv(grade, capacity, b)
  {
    hide Content, Sound, Step, Legal, SameBlocks, Base;
    assert InOrder(grade, a, i);
    var f := View(a, i);
    var o := Step(f, op);
    SoundIsBase(grade, f.maxi, f.chain);
    assert IsFifo(f, o) && |o.after.chain| + o.after.free == |f.chain| + f.free by {
      StepIsFifo(f, op);
      SameBlocksCount(f, o.after);
    }
    StepSound(grade, f, op);
    HistoryStep(a.ins[i], a.outs[i], Content(f.chain), o.gone, Content(o.after.chain), o.accepted);
    BlocksUpdate(a.chains, i, o.after.chain);
    forall j | 0 <= j < |b.chains|
      ensures InOrder(grade, b, j)
    {
      assert InOrder(grade, a, j);
    }
  }

  lemma SameBlocksCount(f: Fifo, g: Fifo)
    requires SameBlocks(f, g)
    ensures |g.chain| + g.free == |f.chain| + f.free
  {
  }

  lemma CopyKeepsHistory(m: nat, d0: Chain, s0: Chain, d: Chain, s: Chain, n: nat,
                         insD: seq<byte>, outsD: seq<byte>, insS: seq<byte>, outsS: seq<byte>)
    requires Carried(m, m, d0, s0, d, s, n)
    requires insD == outsD + Content(d0) && insS == outsS + Content(s0)
    ensures insD + Content(s0)[..n] == outsD + Content(d)
    ensures insS == (outsS + Content(s0)[..n]) + Content(s)
  {
    hide Content, Base, Weak, Strong, Reach, Used;
    var t := Content(s0);
    assert t == t[..n] + t[n..];
  }

  lemma CopySound(grade: Grade, m: nat, d0: Chain, s0: Chain, d: Chain, s: Chain, n: nat)
    requires Carried(m, m, d0, s0, d, s, n)
    requires Strong(m, d0) && Strong(m, s0) ==> Strong(m, d)
    requires Sound(grade, m, d0) && Sound(grade, m, s0)
    ensures Sound(grade, m, d) && Sound(grade, m, s)
  {
    hide Content, Base, Weak, Strong, Reach, Used;
  }

  lemma NextCopyKeeps(grade: Grade, capacity: nat, a: Sys, d: nat, s: nat, num: nat, reply: Reply, b: Sys)
    requires Inv(grade, capacity, a) && NextCopy(a, d, s, num, reply, b)
    ensures Inv(grade, capacity, b)
  {
    hide Content, Sound, Carried, Strong, CopyLength;
    var dc, sc := b.chains[d], b.chains[s];
    var n := CopyLength(View(a, d), a.maxi, a.chains[s], true, num);
    assert InOrder(grade, a, d) && InOrder(grade, a, s);
    CopyKeepsHistory(a.maxi, a.chains[d], a.chains[s], dc, sc, n, a.ins[d], a.outs[d], a.ins[s], a.outs[s]);
    CopySound(grade, a.maxi, a.chains[d], a.chains[s], dc, sc, n);
    BlocksUpdate(a.chains, d, dc);
    BlocksUpdate(a.chains[d := dc], s, sc);
    forall j | 0 <= j < |b.chains|
      ensures InOrder(grade, b, j)
    {
      assert InOrder(grade, a, j);
    }
  }

  /** A run: each state and each reply follow from the state before by the action in between. */
  ghost predicate Run(grade: Grade, states: seq<Sys>, acts: seq<Act>, replies: seq<Reply>) {
    && |states| == |acts| + 1 && |replies| == |acts|
    && forall k :: 0 <= k < |acts| ==> Next(grade, states[k], acts[k], replies[k], states[k + 1])
  }

  /**
    Safety of whole runs: from empty lists, after every step and for every list,
    the bytes accepted are the bytes that have left it followed by the content,
    and the blocks of the pool are in the pool or in exactly one list.
   */
  lemma {:induction false} RunIsSafe(grade: Grade, capacity: nat, states: seq<Sys>, acts: seq<Act>,
                                     replies: seq<Reply>, k: nat)
    requires Run(grade, states, acts, replies) && Init(capacity, states[0]) && k < |states|
    ensures Inv(grade, capacity, states[k])
    decreases k
  {
    hide Inv, Next, Init;
    if k == 0 {
      InitHolds(grade, capacity, states[0]);
    } else {
      RunIsSafe(grade, capacity, states, acts, replies, k - 1);
      assert Next(grade, states[k - 1], acts[k - 1], replies[k - 1], states[k - 1 + 1]);
      NextKeeps(grade, capacity, states[k - 1], acts[k - 1], replies[k - 1], states[k]);
    }
  }

  lemma InitHolds(grade: Grade, capacity: nat, a: Sys)
    requires Init(capacity, a)
    ensures Inv(grade, capacity, a)
  {
    NoBlocks(a.chains);
    forall i | 0 <= i < |a.chains|
      ensures InOrder(grade, a, i)
    {
      assert a.chains[i] == [];
    }
  }

  lemma NextKeeps(grade: Grade, capacity: nat, a: Sys, act: Act, reply: Reply, b: Sys)
    requires Inv(grade, capacity, a) && Next(grade, a, act, reply, b)
    ensures Inv(grade, capacity, b)
  {
    match act
    case On(i, op) => NextOnKeeps(grade, capacity, a, i, op, reply, b);
    case Copy(d, s, num) => NextCopyKeeps(grade, capacity, a, d, s, num, reply, b);
  }

  /** What an action means for the list that it is about, and that it leaves the others alone. */
  ghost predicate ActMeans(a: Sys, act: Act, reply: Reply, b: Sys) {
    && |b.chains| == |a.chains|
    && match act
       case On(i, op) =>
         && i < |a.chains| && Means(View(a, i), op, View(b, i), reply)
         && (forall j :: 0 <= j < |a.chains| && j != i ==> b.chains[j] == a.chains[j])
       case Copy(d, s, num) =>
         && d < |a.chains| && s < |a.chains| && d != s && reply.Number? && 0 <= reply.n <= num
         && CopyLayout(Origin(a.maxi, a.maxi, true, a.chains[d], a.chains[s], a.free),
                       num, b.chains[d], b.chains[s], reply.n)
         && (reply.n == num || Reach(a.maxi, b.chains[s]) == [] || (FullTail(a.maxi, b.chains[d]) && b.free == 0))
         && (forall j :: 0 <= j < |a.chains| && j != d && j != s ==> b.chains[j] == a.chains[j])
  }

  /** Every action of a run on sound lists does what it means. */
  lemma NextMeans(grade: Grade, capacity: nat, a: Sys, act: Act, reply: Reply, b: Sys)
    requires Inv(grade, capacity, a) && Next(grade, a, act, reply, b)
    ensures ActMeans(a, act, reply, b)
  {
    hide Content, Sound, Step, Means, Carried, CopyLayout, Reach, Pitfall, Base, Effect;
    match act
    case On(i, op) =>
      assert InOrder(grade, a, i);
      SoundIsBase(grade, a.maxi, a.chains[i]);
      StepMaxi(View(a, i), op);
      StepIsEffect(View(a, i), op);
      LegalRead(grade, View(a, i), op);
      EffectMeans(View(a, i), op, Step(View(a, i), op).after, reply);
    case Copy(d, s, num) =>
  }

  lemma StepIsEffect(f: Fifo, op: Op)
    ensures (op.ReadByte? && Pitfall(f)) || Effect(f, op, Step(f, op).after, Step(f, op).reply)
  {
  }

  lemma LegalRead(grade: Grade, f: Fifo, op: Op)
    requires Legal(grade, f, op)
    ensures op.ReadByte? ==> !Pitfall(f)
  {
  }

  /** So does every action of a run that starts with empty lists. */
  lemma RunMeans(grade: Grade, capacity: nat, states: seq<Sys>, acts: seq<Act>, replies: seq<Reply>, k: nat)
    requires Run(grade, states, acts, replies) && Init(capacity, states[0]) && k < |acts|
    ensures ActMeans(states[k], acts[k], replies[k], states[k + 1])
  {
    RunIsSafe(grade, capacity, states, acts, replies, k);
    NextMeans(grade, capacity, states[k], acts[k], replies[k], states[k + 1]);
  }

  // -------- Which sequences of actions make up a run --------

  /** The action is about lists that exist, and legal now. */
  ghost predicate Now(grade: Grade, a: Sys, act: Act) {
    match act
    case On(i, op) => i < |a.chains| && Legal(grade, View(a, i), op)
    case Copy(d, s, _) => d < |a.chains| && s < |a.chains| && d != s
  }

  /** Each action of the sequence is legal when its turn comes, whatever comes of those before it. */
  ghost predicate Allowed(grade: Grade, a: Sys, acts: seq<Act>)
    decreases |acts|
  {
    acts == [] ||
    (&& Now(grade, a, acts[0])
     && forall reply, b :: Next(grade, a, acts[0], reply, b) ==> Allowed(grade, b, acts[1..]))
  }

  /** The action is about one of `n` lists, and may be taken on any lists of that grade. */
  predicate Possible(grade: Grade, act: Act, n: nat) {
    match act
    case On(i, op) => i < n && Always(grade, op)
    case Copy(d, s, _) => d < n && s < n && d != s
  }

  lemma PossibleNow(grade: Grade, capacity: nat, a: Sys, act: Act)
    requires Inv(grade, capacity, a) && Possible(grade, act, |a.chains|)
    ensures Now(grade, a, act)
  {
    hide Sound, Legal, Always;
    if act.On? {
      assert InOrder(grade, a, act.i);
      AlwaysLegal(grade, View(a, act.i), act.op);
    }
  }

  lemma NextSize(grade: Grade, a: Sys, act: Act, reply: Reply, b: Sys)
    requires Next(grade, a, act, reply, b)
    ensures |b.chains| == |a.chains|
  {
    hide Step, Legal, Moved, CopyLength;
  }

  /** Actions that are legal on any lists of the grade are in particular legal in sequence. */
  lemma {:induction false} PossibleIsAllowed(grade: Grade, capacity: nat, a: Sys, acts: seq<Act>)
    requires Inv(grade, capacity, a) && forall k :: 0 <= k < |acts| ==> Possible(grade, acts[k], |a.chains|)
    ensures Allowed(grade, a, acts)
    decreases |acts|
  {
    hide Inv, Next, Now, Possible;
    if acts != [] {
      PossibleNow(grade, capacity, a, acts[0]);
      forall reply, b | Next(grade, a, acts[0], reply, b)
        ensures Allowed(grade, b, acts[1..])
      {
        NextKeeps(grade, capacity, a, acts[0], reply, b);
        NextSize(grade, a, acts[0], reply, b);
        PossibleIsAllowed(grade, capacity, b, acts[1..]);
      }
    }
  }

  lemma AllowedNow(grade: Grade, a: Sys, acts: seq<Act>, n: nat)
    requires n < |acts| && Allowed(grade, a, acts[n..])
    ensures Now(grade, a, acts[n])
  {
    assert acts[n..][0] == acts[n];
  }

  lemma AllowedThen(grade: Grade, a: Sys, acts: seq<Act>, n: nat, reply: Reply, b: Sys)
    requires n < |acts| && Allowed(grade, a, acts[n..]) && Next(grade, a, acts[n], reply, b)
    ensures Allowed(grade, b, acts[n + 1..])
  {
    hide Next;
    assert acts[n..][0] == acts[n] && acts[n..][1..] == acts[n + 1..];
  }

  /** `n` empty lists on a pool of `capacity` blocks with `maxi` data bytes each. */
  function Fresh(maxi: nat, capacity: nat, n: nat): Sys {
    Sys(maxi, capacity, seq(n, _ => []), seq(n, _ => []), seq(n, _ => []))
  }

  /** A sequence that no grade admits on all lists, but every grade on a fresh one. */
  lemma MixedAllowed(grade: Grade, maxi: nat, capacity: nat, n: nat, i: nat)
    requires maxi > 0 && i < n
    ensures Allowed(grade, Fresh(maxi, capacity, n), [On(i, GetTail), On(i, ReadByte)])
    ensures !(Always(grade, GetTail) && Always(grade, ReadByte))
  {
    var a := Fresh(maxi, capacity, n);
    var acts := [On(i, GetTail), On(i, ReadByte)];
    assert acts[1..] == [On(i, ReadByte)] && acts[1..][1..] == [];
    forall reply, b | Next(grade, a, acts[0], reply, b)
      ensures Allowed(grade, b, acts[1..])
    {
      assert b.chains[i] == [] || b.chains[i] == [Blk(0, [])];
    }
  }

  // -------- What the users of a list can see --------

  /** The bytes that a call on list `i` has written, according to its reply. */
  function Wrote(i: nat, act: Act, reply: Reply): seq<byte> {
    if act.On? && act.i == i && reply.Number? then
      match act.op
      case WriteBytes(s) => if 0 <= reply.n <= |s| then s[..reply.n] else []
      case WriteByte(x) => if reply.n != -1 then [x] else []
      case _ => []
    else []
  }

  /** The bytes that a call on list `i` has handed to its caller. */
  function Got(i: nat, act: Act, reply: Reply): seq<byte> {
    if act.On? && act.i == i then
      match act.op
      case ReadBytes(_) => if reply.Bytes? then reply.bytes else []
      case ReadByte => if reply.Number? && 0 <= reply.n < 256 then [reply.n as byte] else []
      case FlushByte => if reply.Number? && 0 <= reply.n < 256 then [reply.n as byte] else []
      case _ => []
    else []
  }

  function AllWrote(i: nat, acts: seq<Act>, replies: seq<Reply>): seq<byte>
    requires |acts| == |replies|
    decreases |acts|
  {
    if acts == [] then []
    else AllWrote(i, acts[..|acts| - 1], replies[..|acts| - 1]) + Wrote(i, acts[|acts| - 1], replies[|acts| - 1])
  }

  function AllGot(i: nat, acts: seq<Act>, replies: seq<Reply>): seq<byte>
    requires |acts| == |replies|
    decreases |acts|
  {
    if acts == [] then []
    else AllGot(i, acts[..|acts| - 1], replies[..|acts| - 1]) + Got(i, acts[|acts| - 1], replies[|acts| - 1])
  }

  /** The call does not take bytes out of list `i`, or put bytes in, without showing them to the caller. */
  predicate Visible(i: nat, act: Act) {
    match act
    case Copy(d, s, _) => d != i && s != i
    case On(j, op) => j == i ==> !op.FlushBytes? && !op.FreeBlock? && !op.Uninit?
  }

  ghost predicate AllVisible(i: nat, acts: seq<Act>) {
    forall j :: 0 <= j < |acts| ==> Visible(i, acts[j])
  }

  lemma VisibleStep(grade: Grade, a: Sys, act: Act, reply: Reply, b: Sys, i: nat)
    requires Next(grade, a, act, reply, b) && i < |a.chains| && Visible(i, act)
    ensures |b.chains| == |a.chains| == |a.ins| == |b.ins| == |a.outs| == |b.outs|
    ensures b.ins[i] == a.ins[i] + Wrote(i, act, reply) && b.outs[i] == a.outs[i] + Got(i, act, reply)
  {
    hide Content, Legal, TakeAll, PutAll, TakeByte, PutByte, Settle, Prepare, Carried, CopyLength;
    EmptyEnds(a.ins[i]);
    EmptyEnds(a.outs[i]);
  }

  lemma {:induction false} HistoryIsVisible(grade: Grade, states: seq<Sys>, acts: seq<Act>,
                                            replies: seq<Reply>, i: nat, k: nat)
    requires Run(grade, states, acts, replies) && i < |states[0].chains| && k <= |acts|
    requires WellFormed(states[0]) && states[0].ins[i] == [] && states[0].outs[i] == []
    requires AllVisible(i, acts)
    ensures |states[k].chains| == |states[0].chains| == |states[k].ins| == |states[k].outs|
    ensures states[k].ins[i] == AllWrote(i, acts[..k], replies[..k])
    ensures states[k].outs[i] == AllGot(i, acts[..k], replies[..k])
    decreases k
  {
    if k == 0 {
      assert acts[..0] == [] && replies[..0] == [];
    } else {
      hide Next, Wrote, Got, AllWrote, AllGot, AllVisible, Run;
      RunAt(grade, states, acts, replies, k - 1);
      VisibleAt(i, acts, k - 1);
      AllStep(i, acts, replies, k);
      HistoryIsVisible(grade, states, acts, replies, i, k - 1);
      VisibleStep(grade, states[k - 1], acts[k - 1], replies[k - 1], states[k], i);
    }
  }

  lemma RunAt(grade: Grade, states: seq<Sys>, acts: seq<Act>, replies: seq<Reply>, k: nat)
    requires Run(grade, states, acts, replies) && k < |acts|
    ensures |states| == |acts| + 1 && |replies| == |acts|
    ensures Next(grade, states[k], acts[k], replies[k], states[k + 1])
  {
  }

  lemma VisibleAt(i: nat, acts: seq<Act>, k: nat)
    requires AllVisible(i, acts) && k < |acts|
    ensures Visible(i, acts[k])
  {
  }

  lemma AllStep(i: nat, acts: seq<Act>, replies: seq<Reply>, k: nat)
    requires 0 < k <= |acts| == |replies|
    ensures AllWrote(i, acts[..k], replies[..k])
            == AllWrote(i, acts[..k - 1], replies[..k - 1]) + Wrote(i, acts[k - 1], replies[k - 1])
    ensures AllGot(i, acts[..k], replies[..k])
            == AllGot(i, acts[..k - 1], replies[..k - 1]) + Got(i, acts[k - 1], replies[k - 1])
  {
    hide Wrote, Got;
    assert acts[..k][..k - 1] == acts[..k - 1] && replies[..k][..k - 1] == replies[..k - 1];
  }

  /**
    What the users of a list see: whatever happens on the other lists, the bytes
    they were told have been written are those they have been handed, in order,
    followed by the content.
   */
  lemma UsersSeeFifo(grade: Grade, capacity: nat, states: seq<Sys>, acts: seq<Act>, replies: seq<Reply>, i: nat)
    requires Run(grade, states, acts, replies) && Init(capacity, states[0]) && i < |states[0].chains|
    requires AllVisible(i, acts)
    ensures |states[|acts|].chains| == |states[0].chains|
    ensures AllWrote(i, acts, replies) == AllGot(i, acts, replies) + Content(states[|acts|].chains[i])
  {
    hide Next, Content;
    RunIsSafe(grade, capacity, states, acts, replies, |acts|);
    HistoryIsVisible(grade, states, acts, replies, i, |acts|);
    assert acts[..|acts|] == acts && replies[..|acts|] == replies;
    assert InOrder(grade, states[|acts|], i);
  }
}
