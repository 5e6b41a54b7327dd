/**
  The buffer list itself: a chain of pool blocks in a linked list. Every
  operation is proved against the specification of `FifoSpec` and `Search`,
  and keeps the set of blocks it owns together with the free ones in the pool.
 */
module BufLists {
  import opened Basics
  import opened Layout
  import opened FifoSpec
  import opened LinkList
  import opened MemoryPool
  import opened Search

  ghost function Datas(s: set<Link>): set<array<byte>> {
    set b | b in s :: b.data
  }

  /** The block `b` in memory has the value `v`. */
  ghost predicate Shows(b: Link, v: Blk)
    reads b, b.data
  {
    && v.rdi == b.rdi && |v.bytes| == b.wri <= b.data.Length
    && (forall j :: 0 <= j < b.wri ==> v.bytes[j] == b.data[j])
  }

  /** The buffer `b` after the bytes `s` have been stored at the front of `b0`. */
  ghost predicate Filled(b0: seq<byte>, b: seq<byte>, s: seq<byte>) {
    |s| <= |b0| && b == s + b0[|s|..]
  }

  lemma FilledStart(b: seq<byte>)
    ensures Filled(b, b, [])
  {
  }

  lemma FilledFront(b0: seq<byte>, b: seq<byte>, s: seq<byte>)
    requires Filled(b0, b, s)
    ensures |s| <= |b| && b[..|s|] == s
  {
  }

  /** The list, its links and its pool, if there is a list. */
  ghost function Given(p: BufList?): set<BufList> {
    if p == null then {} else {p}
  }

  ghost function ListOf(p: BufList?): set<List> {
    if p == null then {} else {p.list}
  }

  ghost function PoolOf(p: BufList?): set<Pool>
    reads Given(p)
  {
    if p == null then {} else {p.pool}
  }

  class BufList {
    var pool: Pool
    const list: List
    /** The value of the list. */
    ghost var chain: Chain

    /** The blocks in memory are those of the value. */
    ghost predicate Valid()
      reads this, list, list.nodes, Datas(list.Members())
    {
      && list.Valid()
      && |chain| == |list.nodes|
      && (forall i :: 0 <= i < |chain| ==> Shows(list.nodes[i], chain[i]))
    }

    /** Moreover, they have been handed out by the pool. */
    ghost predicate Ready()
      reads this, pool, list, list.nodes, Datas(list.Members())
    {
      && Valid()
      && pool.Valid() && pool.blockSize <= 0xFFFF
      && (forall i :: 0 <= i < |list.nodes| ==> list.nodes[i] in pool.arena && list.nodes[i] !in pool.free)
    }

    /** Everything the list can touch lies in `region`: its own blocks and the free ones. */
    ghost predicate Within(region: set<Link>)
      reads this, list, pool
    {
      pool.free <= region && forall i :: 0 <= i < |list.nodes| ==> list.nodes[i] in region
    }

    ghost function State(): Fifo
      reads this, pool
    {
      Fifo(Size(), |pool.free|, chain)
    }

    /** The memory of a list structure, not yet initialised. */
    constructor (pool: Pool)
      ensures this.pool == pool && chain == [] && fresh(list) && Valid()
    {
      this.pool := pool;
      list := new List();
      chain := [];
    }

    // -------- Elementary steps --------

    /** Chain an empty block at the tail. */
    method Attach(cb: Link)
      requires Valid() && cb !in list.nodes
      modifies this`chain, list, Only(list.tail)`next, cb`next, cb`prev, cb`wri, cb`rdi
      ensures Valid()
      ensures list.nodes == old(list.nodes) + [cb] && chain == old(chain) + [Blk(0, [])]
    {
      list.Put(cb);
      cb.wri := 0;
      cb.rdi := 0;
      chain := chain + [Blk(0, [])];
    }

    /** Unchain the head block, if there is one. */
    method Detach() returns (cb: Link?)
      requires Valid()
      modifies this`chain, list, Only(list.Second())`prev
      ensures Valid()
      ensures old(chain) == [] ==> cb == null && chain == [] && list.nodes == []
      ensures old(chain) != [] ==>
                cb == old(list.nodes)[0] && list.nodes == old(list.nodes)[1..] && chain == old(chain)[1..]
    {
      cb := list.Get();
      if cb != null {
        chain := chain[1..];
      }
    }

    /** Allocate a block and put it at the tail. */
    method Alloc() returns (cb: Link?)
      requires Ready()
      modifies this`chain, list, pool`free, Only(list.tail)`next, pool.free
      ensures Ready()
      ensures cb == null <==> old(pool.free) == {}
      ensures cb == null ==> chain == old(chain) && list.nodes == old(list.nodes) && pool.free == {}
      ensures cb != null ==>
                && cb in old(pool.free) && pool.free == old(pool.free) - {cb}
                && list.nodes == old(list.nodes) + [cb] && chain == old(chain) + [Blk(0, [])]
    {
      cb := pool.Alloc();
      if cb != null {
        Attach(cb);
      }
    }

    /** Take the head block out, return it to the pool, and yield the new head. */
    method Free() returns (cb: Link?)
      requires Ready()
      modifies this`chain, list, pool`free, Only(list.Second())`prev
      ensures Ready()
      ensures old(chain) == [] ==> chain == [] && list.nodes == [] && pool.free == old(pool.free)
      ensures old(chain) != [] ==>
                && chain == old(chain)[1..] && list.nodes == old(list.nodes)[1..]
                && old(list.nodes)[0] !in old(pool.free)
                && pool.free == old(pool.free) + {old(list.nodes)[0]}
      ensures cb == if list.nodes == [] then null else list.nodes[0]
    {
      cb := Detach();
      var ok := pool.Free(cb);
      if ok {
        cb := list.PeekHead();
      }
    }

    /** Data bytes per block. */
    function Size(): nat
      reads this
    {
      DataSize(pool.blockSize)
    }

    /** Store a byte behind the last one of the tail block. */
    method Store(cb: Link, x: byte)
      requires Ready() && chain != [] && cb == list.nodes[|chain| - 1]
      requires |chain[|chain| - 1].bytes| < Size()
      modifies this`chain, cb`wri, cb.data
      ensures Ready()
      ensures chain == Append(old(chain), x)
      ensures cb.wri == old(cb.wri) + 1
    {
      assert pool.Fits(cb);
      forall i | 0 <= i < |chain| - 1
        ensures list.nodes[i].data != cb.data
      {
        assert pool.Fits(list.nodes[i]);
      }
      cb.data[cb.wri] := x;
      cb.wri := cb.wri + 1;
      chain := Append(chain, x);
    }

    /** Fetch the byte at the read index of the head block, written or not. */
    method Fetch(cb: Link) returns (x: byte)
      requires Ready() && chain != [] && cb == list.nodes[0]
      requires chain[0].rdi < Size()
      modifies this`chain, cb`rdi
      ensures Ready()
      ensures chain == Advance(old(chain))
      ensures old(cb.rdi) < cb.data.Length && x == old(cb.data[cb.rdi])
      ensures old(chain)[0].rdi < |old(chain)[0].bytes| ==> x == old(chain)[0].bytes[old(chain)[0].rdi]
      ensures cb.rdi == old(cb.rdi) + 1
    {
      assert pool.Fits(cb);
      x := cb.data[cb.rdi];
      cb.rdi := cb.rdi + 1;
      chain := Advance(chain);
    }

    /** Consume a byte of the head block unseen. */
    method Skip(cb: Link)
      requires Ready() && chain != [] && cb == list.nodes[0]
      modifies this`chain, cb`rdi
      ensures Ready()
      ensures chain == Advance(old(chain))
    {
      cb.rdi := cb.rdi + 1;
      chain := Advance(chain);
    }

    /** The block to write to next: the tail `cb`, or a new one if there is none or it is full. */
    method NextTail(cb: Link?, ghost region: set<Link>) returns (nb: Link?)
      requires Ready() && Within(region) && Base(Size(), chain) && cb == list.tail
      modifies this`chain, list, pool`free, region
      ensures Ready() && Within(region) && Base(Size(), chain)
      ensures State() == Prepare(old(State()))
      ensures nb == if NeedsBlock(State()) then null else list.tail
    {
      nb := cb;
      if nb == null || nb.wri == Size() {
        nb := Alloc();
      }
    }

    // -------- Writing --------

    method BufWriteByte(data: byte, ghost region: set<Link>) returns (rval: int)
      requires Ready() && Within(region) && Base(Size(), chain)
      modifies this`chain, list, pool`free, region, Datas(region)
      ensures Ready() && Within(region)
      ensures (State(), rval != -1) == PutByte(old(State()), data)
      ensures rval == if old(Room(State())) > 0 then data as int else -1
      ensures Content(chain) == old(Content(chain)) + if rval != -1 then [data] else []
      ensures WriteLayout(old(State()), [data], State(), if rval != -1 then 1 else 0)
    {
      hide Content, Room, Weak, Strong, WriteLayout, Shows, List.Valid;
      PutByteFacts(State(), data);
      WriteByteLeaves(State(), data);
      var cb := NextTail(list.PeekTail(), region);
      EndsAre();
      if cb != null {
        Store(cb, data);
        rval := data as int;
      } else {
        rval := -1;
      }
    }

    /** Fill the tail block until it is full or the data runs out. */
    method FillBlock(cb: Link, buf: seq<byte>, n0: nat, ghost f0: Fifo, ghost region: set<Link>) returns (n: nat)
      requires Ready() && Within(region) && Putting(f0, buf, State(), n0)
      requires Fit(State()) && cb == list.tail && !NeedsBlock(State()) && n0 < |buf|
      modifies this`chain, cb`wri, cb.data
      ensures Ready() && Within(region) && Fit(State()) && Putting(f0, buf, State(), n) && n0 < n <= |buf|
    {
      hide Putting;
      n := n0;
      while n < |buf|
        invariant Ready() && Within(region) && Putting(f0, buf, State(), n)
        invariant n0 <= n <= |buf| && cb == list.tail && Fit(State()) && !NeedsBlock(State())
      {
        PuttingStep(f0, buf, State(), n);
        Store(cb, buf[n]);
        n := n + 1;
        if cb.wri == Size() {
          break;
        }
      }
    }

    /** `buf` holds the `num` bytes to write; the result says how many were accepted. */
    method BufWrite(buf: seq<byte>, ghost region: set<Link>) returns (n: nat)
      requires Ready() && Within(region) && Base(Size(), chain)
      modifies this`chain, list, pool`free, region, Datas(region)
      ensures Ready() && Within(region)
      ensures (State(), n) == Write(old(State()), buf)
      ensures n == Min(|buf|, old(Room(State())))
      ensures Content(chain) == old(Content(chain)) + buf[..n]
      ensures WriteLayout(old(State()), buf, State(), n)
    {
      hide WriteLayout, Writing, Putting, Content, Room, Weak, Strong, Base, Write, Prepare;
      WriteFacts(State(), buf);
      WriteLeaves(State(), buf);
      n := 0;
      var cb := list.PeekTail();
      ghost var f0 := State();
      WritingStart(f0, buf);
      while true
        invariant Ready() && Within(region) && Base(Size(), chain) && Writing(f0, buf, State(), n)
        invariant cb == list.tail && (buf == [] || n < |buf|)
        decreases |buf| - n
      {
        WritingPrepare(f0, buf, State(), n);
        cb := NextTail(cb, region);
        if cb == null {
          break;
        }
        if n < |buf| {
          WritingIsPutting(f0, buf, State(), n);
          n := FillBlock(cb, buf, n, f0, region);
          WritingIsPutting(f0, buf, State(), n);
          if n == |buf| {
            WritingEnd(f0, buf, State());
          }
        }
        if n == |buf| {
          break;
        }
      }
    }

    // -------- Reading --------

    /** The place to read from next: the head block, or none when there is nothing left. */
    ghost predicate Cursor(cb: Link?)
      reads this, list
    {
      if cb != null then cb == list.head
      else chain == [] || (Drained(chain[0]) && |chain[0].bytes| < Size())
    }

    /** What the pointers to both ends say about the chain. */
    lemma EndsAre()
      requires Ready() && Base(Size(), chain)
      ensures Size() > 0 && (list.head == null <==> chain == []) && (list.tail == null <==> chain == [])
      ensures chain != [] ==>
                && |list.nodes| == |chain| && list.head == list.nodes[0] && list.tail == list.nodes[|chain| - 1]
                && list.head.rdi == chain[0].rdi && list.head.wri == |chain[0].bytes|
                && list.tail.wri == |chain[|chain| - 1].bytes| && chain[0].rdi <= |chain[0].bytes|
    {
    }

    /** Past the end of the head block `cb`: the next one if the head was full, none otherwise. */
    method Reload(cb: Link, ghost region: set<Link>) returns (nb: Link?)
      requires Ready() && Within(region) && Base(Size(), chain) && cb == list.head && Drained(chain[0])
      modifies this`chain, list, pool`free, region
      ensures Ready() && Within(region)
      ensures State() == Settle(old(State()))
      ensures Cursor(nb) && |chain| <= |old(chain)| && (nb == null || |chain| < |old(chain)|)
      ensures nb != null <==> |old(chain)[0].bytes| == Size() && chain != []
      ensures |old(chain)[0].bytes| == Size() ==> list.nodes == old(list.nodes)[1..]
    {
      if cb.wri == Size() {
        nb := Free();
      } else {
        nb := null;
      }
    }

    /** The block to read from next; it may turn out to have no data only in the pitfall. */
    method NextHead(cb: Link?, ghost region: set<Link>) returns (nb: Link?)
      requires Ready() && Within(region) && Base(Size(), chain) && cb == list.head
      modifies this`chain, list, pool`free, region
      ensures Ready() && Within(region) && Base(Size(), chain)
      ensures State() == Settle(old(State()))
      ensures Cursor(nb)
      ensures nb != null && Drained(chain[0]) <==> Pitfall(old(State()))
      ensures Pitfall(old(State())) ==> list.nodes == old(list.nodes)[1..]
    {
      nb := cb;
      if nb != null && nb.rdi == nb.wri {
        SettleDrained(State());
        nb := Reload(nb, region);
      }
    }

    /**
      Without a check behind the returned block, this reads whatever the next one
      holds. It consumes the oldest byte, or reports that there is none, if and
      only if the list is neither in the pitfall nor stranded.
     */
    method BufReadByte(ghost region: set<Link>) returns (rval: int)
      requires Ready() && Within(region) && Base(Size(), chain)
      modifies this`chain, list, pool`free, region
      ensures Ready() && Within(region)
      ensures !Pitfall(old(State())) ==>
                (State(), rval) == (TakeByte(old(State())).0, AsInt(TakeByte(old(State())).1))
      ensures Pitfall(old(State())) ==>
                && |old(list.nodes)| >= 2 && old(list.nodes)[1].data.Length > 0
                && rval == old(list.nodes[1].data[0]) as int
                && State() == Settle(old(State())).(chain := [Blk(1, [])] + old(chain)[2..])
      ensures !Pitfall(old(State())) ==>
                -1 <= rval < 256 && ReadLayout(old(State()), 1, OfInt(rval), State())
      ensures Consumed(old(Content(chain)), rval, Content(chain))
              <==> !Pitfall(old(State())) && !Stranded(old(State()))
    {
      hide Content, Stranded, Consumed, TakeByte, Settle, ReadLayout;
      ghost var f, nodes := State(), list.nodes;
      if Pitfall(f) {
        PitfallStep(f);
      } else {
        TakeByteIs(f);
        ReadByteExact(f);
        ReadByteLeaves(f);
        OfIntOf(TakeByte(f).1);
      }
      var cb := NextHead(list.PeekHead(), region);
      if cb != null {
        var x := Fetch(cb);
        rval := x as int;
      } else {
        rval := -1;
      }
      if Pitfall(f) {
        PitfallConsumes(f, rval);
      }
    }

    method BufFlushByte(ghost region: set<Link>) returns (rval: int)
      requires Ready() && Within(region) && Base(Size(), chain)
      modifies this`chain, list, pool`free, region
      ensures Ready() && Within(region)
      ensures (State(), rval) == (TakeByte(old(State())).0, AsInt(TakeByte(old(State())).1))
      ensures if rval == -1 then Content(chain) == old(Content(chain))
              else && old(Content(chain)) != [] && rval == old(Content(chain))[0] as int
                   && Content(chain) == old(Content(chain))[1..]
      ensures rval == -1 <==> Reach(Size(), old(chain)) == []
      ensures (rval == -1 <==> old(Content(chain)) == []) <==> !Stranded(Settle(old(State())))
      ensures -1 <= rval < 256 && ReadLayout(old(State()), 1, OfInt(rval), State())
    {
      hide Content, Reach, Stranded, Weak, Strong, ReadLayout;
      ReadByteLeaves(State());
      OfIntOf(TakeByte(State()).1);
      TakeByteFacts(State());
      TakeByteExact(State());
      var cb := NextHead(list.PeekHead(), region);
      if cb != null {
        if cb.rdi == cb.wri {
          rval := -1;
        } else {
          var x := Fetch(cb);
          rval := x as int;
        }
      } else {
        rval := -1;
      }
    }

    method BufPeekByte(ghost region: set<Link>) returns (rval: int)
      requires Ready() && Within(region) && Base(Size(), chain)
      modifies this`chain, list, pool`free, region
      ensures Ready() && Within(region)
      ensures (State(), rval) == (Settle(old(State())), AsInt(TakeByte(old(State())).1))
      ensures Content(chain) == old(Content(chain))
      ensures rval == -1 <==> Reach(Size(), old(chain)) == []
      ensures rval == (if Content(chain) == [] then -1 else Content(chain)[0] as int)
              <==> !Stranded(Settle(old(State())))
      ensures ReadLayout(old(State()), 0, [], State())
    {
      hide Content, Reach, Stranded, Weak, Strong, ReadLayout;
      ReadLeaves(State(), 0);
      SettleFacts(State());
      TakeByteFacts(State());
      TakeByteExact(State());
      var cb := NextHead(list.PeekHead(), region);
      if cb != null {
        if cb.rdi == cb.wri {
          rval := -1;
        } else {
          assert pool.Fits(cb);
          rval := cb.data[cb.rdi] as int;
        }
      } else {
        rval := -1;
      }
    }

    /** Fetch a byte into the caller's buffer, behind the bytes `got`. */
    method FetchInto(cb: Link, buf: array<byte>, n: nat, ghost b0: seq<byte>, ghost got: seq<byte>)
      requires Ready() && chain != [] && cb == list.nodes[0] && chain[0].rdi < |chain[0].bytes| <= Size()
      requires |got| == n < buf.Length && Filled(b0, buf[..], got)
      requires forall b :: b in pool.arena ==> b.data != buf
      modifies this`chain, cb`rdi, buf
      ensures Ready()
      ensures chain == Advance(old(chain)) && cb.rdi == old(cb.rdi) + 1
      ensures Filled(b0, buf[..], got + [old(chain)[0].bytes[old(chain)[0].rdi]])
    {
      var x := Fetch(cb);
      buf[n] := x;
    }

    /** Move bytes of the head block to the caller's buffer until either has no more. */
    method DrainBlock(cb: Link, buf: array<byte>, num: nat, n0: nat, ghost f0: Fifo, ghost b0: seq<byte>,
                      ghost got0: seq<byte>, ghost region: set<Link>) returns (n: nat, ghost got: seq<byte>)
      requires Ready() && Within(region) && cb == list.head && chain != [] && !Drained(chain[0])
      requires |got0| == n0 < num <= buf.Length && Taking(f0, num, State(), got0) && Filled(b0, buf[..], got0)
      requires forall b :: b in pool.arena ==> b.data != buf
      modifies this`chain, cb`rdi, buf
      ensures Ready() && Within(region)
      ensures n0 < n == |got| <= num && Taking(f0, num, State(), got) && Filled(b0, buf[..], got)
      ensures |chain| == |old(chain)|
    {
      n, got := n0, got0;
      while n < num
        invariant Ready() && Within(region)
        invariant cb == list.head && chain != [] && !Drained(chain[0]) && |chain| == |old(chain)|
        invariant n0 <= n == |got| && Taking(f0, num, State(), got) && Filled(b0, buf[..], got)
      {
        TakingStep(f0, num, State(), got);
        ghost var x := chain[0].bytes[chain[0].rdi];
        FetchInto(cb, buf, n, b0, got);
        n, got := n + 1, got + [x];
        if cb.rdi == cb.wri {
          break;
        }
      }
    }

    /** Bytes are delivered to the front of `buf`; the rest of it is not touched. */
    method BufRead(buf: array<byte>, num: nat, ghost region: set<Link>) returns (n: nat)
      requires Ready() && Within(region) && Base(Size(), chain) && num <= buf.Length
      requires forall b :: b in pool.arena ==> b.data != buf
      modifies this`chain, list, pool`free, region, buf
      ensures Ready() && Within(region)
      ensures var (g, s) := Read(old(State()), num);
              State() == g && n == |s| && Filled(old(buf[..]), buf[..], s)
      ensures n <= num && buf[..n] + Content(chain) == old(Content(chain))
      ensures n == Min(num, |Reach(Size(), old(chain))|)
      ensures n == Min(num, |old(Content(chain))|)
              <==> num <= |Reach(Size(), old(chain))| || Open(Size(), old(chain))
      ensures ReadLayout(old(State()), num, buf[..n], State())
    {
      hide ReadLayout, Reading, Taking, Content, Reach, Open, Weak, Strong, Read, Settle, TakeAll;
      hide Filled, Shows, List.Valid, Valid;
      ReadFacts(State(), num);
      ReadLeaves(State(), num);
      n := 0;
      EndsAre();
      var cb := list.PeekHead();
      ghost var f0, got, b0 := State(), [], buf[..];
      FilledStart(b0);
      ReadingStart(f0, num);
      while cb != null
        invariant Ready() && Within(region)
        invariant Fit(State()) && Reading(f0, num, State(), got) && |got| == n <= num && (n < num || num == 0)
        invariant Cursor(cb)
        invariant Filled(b0, buf[..], got)
        decreases num - n + |chain| + (if cb == null then 0 else 1)
      {
        EndsAre();
        if cb.rdi == cb.wri {
          ReadingSettle(f0, num, State(), got);
          cb := Reload(cb, region);
        } else {
          if n < num {
            ReadingIsTaking(f0, num, State(), got);
            n, got := DrainBlock(cb, buf, num, n, f0, b0, got, region);
            ReadingIsTaking(f0, num, State(), got);
          }
          if n == num {
            break;
          }
        }
      }
      ReadingEnd(f0, num, State(), got);
      FilledFront(b0, buf[..], got);
    }

    /** Flush bytes one at a time; 0 flushes everything. */
    method BufFlush(num: nat, ghost region: set<Link>) returns (n: nat)
      requires Ready() && Within(region) && Base(Size(), chain)
      modifies this`chain, list, pool`free, region
      ensures Ready() && Within(region)
      ensures State() == Flush(old(State()), num)
      ensures n == |TakeAll(old(State()), if num == 0 then |Content(old(chain))| + 1 else num).1|
      ensures n + |Content(chain)| == |old(Content(chain))| && Content(chain) == old(Content(chain))[n..]
      ensures n == if num == 0 then |Reach(Size(), old(chain))| else Min(num, |Reach(Size(), old(chain))|)
      ensures n == (if num == 0 then |old(Content(chain))| else Min(num, |old(Content(chain))|))
              <==> 0 < num <= |Reach(Size(), old(chain))| || Open(Size(), old(chain))
      ensures num > 0 ==> State() == Read(old(State()), num).0
      ensures ReadLayout(old(State()), if num == 0 then old(|Content(chain)|) + 1 else num,
                         old(Content(chain))[..n], State())
    {
      hide Base, ReadLayout, Read, Flush, Taking, Content, Reach, Open, Weak, Strong, Settle, TakeAll;
      hide Shows, List.Valid, Valid;
      TakeAllFacts(State(), if num == 0 then |Content(chain)| + 1 else num);
      TakeAllExact(State(), if num == 0 then |Content(chain)| + 1 else num);
      FlushLeaves(State(), num);
      FlushIs(State(), num);
      n := 0;
      EndsAre();
      var cb := list.PeekHead();
      ghost var f0, got := State(), [];
      ghost var goal := if num == 0 then |Content(chain)| + 1 else num;
      TakingStart(f0, goal);
      while cb != null
        invariant Ready() && Within(region)
        invariant Fit(State()) && Taking(f0, goal, State(), got) && |got| == n < goal
        invariant Cursor(cb)
        decreases goal - n + |chain| + (if cb == null then 0 else 1)
      {
        EndsAre();
        if cb.rdi == cb.wri {
          TakingSettle(f0, goal, State(), got);
          cb := Reload(cb, region);
        } else {
          TakingStep(f0, goal, State(), got);
          got := got + [chain[0].bytes[chain[0].rdi]];
          Skip(cb);
          n := n + 1;
          TakingBound(f0, goal, State(), got);
        }
        if num != 0 {
          if n == num {
            break;
          }
        }
      }
      TakingEnd(f0, goal, State(), got);
    }

    // -------- Whole blocks --------

    /**
      Make the structure an empty list on a pool; only possible if the block size
      fits into 16 bits. Blocks that it may have chained before are forgotten.
     */
    static method BufInit(pool: Pool?, p: BufList?) returns (rval: int)
      modifies Given(p)`pool, Given(p)`chain, ListOf(p)
      ensures rval == if p != null && pool != null && pool.blockSize <= 0xFFFF then 0 else -1
      ensures rval == 0 ==> p.Valid() && p.pool == pool && p.chain == [] && (pool.Valid() ==> p.Ready())
      ensures rval != 0 && p != null ==> p.pool == old(p.pool) && p.chain == old(p.chain) && unchanged(p.list)
    {
      if p == null || pool == null {
        rval := -1;
      } else {
        var size := pool.GetBlockSize();
        if size > 0xFFFF {
          rval := -1;
        } else {
          p.pool := pool;
          p.list.Init();
          p.chain := [];
          rval := 0;
        }
      }
    }

    /** Free blocks until there is none left. */
    method FreeAll(ghost region: set<Link>)
      requires Ready() && Within(region)
      modifies this`chain, list, pool`free, region
      ensures Ready() && Within(region)
      ensures State() == Fifo(Size(), old(|pool.free| + |chain|), [])
      ensures old(pool.free) <= pool.free && forall b :: b in old(list.nodes) ==> b in pool.free
    {
      hide Shows;
      ghost var nodes, k := list.nodes, 0;
      while true
        invariant Ready() && Within(region)
        invariant k <= |nodes| && list.nodes == nodes[k..]
        invariant |pool.free| + |chain| == old(|pool.free| + |chain|)
        invariant old(pool.free) <= pool.free && forall i :: 0 <= i < k ==> nodes[i] in pool.free
        decreases |chain|
      {
        var cb := Free();
        k := if k < |nodes| then k + 1 else k;
        if cb == null {
          break;
        }
      }
    }

    /** Return every block to the pool. */
    static method BufUninit(p: BufList?, ghost region: set<Link>) returns (rval: int)
      requires p != null ==> p.Ready() && p.Within(region)
      modifies Given(p)`chain, ListOf(p), PoolOf(p)`free, if p == null then {} else region
      ensures rval == if p == null then -1 else 0
      ensures p != null ==>
                && p.Ready() && p.Within(region)
                && p.State() == Fifo(p.Size(), old(|p.pool.free| + |p.chain|), [])
                && old(p.pool.free) <= p.pool.free && forall b :: b in old(p.list.nodes) ==> b in p.pool.free
    {
      if p == null {
        rval := -1;
      } else {
        p.FreeAll(region);
        p.list.Init();
        rval := 0;
      }
    }

    /** Append an empty block and hand it out for direct access. */
    method BufAlloc(ghost region: set<Link>) returns (cb: Link?)
      requires Ready() && Within(region)
      modifies this`chain, list, pool`free, region
      ensures Ready() && Within(region)
      ensures cb == null <==> old(State()).free == 0
      ensures if cb == null then State() == old(State())
              else State() == Grow(old(State())) && cb == list.tail
    {
      cb := Alloc();
    }

    /** Drop the head block with whatever it holds, and hand out the next one. */
    method BufFree(ghost region: set<Link>) returns (cb: Link?)
      requires Ready() && Within(region)
      modifies this`chain, list, pool`free, region
      ensures Ready() && Within(region)
      ensures cb == list.head && (cb == null <==> chain == [])
      ensures if old(chain) == [] then State() == old(State())
              else State() == Fifo(Size(), old(|pool.free|) + 1, old(chain)[1..])
    {
      cb := Free();
    }

    /** Hand out the block to write to next. */
    method BufGetTail(ghost region: set<Link>) returns (cb: Link?)
      requires Ready() && Within(region) && Base(Size(), chain)
      modifies this`chain, list, pool`free, region
      ensures Ready() && Within(region)
      ensures State() == Prepare(old(State()))
      ensures cb == (if NeedsBlock(State()) then null else list.tail) && (cb == null <==> NeedsBlock(State()))
      ensures cb == null <==> old(Room(State())) == 0
      ensures WriteLayout(old(State()), [], State(), 0)
    {
      PrepareFacts(State());
      WriteLeaves(State(), []);
      cb := null;
      var tail := list.PeekTail();
      if tail != null {
        if tail.wri < Size() {
          cb := tail;
        }
      }
      if cb == null {
        cb := BufAlloc(region);
      }
    }

    // -------- Queries --------

    /** All of a block but its header holds data; a block size below the header wraps around. */
    method BufGetSize() returns (sz: nat)
      requires pool.blockSize <= 0xFFFF
      ensures sz == Size()
      ensures 12 < pool.blockSize ==> sz == pool.blockSize - 12
      ensures pool.blockSize == 0 ==> sz == 0
      ensures 0 < pool.blockSize < 12 ==> sz == pool.blockSize + 0x1_0000 - 12
      ensures pool.Valid() ==> forall b :: b in pool.arena ==> b.data.Length == sz
    {
      SizeInNumbers(pool.blockSize);
      sz := Size();
      assert pool.Valid() ==> forall b :: b in pool.arena ==> pool.Fits(b);
    }

    method BufGetFree() returns (sz: nat)
      requires Ready() && Base(Size(), chain)
      ensures sz == Room(State())
      ensures sz == (pool.blockSize - 12) * |pool.free|
                    + if chain == [] then 0 else pool.blockSize - 12 - |chain[|chain| - 1].bytes|
    {
      var maxi := Size();
      var space := pool.GetSpace();
      sz := maxi * space;
      var cb := list.PeekTail();
      if cb != null {
        sz := sz + (maxi - cb.wri);
      }
    }

    /** `cb` is the block at position `k`, or none behind the last one. */
    ghost predicate At(cb: Link?, k: nat)
      reads list
    {
      k <= |list.nodes| && cb == if k < |list.nodes| then list.nodes[k] else null
    }

    method BufGetCount() returns (n: nat)
      requires Valid() && Base(Size(), chain)
      ensures n == |Content(chain)|
    {
      n := 0;
      var cb := list.PeekHead();
      ghost var k := 0;
      while cb != null
        invariant At(cb, k)
        invariant n + |Content(chain[k..])| == |Content(chain)|
        decreases |chain| - k
      {
        assert chain[k..][1..] == chain[k + 1..];
        n := n + (cb.wri - cb.rdi);
        cb := List.PeekNext(cb);
        k := k + 1;
      }
    }

    method BufPeekOffs(offs: nat) returns (n: int)
      requires Valid() && Base(Size(), chain)
      ensures n == if offs < |Content(chain)| then Content(chain)[offs] as int else -1
    {
      hide Passed, Content;
      n := -1;
      var rdi: nat, left: nat := 0, offs;
      var cb := list.PeekHead();
      if cb != null {
        rdi := cb.rdi;
      }
      ghost var k, seen := 0, [];
      PassedStart(Size(), chain);
      while cb != null
        invariant At(cb, k) && Passed(chain, k, rdi, seen) && (cb != null ==> rdi <= cb.wri)
        invariant |seen| + left == offs && n == -1
        decreases |chain| - k, if cb == null then 0 else cb.wri - rdi
      {
        if rdi == cb.wri {
          PassedBlock(Size(), chain, k, seen);
          cb := List.PeekNext(cb);
          k := k + 1;
          if cb == null {
            n := -1;
          }
          rdi := 0;
        } else {
          PassedByte(chain, k, rdi, seen);
          if left != 0 {
            seen := seen + [chain[k].bytes[rdi]];
            left := left - 1;
            rdi := rdi + 1;
          } else {
            n := cb.data[rdi] as int;
            break;
          }
        }
      }
      if cb == null {
        PassedAll(chain, rdi, seen);
      }
    }

    method BufFindByte(data: byte) returns (n: int)
      requires Valid() && Base(Size(), chain)
      ensures n == -1 ==> data !in Content(chain)
      ensures n != -1 ==> 0 <= n < |Content(chain)| && Content(chain)[n] == data && data !in Content(chain)[..n]
      ensures DocumentedByte(data, Content(chain), n) <==> Content(chain) == [] || Content(chain)[0] != data
    {
      hide Passed, Content, DocumentedByte;
      n := -1;
      var rdi: nat, offs: nat := 0, 0;
      var cb := list.PeekHead();
      if cb != null {
        rdi := cb.rdi;
      }
      ghost var k, seen := 0, [];
      PassedStart(Size(), chain);
      while cb != null
        invariant At(cb, k) && Passed(chain, k, rdi, seen) && (cb != null ==> rdi <= cb.wri)
        invariant |seen| == offs && data !in seen && n == -1
        decreases |chain| - k, if cb == null then 0 else cb.wri - rdi
      {
        if rdi == cb.wri {
          PassedBlock(Size(), chain, k, seen);
          cb := List.PeekNext(cb);
          k := k + 1;
          rdi := 0;
        } else {
          while rdi < cb.wri
            invariant Passed(chain, k, rdi, seen) && rdi <= cb.wri
            invariant |seen| == offs && data !in seen && n == -1
          {
            PassedByte(chain, k, rdi, seen);
            if data == cb.data[rdi] {
              n := offs;
              break;
            }
            seen := seen + [chain[k].bytes[rdi]];
            offs := offs + 1;
            rdi := rdi + 1;
          }
          if n != -1 {
            break;
          }
        }
      }
      if cb == null {
        PassedAll(chain, rdi, seen);
      }
      FindByteDocumented(data, Content(chain), n);
    }

    /**
      `data` are the bytes at the pattern's address, of which `num` belong to it.
      For a count of 0 the program looks at those behind it, which must be there.
     */
    method BufFind(data: seq<byte>, num: nat) returns (n: int)
      requires Valid() && Base(Size(), chain)
      requires num <= |data| && (num == 0 ==> StaysInside(data, Content(chain)))
      ensures num > 0 ==> n == Find(data[..num], Content(chain))
      ensures num == 0 ==> FoundNothing(data, Content(chain), n) && !Documented([], Content(chain), n)
    {
      hide Passed, Seeking, StaysInside, Documented, FoundNothing, Find, Content;
      n := -1;
      var i: nat, rdi: nat, offs: nat := 0, 0, 0;
      var cb := list.PeekHead();
      if cb != null {
        rdi := cb.rdi;
      }
      ghost var c, k, seen := Content(chain), 0, [];
      PassedStart(Size(), chain);
      SeekStart(data, num, c);
      while cb != null
        invariant At(cb, k) && Passed(chain, k, rdi, seen) && (cb != null ==> rdi <= cb.wri)
        invariant Seeking(data, num, c, |seen|, i, offs) && n == -1
        decreases |chain| - k, if cb == null then 0 else cb.wri - rdi
      {
        if rdi == cb.wri {
          PassedBlock(Size(), chain, k, seen);
          cb := List.PeekNext(cb);
          k := k + 1;
          rdi := 0;
        } else {
          while rdi < cb.wri
            invariant Passed(chain, k, rdi, seen) && rdi <= cb.wri
            invariant Seeking(data, num, c, |seen|, i, offs) && n == -1
          {
            PassedByte(chain, k, rdi, seen);
            SeekStep(data, num, c, |seen|, i, offs);
            seen := seen + [chain[k].bytes[rdi]];
            if data[i] != cb.data[rdi] {
              if i == 0 {
                offs := offs + 1;
              } else {
                offs := offs + i;
              }
              i := 0;
            }
            if data[i] == cb.data[rdi] {
              i := i + 1;
            }
            rdi := rdi + 1;
            if i == num {
              n := offs;
              break;
            }
          }
          if n != -1 {
            break;
          }
        }
      }
      if cb == null {
        PassedAll(chain, rdi, seen);
        SeekEnd(data, num, c, i, offs);
      }
      if num == 0 {
        EmptyNeverDocumented(data, c, n);
      }
    }

    /** A string with its terminating zero. */
    static predicate IsString(str: seq<byte>) {
      str != [] && str[|str| - 1] == 0 && 0 !in str[..|str| - 1]
    }

    /** The bytes of a string before the terminating zero. */
    static function Text(str: seq<byte>): (t: seq<byte>)
      requires IsString(str)
      ensures |t| == |str| - 1
      ensures forall i :: 0 <= i < |str| ==> (str[i] == 0 <==> i == |t|) && (i < |t| ==> t[i] == str[i])
    {
      assert forall i :: 0 <= i < |str| - 1 ==> str[i] in str[..|str| - 1];
      str[..|str| - 1]
    }

    static lemma NothingBehind(c: Chain, offs: nat)
      ensures c == [] ==> Content(c) == [] && Behind(Content(c), offs) == []
    {
    }

    method BufCompareString(str: seq<byte>, offs: nat) returns (n: int)
      requires Valid() && Base(Size(), chain) && IsString(str)
      ensures n == Verdict(Text(str), Behind(Content(chain), offs), chain != [])
      ensures Compared(Text(str), Content(chain), offs, chain != [], n) && (chain == [] ==> n == 0)
      ensures DocumentedCompare(Text(str), Behind(Content(chain), offs), n) <==> chain != [] || Text(str) == []
    {
      hide Passed, Agrees, Content, Behind, IsString, Text, DocumentedCompare, Compared;
      NothingBehind(chain, offs);
      VerdictCases(Text(str), Content(chain), offs, chain != []);
      CompareDocumented(Text(str), Behind(Content(chain), offs), chain != []);
      n := 0;
      var rdi: nat, left: nat := 0, offs;
      var cb := list.PeekHead();
      if cb != null {
        rdi := cb.rdi;
      }
      ghost var c, text, k, seen := Content(chain), Text(str), 0, [];
      PassedStart(Size(), chain);
      AgreesStart(text, c, 0, seen);
      while cb != null
        invariant At(cb, k) && Passed(chain, k, rdi, seen) && (cb != null ==> rdi <= cb.wri)
        invariant cb == null ==> chain == [] && n == 0
        invariant if left > 0 then n == 0 && |seen| + left == offs
                  else 0 <= n && Agrees(text, c, offs, n, seen) && (n == 0 || n < |text|)
        decreases |chain| - k, if cb == null then 0 else cb.wri - rdi
      {
        if rdi == cb.wri {
          PassedBlock(Size(), chain, k, seen);
          cb := List.PeekNext(cb);
          k := k + 1;
          if cb == null {
            PassedAll(chain, 0, seen);
            if left > 0 {
              VerdictBehindEnd(text, c, offs);
            } else {
              VerdictAtEnd(text, c, offs, n, seen);
            }
            n := -1;
            break;
          }
          rdi := 0;
        } else {
          if left != 0 {
            PassedByte(chain, k, rdi, seen);
            seen := seen + [chain[k].bytes[rdi]];
            left := left - 1;
            rdi := rdi + 1;
            if left == 0 {
              PassedPrefix(chain, k, rdi, seen);
              AgreesStart(text, c, offs, seen);
            }
          } else {
            n, rdi, seen := CompareBlock(cb, k, rdi, str, offs, n, seen);
            if n <= 0 || str[n] == 0 {
              break;
            }
          }
        }
      }
    }

    /** Compare with the rest of one block. */
    method CompareBlock(cb: Link, ghost k: nat, rdi0: nat, str: seq<byte>, ghost offs: nat, n0: nat,
                        ghost seen0: seq<byte>)
      returns (n: nat, rdi: nat, ghost seen: seq<byte>)
      requires Valid() && At(cb, k) && k < |chain| && Passed(chain, k, rdi0, seen0) && rdi0 < cb.wri && IsString(str)
      requires Agrees(Text(str), Content(chain), offs, n0, seen0) && n0 <= |Text(str)|
      ensures n < |str| && Passed(chain, k, rdi, seen) && rdi0 <= rdi <= cb.wri
      ensures if n == 0 || str[n] == 0 then n == Verdict(Text(str), Behind(Content(chain), offs), true)
              else rdi > rdi0 && n < |Text(str)| && Agrees(Text(str), Content(chain), offs, n, seen)
    {
      hide Passed, Agrees, Content, Behind, Verdict, IsString, Text;
      ghost var c, text := Content(chain), Text(str);
      n, rdi, seen := n0, rdi0, seen0;
      PassedByte(chain, k, rdi, seen);
      AgreesBound(text, c, offs, n, seen);
      while rdi < cb.wri
        invariant rdi0 <= rdi <= cb.wri && n0 <= n <= |text| && (n > n0 || rdi == rdi0) && (n > n0 ==> rdi > rdi0)
        invariant Passed(chain, k, rdi, seen) && Agrees(text, c, offs, n, seen)
      {
        if str[n] == 0 {
          break;
        }
        PassedByte(chain, k, rdi, seen);
        if str[n] != cb.data[rdi] {
          VerdictMismatch(text, c, offs, n, seen);
          n := 0;
          return;
        }
        AgreesStep(text, c, offs, n, seen);
        seen := seen + [chain[k].bytes[rdi]];
        n := n + 1;
        rdi := rdi + 1;
      }
      if str[n] == 0 {
        VerdictMatch(text, c, offs, seen);
      }
    }
  }
}
