/** One cache over memory, used as load on a miss and then read or write, is invisible. */
module CacheValues {
  import opened Words
  import opened Paging
  import opened Caches

  /** The addresses below the last block of the address space, whose loops are empty. */
  predicate InRange(a: int) {
    0 <= a < TWO_32 - LINE_SIZE
  }

  predicate Cached(b: Bus, a: int)
    requires At(b, 0, a)
  {
    Slicing(a);
    TagOf(b, 0, Index(a)) == Tag(a)
  }

  /** The byte at an address: that of the line with its tag, else that of memory. */
  function ByteAt(b: Bus, a: int): Byte
    requires At(b, 0, a)
  {
    Slicing(a);
    if Cached(b, a) then b.caches[0].block[Index(a)][Off(a)] else Content(b.m, a)
  }

  /** One cache that shows, with memory behind it, the bytes of f. */
  ghost predicate Shows(b: Bus, f: Phys) {
    && GoodBus(b) && |b.caches| == 1
    && forall a :: InRange(a) ==> ByteAt(b, a) == Content(f, a)
  }

  // ---------- blocks ----------

  lemma BlockOffset(low: int, i: nat)
    requires 0 <= low < TWO_32 && low % LINE_SIZE == 0 && i < LINE_SIZE
    ensures low + i < TWO_32 && Off(low + i) == i && Low(low + i) == low
  {
    hide GetBit, Pow2;
    var q := low / LINE_SIZE;
    assert low == q * LINE_SIZE;
    InLine(q, i);
    Fields(low + i);
  }

  lemma InLine(q: int, i: nat)
    requires 0 <= q < 0x400_0000 && i < LINE_SIZE
    ensures var a := q * LINE_SIZE + i; a < TWO_32 && a % 64 == i && a / LINE_SIZE == q
  {
  }

  lemma {:induction false} WriteBackAt(block: seq<Byte>, m: Phys, low: int, n: nat, a: int)
    requires |block| == LINE_SIZE && 0 <= low < TWO_32 && low % LINE_SIZE == 0 && n <= LINE_SIZE
    ensures Content(WriteBack(block, m, low, n), a) ==
            if low <= a < low + n then block[a - low] else Content(m, a)
  {
    if n > 0 {
      BlockOffset(low, n - 1);
      WriteBackAt(block, m, low, n - 1, a);
    }
  }

  lemma {:induction false} LoadBlockAt(block: seq<Byte>, m: Phys, low: int, n: nat, i: nat)
    requires |block| == LINE_SIZE && 0 <= low < TWO_32 && low % LINE_SIZE == 0 && n <= LINE_SIZE && i < LINE_SIZE
    ensures LoadBlock(block, m, low, n)[i] == if i < n then Content(m, low + i) else block[i]
  {
    if n > 0 {
      BlockOffset(low, n - 1);
      LoadBlockAt(block, m, low, n - 1, i);
    }
  }

  /** An address lies in the block of a line exactly if line and tag agree. */
  lemma InBlock(tag: int, x: int, a: int)
    requires 0 <= tag < TAGS && 0 <= x < LINES && Address(a)
    ensures var low := Origin(tag, x);
      && low % LINE_SIZE == 0 && 0 <= low < TWO_32
      && (low <= a < low + LINE_SIZE <==> Index(a) == x && Tag(a) == tag)
      && (Index(a) == x && Tag(a) == tag ==> a - low == Off(a))
  {
    Slicing(a);
    Joining(tag, x, 0);
    var low := Origin(tag, x);
    if low <= a < low + LINE_SIZE {
      Joining(tag, x, a - low);
    }
  }

  // ---------- write back and load ----------

  /** Writing a line back changes no byte, whatever the state of the line. */
  lemma WriteBackKeeps(b: Bus, x: int, off: int, a: int)
    requires GoodBus(b) && |b.caches| == 1 && 0 <= x < LINES && 0 <= off < LINE_SIZE && InRange(a)
    ensures var t := TagOf(b, 0, x); var o := Origin(t, x) + off;
      && Address(o)
      && var r := ImmediateWrite(b, 0, o);
      && ByteAt(r, a) == ByteAt(b, a)
      && r.caches[0].block == b.caches[0].block && r.caches[0].tag == b.caches[0].tag
      && (Index(a) == x && Tag(a) == t ==> Content(r.m, a) == ByteAt(b, a))
      && (!(Index(a) == x && Tag(a) == t) ==> Content(r.m, a) == Content(b.m, a))
  {
    hide GetBit, WriteBack, Content;
    var t := TagOf(b, 0, x);
    Joining(t, x, off);
    InBlock(t, x, a);
    Slicing(a);
    WriteBackAt(b.caches[0].block[x], b.m, Origin(t, x), Span(Origin(t, x)), a);
  }

  /** A load changes no byte, and makes its block present. */
  lemma BurstLoadKeeps(b: Bus, pa: int, a: int)
    requires GoodBus(b) && |b.caches| == 1 && InRange(pa) && InRange(a)
    ensures var r := BurstLoad(b, 0, pa); ByteAt(r, a) == ByteAt(b, a) && Read(r, 0, pa) == Hit(ByteAt(b, pa))
  {
    hide GetBit, LoadBlock, Content, ImmediateWrite;
    BurstLoadByte(b, pa, a);
    BurstLoadByte(b, pa, pa);
    Slicing(pa);
    assert FlushOthers(b, 0, pa, 1) == b;
  }

  lemma BurstLoadByte(b: Bus, pa: int, a: int)
    requires GoodBus(b) && |b.caches| == 1 && InRange(pa) && InRange(a)
    ensures ByteAt(BurstLoad(b, 0, pa), a) == ByteAt(b, a)
  {
    hide GetBit, LoadBlock, Content, ImmediateWrite;
    Slicing(pa);
    Slicing(a);
    var x := Index(pa);
    assert FlushOthers(b, 0, pa, 1) == b;
    WriteBackKeeps(b, x, 0, a);
    var b2 := ImmediateWrite(b, 0, Origin(TagOf(b, 0, x), x));
    InBlock(Tag(pa), x, a);
    InBlock(Tag(pa), x, pa);
    assert Span(Low(pa)) == LINE_SIZE;
    if Index(a) == x && Tag(a) == Tag(pa) {
      LoadBlockAt(b2.caches[0].block[x], b2.m, Low(pa), LINE_SIZE, Off(a));
    }
  }

  // ---------- writes ----------

  /** What a write does to the byte at a: if the tag matches, exactly the write; if not, the new block is made of the
      old line's bytes. */
  lemma LazyWriteByte(b: Bus, pa: int, byte: Byte, a: int)
    requires GoodBus(b) && |b.caches| == 1 && InRange(pa) && InRange(a)
    ensures var r := LazyWrite(b, 0, pa, byte);
      ByteAt(r, a) ==
        if a == pa then byte
        else if !Cached(b, pa) && Low(a) == Low(pa) then ByteOf(OldLine(b, pa), a)
        else ByteAt(b, a)
  {
    hide GetBit, Content, ImmediateWrite;
    Slicing(pa);
    Slicing(a);
    var x := Index(pa);
    var b1 := SetValid(b, 0, x, E);
    assert InvalidateOthers(b1, 0, pa, 1) == b1;
    SameBlock(pa, a);
    assert ByteAt(b1, a) == ByteAt(b, a);
    if !Cached(b, pa) {
      WriteBackKeeps(b1, x, Off(pa), a);
    }
  }

  lemma SameBlock(pa: int, a: int)
    requires Address(pa) && Address(a)
    ensures Low(a) == Low(pa) <==> Index(a) == Index(pa) && Tag(a) == Tag(pa)
    ensures Low(a) == Low(pa) && Off(a) == Off(pa) <==> a == pa
  {
    hide GetBit;
    Slicing(pa);
    Slicing(a);
    InBlock(Tag(pa), Index(pa), a);
  }

  /** The block of the line that pa maps to. */
  function OldLine(b: Bus, pa: int): (r: seq<Byte>)
    requires At(b, 0, pa)
    ensures |r| == LINE_SIZE
  {
    Slicing(pa);
    b.caches[0].block[Index(pa)]
  }

  /** lazy_write is a write to flat memory if and only if its block is in the cache or the line it takes over happens to
      hold the block's other bytes. */
  lemma LazyWriteExact(b: Bus, pa: int, byte: Byte)
    requires GoodBus(b) && |b.caches| == 1 && InRange(pa)
    ensures var r := LazyWrite(b, 0, pa, byte);
      (forall a :: InRange(a) ==> ByteAt(r, a) == if a == pa then byte else ByteAt(b, a))
      <==> (Cached(b, pa) ||
            forall a :: Low(pa) <= a < Low(pa) + LINE_SIZE && a != pa ==>
              OldLine(b, pa)[a - Low(pa)] == Content(b.m, a))
  {
    hide GetBit, Content, LazyWrite;
    forall a | InRange(a)
      ensures ByteAt(LazyWrite(b, 0, pa, byte), a) ==
        if a == pa then byte
        else if !Cached(b, pa) && Low(a) == Low(pa) then ByteOf(OldLine(b, pa), a)
        else ByteAt(b, a)
    {
      LazyWriteByte(b, pa, byte, a);
    }
    forall a | Low(pa) <= a < Low(pa) + LINE_SIZE
      ensures InRange(a) && Low(a) == Low(pa) && Off(a) == a - Low(pa)
      ensures !Cached(b, pa) ==> ByteAt(b, a) == Content(b.m, a)
    {
      WholeBlock(b, pa, a);
    }
    forall a | InRange(a) && Low(a) == Low(pa) ensures Low(pa) <= a < Low(pa) + LINE_SIZE {
    }
  }

  /** Writing byte 1 to address 0 and then byte 2 to address 16385, which misses, changes address 16384 too. */
  lemma MissedWriteSpoilsBlock()
    ensures var b := LazyWrite(Bus([ZeroCache()], Phys(map[], {})), 0, 0, 1); var r := LazyWrite(b, 0, 16385, 2);
      ByteAt(b, 16384) == 0 && ByteAt(r, 16384) == 1
  {
    hide GetBit, LazyWrite, ByteAt;
    var z := Bus([ZeroCache()], Phys(map[], {}));
    Fields(0);
    Fields(16384);
    Fields(16385);
    var b := LazyWrite(z, 0, 0, 1);
    ZeroShows();
    LazyWriteByte(z, 0, 1, 16384);
    LazyWriteByte(z, 0, 1, 0);
    LazyWriteByte(b, 16385, 2, 16384);
    TakenOver(z, 0, 1);
  }

  lemma TakenOver(b: Bus, pa: int, byte: Byte)
    requires GoodBus(b) && |b.caches| == 1 && InRange(pa)
    ensures var r := LazyWrite(b, 0, pa, byte); Cached(r, pa) && OldLine(r, pa)[Off(pa)] == byte
  {
    hide GetBit, WriteBack;
    Slicing(pa);
    assert InvalidateOthers(SetValid(b, 0, Index(pa), E), 0, pa, 1) == SetValid(b, 0, Index(pa), E);
  }

  lemma WholeBlock(b: Bus, pa: int, a: int)
    requires GoodBus(b) && |b.caches| == 1 && InRange(pa) && Low(pa) <= a < Low(pa) + LINE_SIZE
    ensures InRange(a) && Low(a) == Low(pa) && Off(a) == a - Low(pa)
    ensures !Cached(b, pa) ==> ByteAt(b, a) == Content(b.m, a)
  {
    hide GetBit, Content;
    Slicing(pa);
    Slicing(a);
    InBlock(Tag(pa), Index(pa), a);
  }

  // ---------- whole runs ----------

  datatype Op = Load(pa: int) | Store(pa: int, byte: Byte)

  /** The use of the cache: load on a miss, then read or write. */
  function Step(b: Bus, op: Op): (r: Bus)
    requires At(b, 0, op.pa) && |b.caches| == 1
    ensures GoodBus(r) && |r.caches| == 1
  {
    var b' := if Read(b, 0, op.pa) == Miss then BurstLoad(b, 0, op.pa) else b;
    match op
    case Load(_) => b'
    case Store(pa, byte) => LazyWrite(b', 0, pa, byte)
  }

  predicate OpsInRange(ops: seq<Op>) {
    forall i :: 0 <= i < |ops| ==> InRange(ops[i].pa)
  }

  function Run(b: Bus, ops: seq<Op>): (r: Bus)
    requires GoodBus(b) && |b.caches| == 1 && OpsInRange(ops)
    ensures GoodBus(r) && |r.caches| == 1
    decreases |ops|
  {
    if ops == [] then b else Run(Step(b, ops[0]), ops[1..])
  }

  /** The bytes the loads of a run return; none for a load that still misses. */
  function Outputs(b: Bus, ops: seq<Op>): seq<Lookup>
    requires GoodBus(b) && |b.caches| == 1 && OpsInRange(ops)
    decreases |ops|
  {
    if ops == [] then [] else
    var b' := Step(b, ops[0]);
    (if ops[0].Load? then [Read(b', 0, ops[0].pa)] else []) + Outputs(b', ops[1..])
  }

  function FlatStep(f: Phys, op: Op): Phys {
    match op
    case Load(_) => f
    case Store(pa, byte) => Put(f, pa, byte)
  }

  function FlatRun(f: Phys, ops: seq<Op>): Phys
    decreases |ops|
  {
    if ops == [] then f else FlatRun(FlatStep(f, ops[0]), ops[1..])
  }

  /** The same loads from flat memory: each returns the byte stored last. */
  function FlatOutputs(f: Phys, ops: seq<Op>): seq<Lookup>
    decreases |ops|
  {
    if ops == [] then [] else
    (if ops[0].Load? then [Hit(Content(f, ops[0].pa))] else []) + FlatOutputs(FlatStep(f, ops[0]), ops[1..])
  }

  lemma StepRefines(b: Bus, f: Phys, op: Op)
    requires Shows(b, f) && InRange(op.pa)
    ensures Shows(Step(b, op), FlatStep(f, op))
    ensures op.Load? ==> Read(Step(b, op), 0, op.pa) == Hit(Content(f, op.pa))
  {
    hide GetBit, BurstLoad, LazyWrite;
    Slicing(op.pa);
    var b' := if Read(b, 0, op.pa) == Miss then BurstLoad(b, 0, op.pa) else b;
    forall a | InRange(a) ensures ByteAt(b', a) == ByteAt(b, a) {
      if Read(b, 0, op.pa) == Miss {
        BurstLoadKeeps(b, op.pa, a);
      }
    }
    assert Read(b', 0, op.pa) == Hit(ByteAt(b, op.pa)) by {
      if Read(b, 0, op.pa) == Miss {
        BurstLoadKeeps(b, op.pa, op.pa);
      }
    }
    if op.Store? {
      forall a | InRange(a) ensures ByteAt(Step(b, op), a) == Content(FlatStep(f, op), a) {
        LazyWriteByte(b', op.pa, op.byte, a);
      }
    }
  }

  /** One cache refines flat memory, across any sequence of conflicting evictions. */
  lemma {:induction false} CacheIsInvisible(b: Bus, f: Phys, ops: seq<Op>)
    requires Shows(b, f) && OpsInRange(ops)
    ensures Shows(Run(b, ops), FlatRun(f, ops)) && Outputs(b, ops) == FlatOutputs(f, ops)
    decreases |ops|
  {
    hide Step, FlatStep, Read;
    if ops != [] {
      StepRefines(b, f, ops[0]);
      CacheIsInvisible(Step(b, ops[0]), FlatStep(f, ops[0]), ops[1..]);
    }
  }

  /** A cache with zero tags and blocks. */
  function ZeroCache(): (c: Cache)
    ensures GoodCache(c)
  {
    Cache(seq(LINES, i => I), seq(LINES, i => 0), seq(LINES, i => Zeros(LINE_SIZE)))
  }

  /** Over memory that was never written it shows zeros: the premise of the theorem is met at the start. */
  lemma ZeroShows()
    ensures Shows(Bus([ZeroCache()], Phys(map[], {})), Phys(map[], {}))
  {
    hide GetBit;
    forall a | InRange(a) ensures ByteAt(Bus([ZeroCache()], Phys(map[], {})), a) == 0 {
      Slicing(a);
    }
  }
}
