/** What any number of caches make of the bytes: which copy a load shows, and what loads and writes do to memory and
    to the blocks of all caches. */
module CacheSharing {
  import opened Words
  import opened Paging
  import opened Caches
  import opened CacheStates
  import CacheValues

  /** The block of line x in cache c. */
  function BlockOf(b: Bus, c: nat, x: int): (r: seq<Byte>)
    requires GoodBus(b) && c < |b.caches| && 0 <= x < LINES
    ensures |r| == LINE_SIZE
  {
    b.caches[c].block[x]
  }

  /** Cache c has modified the block of pa. */
  predicate Owns(b: Bus, c: nat, pa: int)
    requires At(b, c, pa)
  {
    Slicing(pa);
    Valid(b, c, Index(pa)) == M && TagOf(b, c, Index(pa)) == Tag(pa)
  }

  predicate SomeOtherOwns(b: Bus, me: nat, pa: int)
    requires At(b, me, pa)
  {
    exists c: nat :: c < |b.caches| && c != me && Owns(b, c, pa)
  }

  /** a lies in the 64 bytes of pa's block. */
  predicate SameBlock(pa: int, a: int) {
    pa / 64 * 64 <= a < pa / 64 * 64 + 64
  }

  /** The byte at a in the line of cache c that pa maps to, whatever its state and tag. */
  function Copy(b: Bus, c: nat, pa: int, a: int): Byte
    requires At(b, c, pa) && SameBlock(pa, a)
  {
    Slicing(pa);
    BlockOf(b, c, Index(pa))[a - pa / 64 * 64]
  }

  // ---------- flushing ----------

  /** Flushing changes no block and no tag. */
  lemma {:induction false} FlushBlocks(b: Bus, me: nat, pa: int, n: nat, c: nat, x: nat)
    requires At(b, me, pa) && n <= |b.caches| && c < |b.caches| && x < LINES
    ensures BlockOf(FlushOthers(b, me, pa, n), c, x) == BlockOf(b, c, x)
  {
    hide WriteBack, GetBit;
    if n > 0 {
      Slicing(pa);
      FlushBlocks(b, me, pa, n - 1, c, x);
    }
  }

  /** The modified copy, of which there is only one, goes to memory; nothing else does. */
  lemma {:induction false} FlushedByte(b: Bus, me: nat, pa: int, n: nat, c: nat, a: int)
    requires Coherent(b) && At(b, me, pa) && CacheValues.InRange(pa) && n <= |b.caches|
    requires c < |b.caches| && c != me && Owns(b, c, pa)
    ensures Content(FlushOthers(b, me, pa, n).m, a) ==
      if c < n && SameBlock(pa, a) then Copy(b, c, pa, a) else Content(b.m, a)
    decreases n
  {
    hide Coherent, Content, Copy, SameBlock, Owns, GetBit, FlushOthers;
    if n > 0 {
      FlushedByte(b, me, pa, n - 1, c, a);
      if n - 1 == c {
        FlushOwner(b, me, pa, c, a);
      } else {
        OneOwner(b, c, n - 1, pa);
        FlushNobody(b, me, pa, n);
      }
    } else {
      FlushNone(b, me, pa);
    }
  }

  lemma FlushNone(b: Bus, me: nat, pa: int)
    requires At(b, me, pa)
    ensures FlushOthers(b, me, pa, 0) == b
  {
  }

  /** The step of the loop at the owner. */
  lemma FlushOwner(b: Bus, me: nat, pa: int, c: nat, a: int)
    requires At(b, me, pa) && CacheValues.InRange(pa) && c < |b.caches| && c != me && Owns(b, c, pa)
    ensures Content(FlushOthers(b, me, pa, c + 1).m, a) ==
      if SameBlock(pa, a) then Copy(b, c, pa, a) else Content(FlushOthers(b, me, pa, c).m, a)
  {
    hide WriteBack, GetBit, Content;
    Slicing(pa);
    var x := Index(pa);
    FlushedLine(b, me, pa, c, c, x);
    FlushBlocks(b, me, pa, c, c, x);
    var b' := FlushOthers(b, me, pa, c);
    CacheValues.WriteBackAt(BlockOf(b', c, x), b'.m, Low(pa), LINE_SIZE, a);
  }

  /** And at any other cache. */
  lemma FlushNobody(b: Bus, me: nat, pa: int, n: nat)
    requires At(b, me, pa) && 0 < n <= |b.caches| && !Owns(b, n - 1, pa)
    ensures FlushOthers(b, me, pa, n) == FlushOthers(b, me, pa, n - 1)
  {
    hide GetBit, ImmediateWrite;
    Slicing(pa);
    FlushedLine(b, me, pa, n - 1, n - 1, Index(pa));
  }

  lemma OneOwner(b: Bus, c: nat, d: nat, pa: int)
    requires Coherent(b) && At(b, c, pa) && d < |b.caches| && c != d && Owns(b, c, pa)
    ensures !Owns(b, d, pa)
  {
    hide GetBit;
    Slicing(pa);
    assert Exclusive(b, c, d, Index(pa));
  }

  /** Without a modified copy nothing happens. */
  lemma {:induction false} NothingFlushed(b: Bus, me: nat, pa: int, n: nat)
    requires At(b, me, pa) && n <= |b.caches| && !SomeOtherOwns(b, me, pa)
    ensures FlushOthers(b, me, pa, n) == b
    decreases n
  {
    hide GetBit;
    if n > 0 {
      Slicing(pa);
      NothingFlushed(b, me, pa, n - 1);
      assert n - 1 != me ==> !Owns(b, n - 1, pa);
    }
  }

  // ---------- a load ----------

  predicate OldTagMatches(b: Bus, me: nat, pa: int)
    requires At(b, me, pa)
  {
    Slicing(pa);
    TagOf(b, me, Index(pa)) == Tag(pa)
  }

  /** a lies in the block that a load or write at pa pushes out of the line, and the line goes to memory. */
  predicate PushedOut(b: Bus, me: nat, pa: int, a: int)
    requires At(b, me, pa)
  {
    Slicing(pa);
    var low := TagOf(b, me, Index(pa)) * 16384 + Index(pa) * 64;
    low <= a < low + 64 && low + 64 < 0x1_0000_0000
  }

  /** Every byte of memory after a load: in the old line's block, the old line; elsewhere what the flush left. */
  lemma LoadMemory(b: Bus, me: nat, pa: int, a: int)
    requires At(b, me, pa)
    ensures var f := FlushOthers(b, me, pa, |b.caches|);
      Content(BurstLoad(b, me, pa).m, a) == if PushedOut(b, me, pa, a) then OldByte(b, me, pa, a) else Content(f.m, a)
  {
    hide WriteBack, LoadBlock, GetBit, FlushOthers, Content;
    Slicing(pa);
    var x := Index(pa);
    var b1 := FlushOthers(b, me, pa, |b.caches|);
    FlushedLine(b, me, pa, |b.caches|, me, x);
    FlushBlocks(b, me, pa, |b.caches|, me, x);
    Joining(TagOf(b1, me, x), x, 0);
    var low := Origin(TagOf(b1, me, x), x);
    CacheValues.InBlock(TagOf(b1, me, x), x, low);
    CacheValues.WriteBackAt(BlockOf(b1, me, x), b1.m, low, Span(low), a);
  }

  /** The byte at a of the line that is pushed out. */
  function OldByte(b: Bus, me: nat, pa: int, a: int): Byte
    requires At(b, me, pa) && PushedOut(b, me, pa, a)
  {
    Slicing(pa);
    BlockOf(b, me, Index(pa))[a - TagOf(b, me, Index(pa)) * 16384 - Index(pa) * 64]
  }

  /** After a load the line shows memory, in every byte of the block. */
  lemma LoadShowsMemory(b: Bus, me: nat, pa: int, a: int)
    requires At(b, me, pa) && CacheValues.InRange(pa) && SameBlock(pa, a)
    ensures Address(a)
    ensures var r := BurstLoad(b, me, pa); Read(r, me, a) == Hit(Content(r.m, a))
  {
    hide WriteBack, LoadBlock, GetBit, FlushOthers, Content;
    Slicing(pa);
    Slicing(a);
    var x := Index(pa);
    CacheValues.InBlock(Tag(pa), x, a);
    var b1 := FlushOthers(b, me, pa, |b.caches|);
    Joining(TagOf(b1, me, x), x, 0);
    var b2 := ImmediateWrite(b1, me, Origin(TagOf(b1, me, x), x));
    CacheValues.LoadBlockAt(b2.caches[me].block[x], b2.m, Low(pa), LINE_SIZE, Off(a));
  }

  /** A block that another cache has modified: the load writes it to memory and shows it, unless the loader's own line
      has the tag. */
  lemma LoadSharesModified(b: Bus, me: nat, c: nat, pa: int, a: int)
    requires Coherent(b) && At(b, me, pa) && CacheValues.InRange(pa) && SameBlock(pa, a)
    requires c < |b.caches| && c != me && Owns(b, c, pa) && !OldTagMatches(b, me, pa)
    ensures Address(a)
    ensures var r := BurstLoad(b, me, pa);
      Read(r, me, a) == Hit(Copy(b, c, pa, a)) && Content(r.m, a) == Copy(b, c, pa, a)
  {
    hide GetBit, FlushOthers, BurstLoad, Content, Read;
    LoadShowsMemory(b, me, pa, a);
    LoadMemory(b, me, pa, a);
    FlushedByte(b, me, pa, |b.caches|, c, a);
    OtherBlock(b, me, pa, a);
  }

  /** The block that is loaded is not the one that is pushed out, but where the tag is the same. */
  lemma OtherBlock(b: Bus, me: nat, pa: int, a: int)
    requires At(b, me, pa) && CacheValues.InRange(pa) && SameBlock(pa, a)
    ensures PushedOut(b, me, pa, a) <==> OldTagMatches(b, me, pa)
    ensures OldTagMatches(b, me, pa) ==> OldByte(b, me, pa, a) == Copy(b, me, pa, a)
  {
    hide GetBit;
    Slicing(pa);
    Slicing(a);
    CacheValues.InBlock(Tag(pa), Index(pa), a);
    CacheValues.InBlock(TagOf(b, me, Index(pa)), Index(pa), a);
  }

  /** A block that no other cache has modified: the load shows memory as it was. */
  lemma LoadShowsOldMemory(b: Bus, me: nat, pa: int, a: int)
    requires At(b, me, pa) && CacheValues.InRange(pa) && SameBlock(pa, a)
    requires !SomeOtherOwns(b, me, pa) && !OldTagMatches(b, me, pa)
    ensures Address(a)
    ensures var r := BurstLoad(b, me, pa); Read(r, me, a) == Hit(Content(b.m, a)) && Content(r.m, a) == Content(b.m, a)
  {
    hide GetBit, FlushOthers, BurstLoad, Content, Read;
    LoadShowsMemory(b, me, pa, a);
    LoadMemory(b, me, pa, a);
    NothingFlushed(b, me, pa, |b.caches|);
    OtherBlock(b, me, pa, a);
  }

  /** A line that has the tag already, valid or not: the load writes its old copy over everything and shows that. */
  lemma LoadKeepsStale(b: Bus, me: nat, pa: int, a: int)
    requires At(b, me, pa) && CacheValues.InRange(pa) && SameBlock(pa, a) && OldTagMatches(b, me, pa)
    ensures Address(a)
    ensures var r := BurstLoad(b, me, pa);
      Read(r, me, a) == Hit(Copy(b, me, pa, a)) && Content(r.m, a) == Copy(b, me, pa, a)
  {
    hide GetBit, FlushOthers, BurstLoad, Content, Read;
    LoadShowsMemory(b, me, pa, a);
    LoadMemory(b, me, pa, a);
    OtherBlock(b, me, pa, a);
  }

  /** So a load shows what another cache has modified if and only if the loader's old line has another tag, or holds the
      same byte. */
  lemma LoadExact(b: Bus, me: nat, c: nat, pa: int, a: int)
    requires Coherent(b) && At(b, me, pa) && CacheValues.InRange(pa) && SameBlock(pa, a) && Address(a)
    requires c < |b.caches| && c != me && Owns(b, c, pa)
    ensures Read(BurstLoad(b, me, pa), me, a) == Hit(Copy(b, c, pa, a))
        <==> !OldTagMatches(b, me, pa) || Copy(b, me, pa, a) == Copy(b, c, pa, a)
  {
    hide GetBit, BurstLoad, Read, Copy, OldTagMatches, Owns;
    if OldTagMatches(b, me, pa) {
      LoadKeepsStale(b, me, pa, a);
    } else {
      LoadSharesModified(b, me, c, pa, a);
    }
  }

  /** A load changes no block but the line it fills. */
  lemma LoadBlocks(b: Bus, me: nat, pa: int, c: nat, x: nat)
    requires At(b, me, pa) && c < |b.caches| && x < LINES && (c != me || x != Index(pa))
    ensures BlockOf(BurstLoad(b, me, pa), c, x) == BlockOf(b, c, x)
  {
    hide WriteBack, LoadBlock, GetBit, FlushOthers;
    Slicing(pa);
    FlushBlocks(b, me, pa, |b.caches|, c, x);
    var b1 := FlushOthers(b, me, pa, |b.caches|);
    Joining(TagOf(b1, me, Index(pa)), Index(pa), 0);
  }

  // ---------- a write ----------

  lemma {:induction false} InvalidatedBlocks(b: Bus, me: nat, pa: int, n: nat, c: nat, x: nat)
    requires At(b, me, pa) && n <= |b.caches| && c < |b.caches| && x < LINES
    ensures BlockOf(InvalidateOthers(b, me, pa, n), c, x) == BlockOf(b, c, x)
  {
    hide GetBit;
    if n > 0 {
      Slicing(pa);
      InvalidatedBlocks(b, me, pa, n - 1, c, x);
    }
  }

  /** A write changes one byte of one block, and pushes a line with another tag out to memory. */
  lemma WriteEffect(b: Bus, me: nat, pa: int, byte: Byte, c: nat, x: nat, a: int)
    requires At(b, me, pa) && c < |b.caches| && x < LINES
    ensures var r := LazyWrite(b, me, pa, byte);
      && BlockOf(r, c, x) == (if c == me && x == Index(pa) then BlockOf(b, c, x)[pa % 64 := byte] else BlockOf(b, c, x))
      && Content(r.m, a) == if !OldTagMatches(b, me, pa) && PushedOut(b, me, pa, a) then OldByte(b, me, pa, a)
                            else Content(b.m, a)
  {
    hide WriteBack, GetBit, InvalidateOthers, Content;
    Slicing(pa);
    Fields(pa);
    var i := Index(pa);
    var b0 := SetValid(b, me, i, E);
    var b1 := InvalidateOthers(b0, me, pa, |b.caches|);
    InvalidatedBlocks(b0, me, pa, |b.caches|, c, x);
    InvalidatedBlocks(b0, me, pa, |b.caches|, me, i);
    InvalidatedLine(b0, me, pa, |b.caches|, me, i);
    Joining(TagOf(b1, me, i), i, Off(pa));
    var low := Origin(TagOf(b1, me, i), i);
    Joining(TagOf(b1, me, i), i, 0);
    CacheValues.InBlock(TagOf(b1, me, i), i, low);
    CacheValues.WriteBackAt(BlockOf(b1, me, i), b1.m, low, Span(low), a);
  }
}
