/** The L1 caches: 256 lines of 64 bytes each, and what their operations do to all of them and to memory. */
module Caches {
  import opened Words
  import opened Paging

  const S_VALUE: nat := 8
  const B_VALUE: nat := 6
  const WORD_SIZE: nat := 32

  const LINES := 256
  const LINE_SIZE := 64
  const TAGS := 0x4_0000

  // the states of a line; E only while a write is under way
  const I := 0
  const M := 1
  const E := 2
  const S := 3

  // ---------- addresses ----------

  function Pow2(n: nat): (r: int)
    ensures r > 0
  {
    if n == 0 then 1 else 2 * Pow2(n - 1)
  }

  /** Bits low..high of a word, except that a single bit always comes out as 0. */
  function GetBit(w: int, low: nat, high: nat): int
    requires low <= high < WORD_SIZE
  {
    if low == high then 0
    else if high - low == WORD_SIZE - 1 then w
    else (w / Pow2(low)) % Pow2(high - low + 1)
  }

  function Index(pa: int): int {
    GetBit(pa, B_VALUE, S_VALUE + B_VALUE - 1)
  }

  function Tag(pa: int): int {
    GetBit(pa, S_VALUE + B_VALUE, WORD_SIZE - 1)
  }

  function Off(pa: int): int {
    GetBit(pa, 0, B_VALUE - 1)
  }

  /** The first address of a block. */
  function Low(pa: int): int {
    pa / LINE_SIZE * LINE_SIZE
  }

  function Origin(tag: int, idx: int): int {
    tag * 16384 + idx * LINE_SIZE
  }

  lemma Powers()
    ensures Pow2(0) == 1 && Pow2(6) == 64 && Pow2(8) == 256 && Pow2(14) == 16384 && Pow2(18) == TAGS
  {
    assert Pow2(4) == 16 && Pow2(8) == 256 && Pow2(12) == 4096 && Pow2(16) == 65536;
  }

  lemma Fields(pa: int)
    requires 0 <= pa < TWO_32
    ensures Off(pa) == pa % 64 && Index(pa) == pa / 64 % 256 && Tag(pa) == pa / 16384
  {
    Powers();
    assert GetBit(pa, 14, 31) == pa / 16384 % TAGS;
    assert 0 <= pa / 16384 < TAGS;
  }

  /** Tag, line and offset cut an address into three parts without loss. */
  lemma Slicing(pa: int)
    requires 0 <= pa < TWO_32
    ensures 0 <= Off(pa) < LINE_SIZE && 0 <= Index(pa) < LINES && 0 <= Tag(pa) < TAGS
    ensures pa == Origin(Tag(pa), Index(pa)) + Off(pa) && Low(pa) == Origin(Tag(pa), Index(pa))
  {
    Fields(pa);
    assert pa / 16384 == pa / 64 / 256;
  }

  /** And they can be put together in one way only. */
  lemma Joining(tag: int, idx: int, off: int)
    requires 0 <= tag < TAGS && 0 <= idx < LINES && 0 <= off < LINE_SIZE
    ensures var pa := Origin(tag, idx) + off;
      0 <= pa < TWO_32 && Tag(pa) == tag && Index(pa) == idx && Off(pa) == off && Low(pa) == Origin(tag, idx)
  {
    var pa := Origin(tag, idx) + off;
    Fields(pa);
    assert pa / 64 == tag * 256 + idx;
  }

  /** get_bit gives bits low..high of w if and only if it is asked for more than one bit or the bit is 0. */
  lemma GetBitExact(w: int, low: nat, high: nat)
    requires 0 <= w < TWO_32 && low <= high < WORD_SIZE
    ensures GetBit(w, low, high) == (w / Pow2(low)) % Pow2(high - low + 1)
        <==> (low < high || (w / Pow2(low)) % 2 == 0)
  {
    assert Pow2(1) == 2;
    if high - low == WORD_SIZE - 1 {
      assert Pow2(32) == TWO_32 by {
        Powers();
        assert Pow2(20) == 4 * TAGS && Pow2(24) == 64 * TAGS && Pow2(28) == 1024 * TAGS;
      }
      assert Pow2(0) == 1;
    }
  }

  // ---------- the caches and memory ----------

  datatype Cache = Cache(valid: seq<int>, tag: seq<int>, block: seq<seq<Byte>>)

  /** All L1 caches over one memory. */
  datatype Bus = Bus(caches: seq<Cache>, m: Phys)

  predicate GoodCache(c: Cache) {
    && |c.valid| == |c.tag| == |c.block| == LINES
    && forall i :: 0 <= i < LINES ==> 0 <= c.tag[i] < TAGS && |c.block[i]| == LINE_SIZE
  }

  predicate GoodBus(b: Bus) {
    forall c :: 0 <= c < |b.caches| ==> GoodCache(b.caches[c])
  }

  predicate Address(pa: int) {
    0 <= pa < TWO_32
  }

  /** How many bytes the loops over a block visit: none in the last block of the address space, whose end wraps to 0. */
  function Span(low: int): nat {
    if low + LINE_SIZE < TWO_32 then LINE_SIZE else 0
  }

  function ByteOf(block: seq<Byte>, a: int): Byte
    requires |block| == LINE_SIZE
  {
    if 0 <= Off(a) < LINE_SIZE then block[Off(a)] else 0
  }

  /** The first n bytes from low on written to memory. */
  function WriteBack(block: seq<Byte>, m: Phys, low: int, n: nat): Phys
    requires |block| == LINE_SIZE
  {
    if n == 0 then m else Put(WriteBack(block, m, low, n - 1), low + n - 1, ByteOf(block, low + n - 1))
  }

  /** The first n bytes from low on read from memory. */
  function LoadBlock(block: seq<Byte>, m: Phys, low: int, n: nat): (r: seq<Byte>)
    requires |block| == LINE_SIZE
    ensures |r| == LINE_SIZE
  {
    if n == 0 then block else
    var b := LoadBlock(block, m, low, n - 1);
    if 0 <= Off(low + n - 1) < LINE_SIZE then b[Off(low + n - 1) := Content(m, low + n - 1)] else b
  }

  function PutByte(block: seq<Byte>, off: int, byte: Byte): (r: seq<Byte>)
    requires 0 <= off < |block|
    ensures |r| == |block|
  {
    block[off := byte]
  }

  predicate At(b: Bus, c: nat, pa: int) {
    GoodBus(b) && c < |b.caches| && Address(pa)
  }

  function Valid(b: Bus, c: nat, x: int): int
    requires GoodBus(b) && c < |b.caches| && 0 <= x < LINES
  {
    b.caches[c].valid[x]
  }

  function TagOf(b: Bus, c: nat, x: int): int
    requires GoodBus(b) && c < |b.caches| && 0 <= x < LINES
  {
    b.caches[c].tag[x]
  }

  function SetValid(b: Bus, c: nat, x: int, v: int): (r: Bus)
    requires GoodBus(b) && c < |b.caches| && 0 <= x < LINES
    ensures GoodBus(r) && |r.caches| == |b.caches| && r.m == b.m
  {
    b.(caches := b.caches[c := b.caches[c].(valid := b.caches[c].valid[x := v])])
  }

  /** Writes the line's block to the block of pa, whatever the line's state and tag. */
  function ImmediateWrite(b: Bus, c: nat, pa: int): (r: Bus)
    requires At(b, c, pa)
    ensures GoodBus(r) && |r.caches| == |b.caches|
  {
    Slicing(pa);
    var x := Index(pa);
    SetValid(b, c, x, S).(m := WriteBack(b.caches[c].block[x], b.m, Low(pa), Span(Low(pa))))
  }

  /** The loop of burst_load over the first n caches. */
  function FlushOthers(b: Bus, me: nat, pa: int, n: nat): (r: Bus)
    requires At(b, me, pa) && n <= |b.caches|
    ensures GoodBus(r) && |r.caches| == |b.caches|
  {
    if n == 0 then b else
    Slicing(pa);
    var b' := FlushOthers(b, me, pa, n - 1);
    if n - 1 != me && TagOf(b', n - 1, Index(pa)) == Tag(pa) && Valid(b', n - 1, Index(pa)) == M then
      ImmediateWrite(b', n - 1, pa)
    else b'
  }

  function BurstLoad(b: Bus, me: nat, pa: int): (r: Bus)
    requires At(b, me, pa)
    ensures GoodBus(r) && |r.caches| == |b.caches|
  {
    Slicing(pa);
    var x := Index(pa);
    var b1 := FlushOthers(b, me, pa, |b.caches|);
    Joining(TagOf(b1, me, x), x, 0);
    var b2 := ImmediateWrite(b1, me, Origin(TagOf(b1, me, x), x));
    var c := b2.caches[me];
    b2.(caches := b2.caches[me := Cache(c.valid[x := S], c.tag[x := Tag(pa)],
                                        c.block[x := LoadBlock(c.block[x], b2.m, Low(pa), Span(Low(pa)))])])
  }

  /** The loop of lazy_write over the first n caches. */
  function InvalidateOthers(b: Bus, me: nat, pa: int, n: nat): (r: Bus)
    requires At(b, me, pa) && n <= |b.caches|
    ensures GoodBus(r) && |r.caches| == |b.caches| && r.m == b.m && r.caches[me] == b.caches[me]
  {
    if n == 0 then b else
    Slicing(pa);
    var b' := InvalidateOthers(b, me, pa, n - 1);
    if n - 1 != me && TagOf(b', n - 1, Index(pa)) == Tag(pa) then SetValid(b', n - 1, Index(pa), I) else b'
  }

  function LazyWrite(b: Bus, me: nat, pa: int, byte: Byte): (r: Bus)
    requires At(b, me, pa)
    ensures GoodBus(r) && |r.caches| == |b.caches|
  {
    Slicing(pa);
    var x := Index(pa);
    var b1 := InvalidateOthers(SetValid(b, me, x, E), me, pa, |b.caches|);
    Joining(TagOf(b1, me, x), x, Off(pa));
    var b2 := if TagOf(b1, me, x) != Tag(pa) then ImmediateWrite(b1, me, Origin(TagOf(b1, me, x), x) + Off(pa)) else b1;
    var c := b2.caches[me];
    b2.(caches := b2.caches[me := Cache(c.valid[x := M], c.tag[x := Tag(pa)],
                                        c.block[x := PutByte(c.block[x], Off(pa), byte)])])
  }

  datatype Lookup = Hit(val: Byte) | Miss

  function Read(b: Bus, me: nat, pa: int): Lookup
    requires At(b, me, pa)
  {
    Slicing(pa);
    var x := Index(pa);
    if Valid(b, me, x) == I || TagOf(b, me, x) != Tag(pa) then Miss else Hit(b.caches[me].block[x][Off(pa)])
  }
}
