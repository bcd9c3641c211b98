/** The states of the lines of any number of caches: at most one holds a block for writing. */
module CacheStates {
  import opened Words
  import opened Caches

  predicate Exclusive(b: Bus, c: nat, d: nat, x: nat)
    requires GoodBus(b) && c < |b.caches| && d < |b.caches| && x < LINES
  {
    Valid(b, c, x) == M && TagOf(b, d, x) == TagOf(b, c, x) ==> Valid(b, d, x) == I
  }

  /** A modified line is the only valid copy of its block, and no line rests in the transient state. */
  ghost predicate Coherent(b: Bus) {
    && GoodBus(b)
    && (forall c: nat, d: nat, x: nat :: c < |b.caches| && d < |b.caches| && c != d && x < LINES ==>
          Exclusive(b, c, d, x))
    && (forall c: nat, x: nat :: c < |b.caches| && x < LINES ==> Valid(b, c, x) in {I, M, S})
  }

  lemma {:induction false} FlushedLine(b: Bus, me: nat, pa: int, n: nat, c: nat, x: nat)
    requires At(b, me, pa) && n <= |b.caches| && c < |b.caches| && x < LINES
    ensures var r := FlushOthers(b, me, pa, n);
      && TagOf(r, c, x) == TagOf(b, c, x)
      && Valid(r, c, x) ==
         if c < n && c != me && x == Index(pa) && TagOf(b, c, x) == Tag(pa) && Valid(b, c, x) == M then S
         else Valid(b, c, x)
  {
    hide WriteBack, GetBit;
    if n > 0 {
      Slicing(pa);
      FlushedLine(b, me, pa, n - 1, c, x);
      FlushedLine(b, me, pa, n - 1, n - 1, Index(pa));
    }
  }

  lemma {:induction false} InvalidatedLine(b: Bus, me: nat, pa: int, n: nat, c: nat, x: nat)
    requires At(b, me, pa) && n <= |b.caches| && c < |b.caches| && x < LINES
    ensures var r := InvalidateOthers(b, me, pa, n);
      && TagOf(r, c, x) == TagOf(b, c, x)
      && Valid(r, c, x) ==
         if c < n && c != me && x == Index(pa) && TagOf(b, c, x) == Tag(pa) then I else Valid(b, c, x)
  {
    hide GetBit;
    if n > 0 {
      Slicing(pa);
      InvalidatedLine(b, me, pa, n - 1, c, x);
      InvalidatedLine(b, me, pa, n - 1, n - 1, Index(pa));
    }
  }

  /** A load makes its line shared (3), and a modified copy (1) elsewhere too. */
  lemma BurstLoadLine(b: Bus, me: nat, pa: int, c: nat, x: nat)
    requires At(b, me, pa) && c < |b.caches| && x < LINES
    ensures var r := BurstLoad(b, me, pa);
      if x != Index(pa) then Valid(r, c, x) == Valid(b, c, x) && TagOf(r, c, x) == TagOf(b, c, x)
      else if c == me then Valid(r, c, x) == 3 && TagOf(r, c, x) == Tag(pa)
      else TagOf(r, c, x) == TagOf(b, c, x) &&
           Valid(r, c, x) == if TagOf(b, c, x) == Tag(pa) && Valid(b, c, x) == 1 then 3 else Valid(b, c, x)
  {
    hide WriteBack, LoadBlock, GetBit, FlushOthers;
    Slicing(pa);
    FlushedLine(b, me, pa, |b.caches|, c, x);
    var b1 := FlushOthers(b, me, pa, |b.caches|);
    Joining(TagOf(b1, me, Index(pa)), Index(pa), 0);
  }

  /** A write makes its line modified (1), and copies elsewhere invalid (0). */
  lemma LazyWriteLine(b: Bus, me: nat, pa: int, byte: Byte, c: nat, x: nat)
    requires At(b, me, pa) && c < |b.caches| && x < LINES
    ensures var r := LazyWrite(b, me, pa, byte);
      if x != Index(pa) then Valid(r, c, x) == Valid(b, c, x) && TagOf(r, c, x) == TagOf(b, c, x)
      else if c == me then Valid(r, c, x) == 1 && TagOf(r, c, x) == Tag(pa)
      else TagOf(r, c, x) == TagOf(b, c, x) &&
           Valid(r, c, x) == if TagOf(b, c, x) == Tag(pa) then 0 else Valid(b, c, x)
  {
    hide WriteBack, GetBit, InvalidateOthers;
    Slicing(pa);
    var b0 := SetValid(b, me, Index(pa), E);
    InvalidatedLine(b0, me, pa, |b.caches|, c, x);
    var b1 := InvalidateOthers(b0, me, pa, |b.caches|);
    Joining(TagOf(b1, me, Index(pa)), Index(pa), Off(pa));
  }

  /** A cache that has written a byte holds it, among any number of caches; every other cache misses there. */
  lemma WriteThenRead(b: Bus, me: nat, pa: int, byte: Byte, c: nat)
    requires At(b, me, pa) && c < |b.caches|
    ensures var r := LazyWrite(b, me, pa, byte); Read(r, c, pa) == if c == me then Hit(byte) else Miss
  {
    hide WriteBack, GetBit, InvalidateOthers;
    Slicing(pa);
    LazyWriteLine(b, me, pa, byte, c, Index(pa));
    var b1 := InvalidateOthers(SetValid(b, me, Index(pa), E), me, pa, |b.caches|);
    Joining(TagOf(b1, me, Index(pa)), Index(pa), Off(pa));
  }

  datatype Op = Load(cache: nat, pa: int) | Write(cache: nat, pa: int, byte: Byte)

  function Step(b: Bus, op: Op): (r: Bus)
    requires At(b, op.cache, op.pa)
    ensures GoodBus(r) && |r.caches| == |b.caches|
  {
    match op
    case Load(c, pa) => BurstLoad(b, c, pa)
    case Write(c, pa, byte) => LazyWrite(b, c, pa, byte)
  }

  lemma StepKeepsCoherent(b: Bus, op: Op)
    requires Coherent(b) && At(b, op.cache, op.pa)
    ensures Coherent(Step(b, op))
  {
    hide BurstLoad, LazyWrite, GetBit;
    var r := Step(b, op);
    forall c: nat, x: nat | c < |b.caches| && x < LINES ensures Valid(r, c, x) in {I, M, S} {
      StepLine(b, op, c, x);
    }
    forall c: nat, d: nat, x: nat | c < |b.caches| && d < |b.caches| && c != d && x < LINES
      ensures Exclusive(r, c, d, x)
    {
      assert Exclusive(b, c, d, x);
      StepLine(b, op, c, x);
      StepLine(b, op, d, x);
    }
  }

  lemma StepLine(b: Bus, op: Op, c: nat, x: nat)
    requires At(b, op.cache, op.pa) && c < |b.caches| && x < LINES
    ensures var r := Step(b, op); var mine := c == op.cache; var t := Tag(op.pa);
      if x != Index(op.pa) then Valid(r, c, x) == Valid(b, c, x) && TagOf(r, c, x) == TagOf(b, c, x)
      else if mine then Valid(r, c, x) == (if op.Load? then S else M) && TagOf(r, c, x) == t
      else TagOf(r, c, x) == TagOf(b, c, x) &&
           Valid(r, c, x) == if TagOf(b, c, x) != t then Valid(b, c, x)
                             else if op.Write? then I
                             else if Valid(b, c, x) == M then S else Valid(b, c, x)
  {
    hide BurstLoad, LazyWrite, GetBit;
    match op
    case Load(me, pa) => BurstLoadLine(b, me, pa, c, x);
    case Write(me, pa, byte) => LazyWriteLine(b, me, pa, byte, c, x);
  }

  predicate OpsFit(n: nat, ops: seq<Op>) {
    forall i :: 0 <= i < |ops| ==> ops[i].cache < n && Address(ops[i].pa)
  }

  function Run(b: Bus, ops: seq<Op>): (r: Bus)
    requires GoodBus(b) && OpsFit(|b.caches|, ops)
    ensures GoodBus(r)
    decreases |ops|
  {
    if ops == [] then b else Run(Step(b, ops[0]), ops[1..])
  }

  /** Over any sequence of loads and writes by any number of caches there is a single writer of each block. */
  lemma {:induction false} SingleWriter(b: Bus, ops: seq<Op>)
    requires Coherent(b) && OpsFit(|b.caches|, ops)
    ensures Coherent(Run(b, ops))
    decreases |ops|
  {
    hide Step;
    if ops != [] {
      StepKeepsCoherent(b, ops[0]);
      SingleWriter(Step(b, ops[0]), ops[1..]);
    }
  }
}
