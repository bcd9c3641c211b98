/** The L1 cache objects, which change their own lines and those of their peers in place. Every method is tied to the
    function of module Caches that says what it does to all caches and memory. */
module CacheObject {
  import opened Words
  import opened Paging
  import opened VirtualMemory
  import opened Caches

  class L1Cache {
    var valid: seq<int>
    var tag: seq<int>
    var block: seq<seq<Byte>>
    const mem: Mem
    const id: nat

    ghost function Value(): Cache
      reads this
    {
      Cache(valid, tag, block)
    }

    /** All lines are invalid, and zero. */
    constructor (mem: Mem, id: nat)
      ensures this.mem == mem && this.id == id && GoodCache(Value())
      ensures forall x :: 0 <= x < LINES ==> valid[x] == I && tag[x] == 0 && block[x] == Zeros(LINE_SIZE)
    {
      this.mem, this.id := mem, id;
      valid := seq(LINES, i => I);
      tag := seq(LINES, i => 0);
      block := seq(LINES, i => Zeros(LINE_SIZE));
    }

    /** The member of the list that all caches share; the position of a cache is its id. */
    ghost predicate In(all: seq<L1Cache>) {
      && (forall i :: 0 <= i < |all| ==> all[i].id == i && all[i].mem == mem)
      && id < |all| && all[id] == this
    }

    method Read(all: seq<L1Cache>, pa: int) returns (r: Lookup)
      requires In(all) && At(BusOf(all, mem), id, pa)
      ensures r == Caches.Read(BusOf(all, mem), id, pa)
    {
      Slicing(pa);
      assert BusOf(all, mem).caches[id] == Value();
      var idx := Index(pa);
      if valid[idx] == I {
        return Miss;
      }
      if Tag(pa) != tag[idx] {
        return Miss;
      }
      r := Hit(block[idx][Off(pa)]);
    }

    /** The bytes from the block of pa on go to memory. */
    method ImmediateWrite(pa: int)
      requires GoodCache(Value()) && Address(pa)
      modifies this`valid, mem`mem
      ensures 0 <= Index(pa) < LINES
      ensures valid == old(valid)[Index(pa) := S]
      ensures mem.Value() == WriteBack(block[Index(pa)], old(mem.Value()), Low(pa), Span(Low(pa)))
    {
      hide GetBit, ByteOf;
      Slicing(pa);
      var idx := Index(pa);
      var low := Low(pa);
      var high := ToWord(low + LINE_SIZE);
      var i := low;
      while i < high
        invariant low <= i && (i == low || i <= high)
        invariant mem.Value() == WriteBack(block[idx], old(mem.Value()), low, i - low)
        modifies mem`mem
      {
        mem.Write(i, ByteOf(block[idx], i));
        i := i + 1;
      }
      valid := valid[idx := S];
    }

    /** Modified copies of the block elsewhere are written back. */
    method FlushOthers(all: seq<L1Cache>, pa: int)
      requires In(all) && At(BusOf(all, mem), id, pa)
      modifies all, mem`mem
      ensures BusOf(all, mem) == Caches.FlushOthers(old(BusOf(all, mem)), id, pa, |all|)
    {
      hide WriteBack, GetBit, Caches.ImmediateWrite;
      Slicing(pa);
      var k := 0;
      while k < |all|
        invariant k <= |all| && GoodBus(BusOf(all, mem))
        invariant BusOf(all, mem) == Caches.FlushOthers(old(BusOf(all, mem)), id, pa, k)
      {
        CacheAt(all, mem, k);
        if all[k] != this && all[k].tag[Index(pa)] == Tag(pa) && all[k].valid[Index(pa)] == M {
          WriteBackAt(all, k, pa);
        }
        k := k + 1;
      }
    }

    /** One of the caches writes a block back. */
    method WriteBackAt(all: seq<L1Cache>, k: nat, pa: int)
      requires In(all) && k < |all| && At(BusOf(all, mem), k, pa)
      modifies all[k], mem`mem
      ensures BusOf(all, mem) == Caches.ImmediateWrite(old(BusOf(all, mem)), k, pa)
    {
      hide WriteBack, GetBit;
      CacheAt(all, mem, k);
      ghost var bus := BusOf(all, mem);
      all[k].ImmediateWrite(pa);
      BusIs(all, mem, bus.caches[k := all[k].Value()]);
    }

    /** The block of pa comes into this cache; first the line it takes over goes to memory, valid or not. */
    method BurstLoad(all: seq<L1Cache>, pa: int)
      requires In(all) && At(BusOf(all, mem), id, pa)
      modifies all, mem`mem
      ensures BusOf(all, mem) == Caches.BurstLoad(old(BusOf(all, mem)), id, pa)
    {
      hide WriteBack, GetBit, Caches.ImmediateWrite, Caches.FlushOthers, LoadBlock;
      Slicing(pa);
      var idx := Index(pa);
      FlushOthers(all, pa);
      CacheAt(all, mem, id);
      Joining(tag[idx], idx, 0);
      WriteBackAt(all, id, Origin(tag[idx], idx));
      ghost var bus := BusOf(all, mem);
      CacheAt(all, mem, id);
      Fill(pa);
      tag := tag[idx := Tag(pa)];
      valid := valid[idx := S];
      BusIs(all, mem, bus.caches[id := Value()]);
    }

    method Fill(pa: int)
      requires GoodCache(Value()) && Address(pa)
      modifies this`block
      ensures 0 <= Index(pa) < LINES
      ensures block == old(block)[Index(pa) := LoadBlock(old(block)[Index(pa)], mem.Value(), Low(pa), Span(Low(pa)))]
    {
      hide GetBit, Content;
      Slicing(pa);
      var idx := Index(pa);
      var low := Low(pa);
      var high := ToWord(low + LINE_SIZE);
      var i := low;
      ghost var line := block[idx];
      while i < high
        invariant low <= i && (i == low || i <= high)
        invariant |block| == LINES && block[idx] == LoadBlock(line, mem.Value(), low, i - low)
        invariant forall x :: 0 <= x < LINES && x != idx ==> block[x] == old(block)[x]
      {
        var b := mem.Read(i);
        Slicing(i);
        block := block[idx := Caches.PutByte(block[idx], Off(i), b)];
        i := i + 1;
      }
    }

    /** Copies of the block elsewhere become invalid. */
    method InvalidateOthers(all: seq<L1Cache>, pa: int)
      requires In(all) && At(BusOf(all, mem), id, pa)
      modifies all
      ensures BusOf(all, mem) == Caches.InvalidateOthers(old(BusOf(all, mem)), id, pa, |all|)
    {
      hide GetBit;
      Slicing(pa);
      var k := 0;
      while k < |all|
        invariant k <= |all| && GoodBus(BusOf(all, mem))
        invariant BusOf(all, mem) == Caches.InvalidateOthers(old(BusOf(all, mem)), id, pa, k)
      {
        CacheAt(all, mem, k);
        if all[k] != this && all[k].tag[Index(pa)] == Tag(pa) {
          MarkLine(all, k, Index(pa), I);
        }
        k := k + 1;
      }
    }

    method MarkLine(all: seq<L1Cache>, k: nat, x: nat, state: int)
      requires In(all) && GoodBus(BusOf(all, mem)) && k < |all| && x < LINES
      modifies all[k]
      ensures BusOf(all, mem) == SetValid(old(BusOf(all, mem)), k, x, state)
    {
      CacheAt(all, mem, k);
      ghost var bus := BusOf(all, mem);
      all[k].valid := all[k].valid[x := state];
      BusIs(all, mem, bus.caches[k := all[k].Value()]);
    }

    /** A byte is written into this cache only. On a miss the line is written back and taken over, not loaded. */
    method LazyWrite(all: seq<L1Cache>, pa: int, byte: Byte)
      requires In(all) && At(BusOf(all, mem), id, pa)
      modifies all, mem`mem
      ensures BusOf(all, mem) == Caches.LazyWrite(old(BusOf(all, mem)), id, pa, byte)
    {
      hide WriteBack, GetBit, Caches.ImmediateWrite, Caches.InvalidateOthers;
      Slicing(pa);
      var idx := Index(pa);
      MarkLine(all, id, idx, E);
      InvalidateOthers(all, pa);
      CacheAt(all, mem, id);
      Joining(tag[idx], idx, Off(pa));
      if tag[idx] != Tag(pa) {
        WriteBackAt(all, id, Origin(tag[idx], idx) + Off(pa));
      }
      ghost var bus := BusOf(all, mem);
      CacheAt(all, mem, id);
      block := block[idx := Caches.PutByte(block[idx], Off(pa), byte)];
      tag := tag[idx := Tag(pa)];
      valid := valid[idx := M];
      BusIs(all, mem, bus.caches[id := Value()]);
    }
  }

  lemma CacheAt(all: seq<L1Cache>, mem: Mem, k: nat)
    requires k < |all| && GoodBus(BusOf(all, mem))
    ensures BusOf(all, mem).caches[k] == all[k].Value() && GoodCache(all[k].Value())
  {
  }

  lemma BusIs(all: seq<L1Cache>, mem: Mem, caches: seq<Cache>)
    requires |caches| == |all| && forall i :: 0 <= i < |all| ==> all[i].Value() == caches[i]
    ensures BusOf(all, mem) == Bus(caches, mem.Value())
  {
  }

  ghost function BusOf(all: seq<L1Cache>, mem: Mem): Bus
    reads all, mem
  {
    Bus(seq(|all|, i requires 0 <= i < |all| reads all => all[i].Value()), mem.Value())
  }
}
