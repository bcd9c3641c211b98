/** The simulator's memory and address-space objects, which change in place. Every method is tied to the function of
    module Paging that says what it does. */
module VirtualMemory {
  import opened Words
  import opened Paging

  class Mem {
    var mem: map<int, Byte>
    var allocated_page: set<int>

    ghost function Value(): Phys
      reads this
    {
      Phys(mem, allocated_page)
    }

    constructor ()
      ensures Value() == Phys(map[], {})
    {
      mem, allocated_page := map[], {};
    }

    method Read(pa: int) returns (b: Byte)
      ensures b == Content(Value(), pa)
    {
      b := if pa in mem then mem[pa] else 0;
    }

    method Write(pa: int, b: Byte)
      modifies this`mem
      ensures Value() == Put(old(Value()), pa, b)
    {
      mem := mem[pa := b];
    }

    method AllocatePage() returns (page: int, error: int)
      modifies this`allocated_page
      ensures Allocation(page, Value(), error) == Paging.AllocatePage(old(Value()))
    {
      var i := 0;
      while i < FRAME_LIMIT - 1
        invariant 0 <= i <= FRAME_LIMIT && i % PAGE_SIZE == 0
        invariant FirstFree(allocated_page, 0) == FirstFree(allocated_page, i)
        invariant allocated_page == old(allocated_page)
      {
        if i !in allocated_page {
          allocated_page := allocated_page + {i};
          return i, 0;
        }
        i := i + PAGE_SIZE;
      }
      return 0, 1;
    }
  }

  /** The entries of the pages from lo up to, but not including, hi turned read-only. */
  ghost function Marks(valid: map<int, int>, lo: int, hi: int): map<int, int> {
    valid + map p | lo <= p < hi && p % PAGE_SIZE == 0 :: PTE_RONLY
  }

  lemma MarksNext(valid: map<int, int>, lo: int, p: int)
    requires lo <= p && lo % PAGE_SIZE == 0 && p % PAGE_SIZE == 0
    ensures Marks(valid, lo, p + PAGE_SIZE) == Marks(valid, lo, p)[p := PTE_RONLY]
    ensures Marks(valid, lo, lo) == valid
  {
    var l, r := Marks(valid, lo, p + PAGE_SIZE), Marks(valid, lo, p)[p := PTE_RONLY];
    forall q ensures (q in l <==> q in r) && (q in l ==> l[q] == r[q]) {
      if q % PAGE_SIZE == 0 {
        NextPage(p, q);
      }
    }
  }

  lemma MarksAll(valid: map<int, int>, x: Area, p: int)
    requires Splits(x) && p % PAGE_SIZE == 0 && PageOf(x.end) < p
    requires p == PageOf(x.start) || p <= PageOf(x.end) + PAGE_SIZE
    ensures Marks(valid, PageOf(x.start), p) == MarkArea(valid, x)
  {
    hide PageOf;
    var l, r := Marks(valid, PageOf(x.start), p), MarkArea(valid, x);
    forall q ensures (q in l <==> q in r) && (q in l ==> l[q] == r[q]) {
      if q % PAGE_SIZE == 0 && PageOf(x.start) <= q {
        NextPage(q, p);
      }
    }
  }

  lemma NextPage(q: int, p: int)
    requires q % PAGE_SIZE == 0 && p % PAGE_SIZE == 0
    ensures q < p <==> q + PAGE_SIZE <= p
  {
  }

  class VM {
    var pgd: map<int, int>
    var pgd_valid: map<int, int>
    var vm_area: seq<Area>
    const mem: Mem
    const pid: int

    ghost function Value(): Space
      reads this
    {
      Space(pgd, pgd_valid, vm_area)
    }

    constructor (mem: Mem, pid: int)
      ensures this.mem == mem && this.pid == pid && Value() == Space(map[], map[], [])
    {
      this.mem, this.pid := mem, pid;
      pgd, pgd_valid, vm_area := map[], map[], [];
    }

    /** The copy constructor fork uses. */
    constructor Copy(vm: VM, pid: int)
      ensures mem == vm.mem && this.pid == pid && Value() == vm.Value()
    {
      this.mem, this.pid := vm.mem, pid;
      pgd, pgd_valid, vm_area := vm.pgd, vm.pgd_valid, vm.vm_area;
    }

    method AllocatePagePte(addr: int) returns (error: int)
      modifies this`pgd, this`pgd_valid, mem`allocated_page
      ensures VmState(Value(), mem.Value()) == Paging.AllocatePagePte(old(Value()), old(mem.Value()), addr)
      ensures error == PteError(old(Value()), addr)
    {
      if addr % PAGE_SIZE != 0 {
        return 1;
      }
      if addr in pgd_valid && pgd_valid[addr] != 0 {
        return 2;
      }
      var page: int;
      page, error := mem.AllocatePage();
      pgd := pgd[addr := page];
      pgd_valid := pgd_valid[addr := PTE_RW];
      error := 0;
    }

    /** The frame is not given back; only the entry becomes invalid. */
    method FreePagePte(addr: int) returns (error: int)
      modifies this`pgd_valid
      ensures Value() == old(Value()).(valid := old(pgd_valid)[PageOf(addr) := PTE_INVALID]) && error == 0
    {
      error := 0;
      pgd_valid := pgd_valid[PageOf(addr) := PTE_INVALID];
    }

    /** The first area whose closed range holds a, if any. */
    method FindArea(a: int) returns (i: nat)
      ensures i <= |vm_area| && (i < |vm_area| <==> InAnArea(vm_area, a))
      ensures i < |vm_area| ==> vm_area[i].prot == ProtAt(vm_area, a)
    {
      i := 0;
      while i < |vm_area|
        invariant i <= |vm_area|
        invariant forall j :: 0 <= j < i ==> !Covers(vm_area[j], a)
        invariant ProtAt(vm_area, a) == ProtAt(vm_area[i..], a)
      {
        if vm_area[i].start <= a && a <= vm_area[i].end {
          return;
        }
        assert vm_area[i..][1..] == vm_area[i + 1..];
        i := i + 1;
      }
    }

    /** Looking up the frame of a page without frame enters frame 0 for it. */
    method Translate(a: int) returns (pa: int)
      modifies this`pgd
      ensures pa == PhyAddr(old(Value()), a)
      ensures pgd == old(pgd)[PageOf(a) := Frame(old(Value()), PageOf(a))]
    {
      if PageOf(a) !in pgd {
        pgd := pgd[PageOf(a) := 0];
      }
      pa := pgd[PageOf(a)] + Offset(a);
    }

    method Read(a: int, errorIn: int) returns (b: Byte, error: int)
      modifies this`pgd
      ensures ReadResult(b, error) == ReadVm(old(Value()), mem.Value(), a, errorIn)
      ensures Value() == ReadSpace(old(Value()), a)
    {
      if PageOf(a) !in pgd_valid || pgd_valid[PageOf(a)] == PTE_INVALID {
        return 0, 1;
      }
      var i := FindArea(a);
      if i == |vm_area| {
        return 0, 2;
      }
      if vm_area[i].prot !in {RONLY, RW, COPY_ON_WRITE} {
        return 0, 3;
      }
      var pa := Translate(a);
      if errorIn != 0 {
        return 0, errorIn;
      }
      b := mem.Read(pa);
      error := 0;
    }

    /** The bytes of a page, or zeros if an error is pending. In the last page of the address space the loop ends
        before it begins, and the buffer holds anything. */
    method ReadPage(page: int, error: int) returns (buf: array<Byte>)
      requires 0 <= page < TWO_32 && page % PAGE_SIZE == 0
      modifies this`pgd
      ensures fresh(buf) && buf.Length == PAGE_SIZE
      ensures pgd == if LastPage(page) then old(pgd) else old(pgd)[page := Frame(old(Value()), page)]
      ensures !LastPage(page) ==> forall k :: 0 <= k < PAGE_SIZE ==>
                buf[k] == if error != 0 then 0 else Content(mem.Value(), Frame(old(Value()), page) + k)
    {
      ghost var from := Frame(Value(), page);
      buf := new Byte[PAGE_SIZE];
      EndOfPage(page);
      var end := ToWord(page + PAGE_SIZE);
      var t := page;
      while t < end
        invariant page <= t && (t == page || t <= end)
        invariant forall k :: 0 <= k < t - page ==> buf[k] == if error != 0 then 0 else Content(mem.Value(), from + k)
        invariant pgd == if t == page then old(pgd) else old(pgd)[page := from]
        modifies this`pgd, buf
      {
        SamePage(page, t);
        var pa := Translate(t);
        var b: Byte := 0;
        if error == 0 {
          b := mem.Read(pa);
        }
        buf[t - page] := b;
        t := t + 1;
      }
    }

    method WritePage(page: int, buf: array<Byte>)
      requires 0 <= page < TWO_32 && page % PAGE_SIZE == 0 && page in pgd && buf.Length == PAGE_SIZE
      modifies this`pgd, mem`mem
      ensures pgd == old(pgd)
      ensures mem.mem == if LastPage(page) then old(mem.mem)
                         else old(mem.mem) + Buffer(buf[..], pgd[page], PAGE_SIZE)
    {
      hide Buffer, Within;
      EndOfPage(page);
      var end := ToWord(page + PAGE_SIZE);
      var t := page;
      BufferNext(buf[..], pgd[page], 0);
      while t < end
        invariant page <= t && (t == page || t <= end)
        invariant pgd == old(pgd)
        invariant mem.mem == old(mem.mem) + Buffer(buf[..], pgd[page], t - page)
      {
        SamePage(page, t);
        var pa := Translate(t);
        BufferNext(buf[..], pgd[page], t - page);
        mem.Write(pa, buf[t - page]);
        t := t + 1;
      }
    }

    /** The page's bytes go through a buffer into a frame of its own. */
    method CopyPage(page: int, error: int)
      requires 0 <= page < TWO_32 && page % PAGE_SIZE == 0
      modifies this`pgd, this`pgd_valid, mem
      ensures VmState(Value(), mem.Value()) == Paging.CopyPage(old(Value()), old(mem.Value()), page, error)
    {
      hide Content, FirstFree, CopyFrame, ZeroFrame, Buffer, LastPage;
      ghost var from := Frame(Value(), page);
      var buf := ReadPage(page, error);
      var frame, _ := mem.AllocatePage();
      pgd := pgd[page := frame];
      pgd_valid := pgd_valid[page := PTE_RW];
      WritePage(page, buf);
      if !LastPage(page) {
        if error == 0 {
          BufferIsFrame(buf[..], old(mem.Value()), Paging.AllocatePage(old(mem.Value())).m, from, frame);
        } else {
          BufferIsZero(buf[..], Paging.AllocatePage(old(mem.Value())).m, frame);
        }
      }
    }

    /** Nothing the checks find stops the write, unless no area holds the address. */
    method Write(a: int, errorIn: int, b: Byte) returns (error: int)
      requires 0 <= a < TWO_32
      modifies this`pgd, this`pgd_valid, mem
      ensures error == WriteError(old(Value()), a)
      ensures VmState(Value(), mem.Value()) == WriteVm(old(Value()), old(mem.Value()), a, b, errorIn)
    {
      hide Paging.CopyPage;
      var page := PageOf(a);
      var i := FindArea(a);
      if i == |vm_area| {
        return 1;
      }
      if vm_area[i].prot == COPY_ON_WRITE && page in pgd_valid && pgd_valid[page] == PTE_RONLY {
        CopyPage(page, errorIn);
      }
      var pa := Translate(a);
      mem.Write(pa, b);
      error := 0;
    }

    /** Maps the pages of a section, writes its bytes under a read-write area, and sets the area's protection. */
    method AllocateSection(name: string, start: int, data: seq<Byte>, data_byte: nat, init: bool, prot: int,
                           errorIn: int)
      returns (next: int, error: int)
      requires init ==> |data| == data_byte
      requires 0 <= start && start + data_byte < TWO_32 - PAGE_SIZE
      modifies this`pgd, this`pgd_valid, this`vm_area, mem
      ensures var bytes := if init then data else Zeros(data_byte);
        && VmState(Value(), mem.Value())
           == Paging.AllocateSection(old(Value()), old(mem.Value()), name, start, bytes, prot, errorIn)
        && error == SectionError(bytes, errorIn)
      ensures next == start + data_byte
    {
      hide WriteVm, Paging.AllocatePagePte, Covers;
      var end := start + data_byte;
      var bytes := if init then data else Zeros(data_byte);
      error := MapSection(start, end, errorIn);
      vm_area := vm_area + [Area(start, end, RW, PRIVATE, name)];
      error := WriteSection(start, bytes, error);
      if bytes != [] {
        InLastArea(old(vm_area), Area(start, end, RW, PRIVATE, name), end - 1);
      }
      vm_area := vm_area[..|vm_area| - 1];
      assert vm_area == old(vm_area);
      vm_area := vm_area + [Area(start, end, prot, PRIVATE, name)];
      next := end;
    }

    method MapSection(start: int, end: int, errorIn: int) returns (error: int)
      requires 0 <= start && end < TWO_32 - PAGE_SIZE
      modifies this`pgd, this`pgd_valid, mem`allocated_page
      ensures VmState(Value(), mem.Value()) == MapPages(old(Value()), old(mem.Value()), start, end)
      ensures error == MapError(old(Value()), old(mem.Value()), start, end, errorIn)
      ensures start >= end ==> error == errorIn
    {
      hide Paging.AllocatePagePte, PageOf, PteError;
      error := errorIn;
      var addr := start;
      while addr < end
        invariant vm_area == old(vm_area) && mem.mem == old(mem.mem)
        invariant addr == start ==> error == errorIn
        invariant MapPages(Value(), mem.Value(), addr, end) == MapPages(old(Value()), old(mem.Value()), start, end)
        invariant MapError(Value(), mem.Value(), addr, end, error)
               == MapError(old(Value()), old(mem.Value()), start, end, errorIn)
      {
        if PageOf(addr) !in pgd || PageOf(addr) !in pgd_valid || pgd_valid[PageOf(addr)] == PTE_INVALID {
          error := AllocatePagePte(addr);
        }
        addr := addr + PAGE_SIZE;
      }
    }

    method WriteSection(start: int, data: seq<Byte>, errorIn: int) returns (error: int)
      requires 0 <= start && start + |data| < TWO_32 - PAGE_SIZE
      modifies this`pgd, this`pgd_valid, mem
      ensures vm_area == old(vm_area)
      ensures VmState(Value(), mem.Value()) == WriteAll(old(Value()), old(mem.Value()), start, data, errorIn)
      ensures error == if data == [] then errorIn else if InAnArea(vm_area, start + |data| - 1) then 0 else 1
    {
      hide WriteVm, PageOf;
      var i := 0;
      error := errorIn;
      while i < |data|
        invariant 0 <= i <= |data| && vm_area == old(vm_area)
        invariant error == if i == 0 then errorIn else if InAnArea(vm_area, start + i - 1) then 0 else 1
        invariant WriteAll(Value(), mem.Value(), start + i, data[i..], error)
               == WriteAll(old(Value()), old(mem.Value()), start, data, errorIn)
      {
        assert data[i..][1..] == data[i + 1..];
        ghost var s, m, e := Value(), mem.Value(), error;
        error := Write(start + i, error, data[i]);
        WriteKeepsAreas(s, m, start + i, data[i], e);
        i := i + 1;
      }
    }

    /** The loops of fork over the areas of an address space and the pages each one touches. */
    method MakeCopyOnWrite()
      requires forall x :: x in vm_area && Splits(x) ==> 0 <= x.start && x.end < TWO_32 - PAGE_SIZE
      modifies this`pgd_valid, this`vm_area
      ensures Value() == ForkSpace(old(Value()))
    {
      hide PageOf, MarkArea;
      var i := 0;
      while i < |vm_area|
        invariant 0 <= i <= |vm_area| == |old(vm_area)|
        invariant forall j :: 0 <= j < |vm_area| ==>
                    vm_area[j] == if j < i then ForkArea(old(vm_area)[j]) else old(vm_area)[j]
        invariant MarkAreas(pgd_valid, old(vm_area)[i..]) == MarkAreas(old(pgd_valid), old(vm_area))
        modifies this`pgd_valid, this`vm_area
      {
        assert old(vm_area)[i..][1..] == old(vm_area)[i + 1..];
        assert vm_area[i] == old(vm_area)[i] && old(vm_area)[i] in old(vm_area);
        if vm_area[i].flags == PRIVATE && vm_area[i].prot == RW {
          MarkPages(vm_area[i]);
          vm_area := vm_area[i := vm_area[i].(prot := COPY_ON_WRITE)];
        } else {
          NotSplit(pgd_valid, vm_area[i]);
        }
        i := i + 1;
      }
      assert vm_area == ForkAreas(old(vm_area));
    }

    method MarkPages(x: Area)
      requires Splits(x) && 0 <= x.start && x.end < TWO_32 - PAGE_SIZE
      modifies this`pgd_valid
      ensures pgd_valid == MarkArea(old(pgd_valid), x)
    {
      hide Marks, MarkArea;
      var p, end := PageOf(x.start), PageOf(x.end);
      MarksNext(pgd_valid, p, p);
      while p <= end
        invariant p % PAGE_SIZE == 0 && p >= PageOf(x.start) && (p == PageOf(x.start) || p <= end + PAGE_SIZE)
        invariant pgd_valid == Marks(old(pgd_valid), PageOf(x.start), p)
        decreases end - p
      {
        MarksNext(old(pgd_valid), PageOf(x.start), p);
        pgd_valid := pgd_valid[p := PTE_RONLY];
        p := p + PAGE_SIZE;
      }
      MarksAll(old(pgd_valid), x, p);
    }
  }

  lemma WriteKeepsAreas(s: Space, m: Phys, a: int, b: Byte, error: int)
    ensures WriteVm(s, m, a, b, error).s.areas == s.areas
  {
    hide InAnArea, MustCopy, PageOf, FirstFree, CopyFrame, ZeroFrame;
  }

  lemma InLastArea(areas: seq<Area>, x: Area, a: int)
    requires x.start <= a <= x.end
    ensures InAnArea(areas + [x], a)
  {
    assert (areas + [x])[|areas|] == x;
  }

  /** Where the loops over a page end. */
  lemma EndOfPage(page: int)
    requires 0 <= page < TWO_32 && page % PAGE_SIZE == 0
    ensures LastPage(page) ==> ToWord(page + PAGE_SIZE) == 0
    ensures !LastPage(page) ==> ToWord(page + PAGE_SIZE) == page + PAGE_SIZE
  {
  }

  lemma NotSplit(valid: map<int, int>, x: Area)
    requires !Splits(x)
    ensures MarkArea(valid, x) == valid && ForkArea(x) == x
  {
  }

  /** The first k bytes of a buffer placed in a frame. */
  ghost function Buffer(buf: seq<Byte>, frame: int, k: nat): map<int, Byte>
    requires k <= |buf|
  {
    map pa | frame <= pa < frame + k && Within(pa, frame, k) :: buf[pa - frame]
  }

  predicate Within(pa: int, frame: int, k: int) {
    frame <= pa < frame + k
  }

  lemma BufferNext(buf: seq<Byte>, frame: int, k: nat)
    requires k < |buf|
    ensures Buffer(buf, frame, k + 1) == Buffer(buf, frame, k)[frame + k := buf[k]]
    ensures Buffer(buf, frame, 0) == map[]
  {
    var l, r := Buffer(buf, frame, k + 1), Buffer(buf, frame, k)[frame + k := buf[k]];
    forall pa ensures (pa in l <==> pa in r) && (pa in l ==> l[pa] == r[pa]) {
      assert Within(pa, frame, k + 1) <==> Within(pa, frame, k) || pa == frame + k;
    }
  }

  lemma BufferIsFrame(buf: seq<Byte>, m: Phys, m1: Phys, from: int, to: int)
    requires m1.mem == m.mem && |buf| == PAGE_SIZE
    requires forall k :: 0 <= k < PAGE_SIZE ==> buf[k] == Content(m, from + k)
    ensures m1.(mem := m.mem + Buffer(buf, to, PAGE_SIZE)) == CopyFrame(m1, from, to)
  {
    hide Content;
    var l := Buffer(buf, to, PAGE_SIZE);
    var r := map pa | to <= pa < to + PAGE_SIZE && InFrame(pa, to) :: Content(m1, from + (pa - to));
    assert m1.mem + r == CopyFrame(m1, from, to).mem;
    forall pa ensures (pa in l <==> pa in r) && (pa in l ==> l[pa] == r[pa]) {
      assert Within(pa, to, PAGE_SIZE) <==> InFrame(pa, to);
      if pa in l {
        assert buf[pa - to] == Content(m, from + (pa - to));
        SameBytes(m, m1, from + (pa - to));
      }
    }
    assert l == r;
  }

  lemma BufferIsZero(buf: seq<Byte>, m1: Phys, to: int)
    requires |buf| == PAGE_SIZE && forall k :: 0 <= k < PAGE_SIZE ==> buf[k] == 0
    ensures m1.(mem := m1.mem + Buffer(buf, to, PAGE_SIZE)) == ZeroFrame(m1, to)
  {
    var l := Buffer(buf, to, PAGE_SIZE);
    var r := map pa | to <= pa < to + PAGE_SIZE && InFrame(pa, to) :: 0;
    assert m1.mem + r == ZeroFrame(m1, to).mem;
    forall pa ensures (pa in l <==> pa in r) && (pa in l ==> l[pa] == r[pa]) {
      assert Within(pa, to, PAGE_SIZE) <==> InFrame(pa, to);
    }
    assert l == r;
  }

  lemma SameBytes(m: Phys, m1: Phys, pa: int)
    requires m.mem == m1.mem
    ensures Content(m, pa) == Content(m1, pa)
  {
  }

  lemma SamePage(page: int, t: int)
    requires page % PAGE_SIZE == 0 && page <= t < page + PAGE_SIZE
    ensures PageOf(t) == page && Offset(t) == t - page
  {
  }
}
