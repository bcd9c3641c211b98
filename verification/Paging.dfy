/** Physical memory, page tables and area lists of the simulator's virtual memory, as values. */
module Paging {
  import opened Words

  const PAGE_SIZE := 4096

  /** Frames are handed out below this address. */
  const FRAME_LIMIT := 0x4000_0000

  // page table entries (VM::INVALID, VM::RW, VM::RONLY)
  const PTE_INVALID := 0
  const PTE_RW := 1
  const PTE_RONLY := 2

  // protection of an area
  const RONLY := 1
  const RW := 3
  const COPY_ON_WRITE := 4

  const PRIVATE := 1

  function PageOf(a: int): int {
    a - a % PAGE_SIZE
  }

  function Offset(a: int): (r: int)
    ensures 0 <= r < PAGE_SIZE
  {
    a % PAGE_SIZE
  }

  // ---------- physical memory ----------

  /** Bytes never written are 0. Frames are never given back: free_page does nothing. */
  datatype Phys = Phys(mem: map<int, Byte>, frames: set<int>)

  function Content(m: Phys, pa: int): Byte {
    if pa in m.mem then m.mem[pa] else 0
  }

  function Put(m: Phys, pa: int, b: Byte): Phys {
    m.(mem := m.mem[pa := b])
  }

  /** The lowest free frame from i on, or a frame at FRAME_LIMIT or above if there is none. */
  function FirstFree(frames: set<int>, i: nat): (r: nat)
    ensures r >= i && (r - i) % PAGE_SIZE == 0
    ensures r < FRAME_LIMIT ==> r !in frames
    decreases FRAME_LIMIT - i
  {
    if i >= FRAME_LIMIT || i !in frames then i else FirstFree(frames, i + PAGE_SIZE)
  }

  datatype Allocation = Allocation(frame: int, m: Phys, error: int)

  function AllocatePage(m: Phys): Allocation {
    var f := FirstFree(m.frames, 0);
    if f < FRAME_LIMIT then Allocation(f, m.(frames := m.frames + {f}), 0) else Allocation(0, m, 1)
  }

  /** n more frames can be allocated. */
  predicate Available(frames: set<int>, n: nat)
    decreases n
  {
    n == 0 || (var f := FirstFree(frames, 0); f < FRAME_LIMIT && Available(frames + {f}, n - 1))
  }

  // ---------- one process ----------

  datatype Area = Area(start: int, end: int, prot: int, flags: int, name: string)

  /** Page table (frame and entry state of each page) and area list of a process. */
  datatype Space = Space(pgd: map<int, int>, valid: map<int, int>, areas: seq<Area>)

  function Pte(s: Space, page: int): int {
    if page in s.valid then s.valid[page] else PTE_INVALID
  }

  function Frame(s: Space, page: int): int {
    if page in s.pgd then s.pgd[page] else 0
  }

  /** Frames are page-aligned, so the bitwise or of frame and offset is their sum. */
  function PhyAddr(s: Space, a: int): int {
    Frame(s, PageOf(a)) + Offset(a)
  }

  predicate Covers(x: Area, a: int) {
    x.start <= a <= x.end
  }

  /** The protection of the first area whose closed range holds a; 0 if there is none. */
  function ProtAt(areas: seq<Area>, a: int): int {
    if areas == [] then 0 else if Covers(areas[0], a) then areas[0].prot else ProtAt(areas[1..], a)
  }

  predicate InAnArea(areas: seq<Area>, a: int) {
    exists i :: 0 <= i < |areas| && Covers(areas[i], a)
  }

  datatype ReadResult = ReadResult(val: Byte, error: int)

  /** A byte read, given the caller's error flag. */
  function ReadVm(s: Space, m: Phys, a: int, error: int): ReadResult {
    if Pte(s, PageOf(a)) == PTE_INVALID then ReadResult(0, 1)
    else if !InAnArea(s.areas, a) then ReadResult(0, 2)
    else if ProtAt(s.areas, a) !in {RONLY, RW, COPY_ON_WRITE} then ReadResult(0, 3)
    else if error != 0 then ReadResult(0, error)
    else ReadResult(Content(m, PhyAddr(s, a)), 0)
  }

  predicate MayRead(areas: seq<Area>, a: int) {
    InAnArea(areas, a) && ProtAt(areas, a) in {RONLY, RW, COPY_ON_WRITE}
  }

  /** A read that gets as far as looking up the frame enters frame 0 for a page without frame. */
  function ReadSpace(s: Space, a: int): Space {
    if Pte(s, PageOf(a)) == PTE_INVALID || !MayRead(s.areas, a) then s
    else s.(pgd := s.pgd[PageOf(a) := Frame(s, PageOf(a))])
  }

  predicate InFrame(pa: int, f: int) {
    f <= pa < f + PAGE_SIZE
  }

  /** The bytes of one frame copied to another. */
  function CopyFrame(m: Phys, from: int, to: int): Phys {
    m.(mem := m.mem + map pa | to <= pa < to + PAGE_SIZE && InFrame(pa, to) :: Content(m, from + (pa - to)))
  }

  datatype VmState = VmState(s: Space, m: Phys)

  /** A frame filled with zeros. */
  function ZeroFrame(m: Phys, to: int): Phys {
    m.(mem := m.mem + map pa | to <= pa < to + PAGE_SIZE && InFrame(pa, to) :: 0)
  }

  /** The copy loops end at the last page of the address space before they begin: its end wraps to 0. */
  predicate LastPage(page: int) {
    page + PAGE_SIZE >= TWO_32
  }

  /** Gives a page its own copy of its frame. A pending error makes the reads return 0. */
  function CopyPage(s: Space, m: Phys, page: int, error: int := 0): VmState {
    var al := AllocatePage(m);
    VmState(s.(pgd := s.pgd[page := al.frame], valid := s.valid[page := PTE_RW]),
            if LastPage(page) then al.m
            else if error != 0 then ZeroFrame(al.m, al.frame)
            else CopyFrame(al.m, Frame(s, page), al.frame))
  }

  predicate MustCopy(s: Space, a: int) {
    ProtAt(s.areas, a) == COPY_ON_WRITE && Pte(s, PageOf(a)) == PTE_RONLY
  }

  /** A byte write. The checks on the page and on read-only areas do not prevent it. */
  function WriteVm(s: Space, m: Phys, a: int, b: Byte, error: int := 0): VmState {
    if !InAnArea(s.areas, a) then VmState(s, m) else
    var v := if MustCopy(s, a) then CopyPage(s, m, PageOf(a), error) else VmState(s, m);
    VmState(v.s.(pgd := v.s.pgd[PageOf(a) := Frame(v.s, PageOf(a))]), Put(v.m, PhyAddr(v.s, a), b))
  }

  function WriteError(s: Space, a: int): int {
    if InAnArea(s.areas, a) then 0 else 1
  }

  // ---------- fork ----------

  predicate Splits(x: Area) {
    x.flags == PRIVATE && x.prot == RW
  }

  function ForkArea(x: Area): Area {
    if Splits(x) then x.(prot := COPY_ON_WRITE) else x
  }

  function ForkAreas(areas: seq<Area>): (r: seq<Area>)
    ensures |r| == |areas| && forall i :: 0 <= i < |r| ==> r[i] == ForkArea(areas[i])
  {
    if areas == [] then [] else [ForkArea(areas[0])] + ForkAreas(areas[1..])
  }

  /** Entries of all pages that an area touches, its closed end included, become read-only. */
  function MarkArea(valid: map<int, int>, x: Area): map<int, int> {
    if Splits(x) then
      valid + map p | PageOf(x.start) <= p <= PageOf(x.end) && p % PAGE_SIZE == 0 :: PTE_RONLY
    else valid
  }

  function MarkAreas(valid: map<int, int>, areas: seq<Area>): map<int, int>
    decreases areas
  {
    if areas == [] then valid else MarkAreas(MarkArea(valid, areas[0]), areas[1..])
  }

  /** What fork turns the address spaces of both parent and child into. */
  function ForkSpace(s: Space): Space {
    s.(areas := ForkAreas(s.areas), valid := MarkAreas(s.valid, s.areas))
  }

  // ---------- exec ----------

  function AllocatePagePte(s: Space, m: Phys, addr: int): VmState {
    if addr % PAGE_SIZE != 0 || Pte(s, addr) != PTE_INVALID then VmState(s, m) else
    var al := AllocatePage(m);
    VmState(s.(pgd := s.pgd[addr := al.frame], valid := s.valid[addr := PTE_RW]), al.m)
  }

  /** The page loop of allocate_section: addr, addr + 4096, ... below end. */
  function MapPages(s: Space, m: Phys, addr: int, end: int): VmState
    decreases end - addr
  {
    if addr >= end then VmState(s, m) else
    var v := if PageOf(addr) !in s.pgd || Pte(s, PageOf(addr)) == PTE_INVALID then AllocatePagePte(s, m, addr)
             else VmState(s, m);
    MapPages(v.s, v.m, addr + PAGE_SIZE, end)
  }

  function PteError(s: Space, addr: int): int {
    if addr % PAGE_SIZE != 0 then 1 else if Pte(s, addr) != PTE_INVALID then 2 else 0
  }

  /** The error code the page loop leaves. */
  function MapError(s: Space, m: Phys, addr: int, end: int, error: int): int
    decreases end - addr
  {
    if addr >= end then error else
    var missing := PageOf(addr) !in s.pgd || Pte(s, PageOf(addr)) == PTE_INVALID;
    var v := if missing then AllocatePagePte(s, m, addr) else VmState(s, m);
    MapError(v.s, v.m, addr + PAGE_SIZE, end, if missing then PteError(s, addr) else error)
  }

  /** Each write passes its error code to the next. */
  function WriteAll(s: Space, m: Phys, addr: int, data: seq<Byte>, error: int): VmState
    decreases data
  {
    if data == [] then VmState(s, m) else
    var v := WriteVm(s, m, addr, data[0], error);
    WriteAll(v.s, v.m, addr + 1, data[1..], WriteError(s, addr))
  }

  /** A section is written under an RW area, which then gets its own protection. */
  function AllocateSection(s: Space, m: Phys, name: string, start: int, data: seq<Byte>, prot: int, error: int)
    : VmState
  {
    var v := MapPages(s, m, start, start + |data|);
    var area := Area(start, start + |data|, RW, PRIVATE, name);
    var e := MapError(s, m, start, start + |data|, error);
    var w := WriteAll(v.s.(areas := v.s.areas + [area]), v.m, start, data, e);
    VmState(w.s.(areas := v.s.areas + [area.(prot := prot)]), w.m)
  }

  /** The last write of a section succeeds; without bytes there is no page to map either. */
  function SectionError(data: seq<Byte>, error: int): int {
    if data == [] then error else 0
  }

  const STACK_LOW := 0x3FFF_0000
  const STACK_HIGH := 0x4000_0000
  const ARGS_HIGH := 0x4001_0000

  datatype Elf = Elf(text: seq<Byte>, data: seq<Byte>, bssLen: nat)

  function Zeros(n: nat): (z: seq<Byte>)
    ensures |z| == n && forall i :: 0 <= i < n ==> z[i] == 0
  {
    seq(n, i => 0)
  }

  const ARGS_NAME: string := "cmd_args"

  /** The first area with the name of the argument area, as a list of length one, or no area. */
  function ArgsArea(areas: seq<Area>): (r: seq<Area>)
    ensures |r| <= 1 && forall x :: x in r ==> x in areas && x.name == ARGS_NAME
  {
    if areas == [] then [] else if areas[0].name == ARGS_NAME then [areas[0]] else ArgsArea(areas[1..])
  }

  /** A valid page outside the argument area. */
  predicate GivenUp(s: Space, p: int)
    requires p in s.valid
  {
    var kept := ArgsArea(s.areas);
    p in s.pgd && s.valid[p] != PTE_INVALID
    && (kept == [] || p < PageOf(kept[0].start) || p > PageOf(kept[0].end))
  }

  /** The old areas except the arguments go, and the valid pages outside the argument area become invalid.
      With no argument area there is nothing to keep. */
  function ClearSpace(s: Space): Space {
    Space(s.pgd, map p | p in s.valid :: if GivenUp(s, p) then PTE_INVALID else s.valid[p], ArgsArea(s.areas))
  }

  /** Giving up a page clears the error code. */
  function ClearError(s: Space, error: int): int {
    if exists p :: p in s.valid && GivenUp(s, p) then 0 else error
  }

  function ExecSpace(s: Space, m: Phys, elf: Elf, error: int := 0): VmState {
    var s0 := ClearSpace(s);
    var e0 := ClearError(s, error);
    var v := LowSections(s0, m, elf, e0);
    HighSections(v.s, v.m, s0.areas == [], LowError(elf, e0))
  }

  /** The sections of the file, below the stack. */
  function LowSections(s: Space, m: Phys, elf: Elf, error: int): VmState {
    var t := |elf.text|;
    var zeros := Zeros(elf.bssLen);
    var e1 := SectionError(elf.text, error);
    var v1 := AllocateSection(s, m, "text", 0, elf.text, RONLY, error);
    var v2 := AllocateSection(v1.s, v1.m, "data", t, elf.data, RW, e1);
    AllocateSection(v2.s, v2.m, "bss", t + |elf.data|, zeros, RW, SectionError(elf.data, e1))
  }

  function LowError(elf: Elf, error: int): int {
    SectionError(Zeros(elf.bssLen), SectionError(elf.data, SectionError(elf.text, error)))
  }

  /** The stack, and the argument area of a process that has none. */
  function HighSections(s: Space, m: Phys, boot: bool, error: int): VmState {
    var v := AllocateSection(s, m, "stack", STACK_LOW, Zeros(STACK_HIGH - STACK_LOW), RW, error);
    if boot then AllocateSection(v.s, v.m, ARGS_NAME, STACK_HIGH, Zeros(ARGS_HIGH - STACK_HIGH), RW, 0) else v
  }
}
