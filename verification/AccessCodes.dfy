/** The codes of the address space: which frame is handed out, and what a read, a write and a page request answer. */
module AccessCodes {
  import opened Words
  import opened Paging
  import opened Isolation

  // ---------- frames ----------

  lemma {:induction false} FirstFreeIsFirst(frames: set<int>, i: nat)
    ensures forall k: nat :: i + k * 4096 < FirstFree(frames, i) ==> i + k * 4096 in frames
    decreases FRAME_LIMIT - i
  {
    if !(i >= FRAME_LIMIT || i !in frames) {
      FirstFreeIsFirst(frames, i + PAGE_SIZE);
      forall k: nat | i + k * 4096 < FirstFree(frames, i) ensures i + k * 4096 in frames {
        if k > 0 {
          assert i + k * 4096 == i + PAGE_SIZE + (k - 1) * 4096;
        }
      }
    }
  }

  /** The lowest free frame below 2^30 is taken; if there is none the answer is frame 0 and error 1. */
  lemma AllocateLowest(m: Phys)
    ensures var al := AllocatePage(m);
      && (al.error == 0 ==>
            && al.frame % 4096 == 0 && 0 <= al.frame < 0x4000_0000 && al.frame !in m.frames
            && (forall k: nat :: k * 4096 < al.frame ==> k * 4096 in m.frames)
            && al.m == Phys(m.mem, m.frames + {al.frame}))
      && (al.error != 0 ==>
            && al.error == 1 && al.frame == 0 && al.m == m
            && forall k: nat :: k * 4096 < 0x4000_0000 ==> k * 4096 in m.frames)
  {
    FirstFreeIsFirst(m.frames, 0);
    assert forall k: nat :: 0 + k * 4096 == k * 4096;
    hide FirstFree;
  }

  /** A page request: 1 for an address inside a page, 2 for a page that has an entry, and otherwise a new writable
      page. */
  lemma PageRequest(s: Space, m: Phys, addr: int)
    ensures PteError(s, addr) == if addr % 4096 != 0 then 1 else if addr in s.valid && s.valid[addr] != 0 then 2 else 0
    ensures PteError(s, addr) != 0 ==> AllocatePagePte(s, m, addr) == VmState(s, m)
    ensures PteError(s, addr) == 0 ==> var al := AllocatePage(m);
      AllocatePagePte(s, m, addr) ==
        VmState(Space(s.pgd[addr := al.frame], s.valid[addr := 1], s.areas), al.m)
  {
    hide FirstFree;
  }

  // ---------- reads ----------

  /** The area that decides about an address: the first that holds it, its end included. */
  predicate Decides(areas: seq<Area>, a: int, i: nat) {
    && i < |areas| && areas[i].start <= a <= areas[i].end
    && forall j :: 0 <= j < i ==> !(areas[j].start <= a <= areas[j].end)
  }

  lemma {:induction false} ProtOf(areas: seq<Area>, a: int, i: nat)
    requires Decides(areas, a, i)
    ensures ProtAt(areas, a) == areas[i].prot && InAnArea(areas, a)
    decreases i
  {
    assert Covers(areas[i], a);
    if i > 0 {
      assert !Covers(areas[0], a);
      ProtOf(areas[1..], a, i - 1);
    }
  }

  function Page(a: int): int {
    a / 4096 * 4096
  }

  predicate ValidPage(s: Space, a: int) {
    Page(a) in s.valid && s.valid[Page(a)] != 0
  }

  /** A read: error 1 without a valid page, 2 without an area, 3 in an area of another protection than 1, 3 and 4; a
      pending error is passed on with value 0; otherwise the byte of the frame, of frame 0 for a page that has none. */
  lemma ReadAnswers(s: Space, m: Phys, a: int, error: int, i: nat)
    requires Decides(s.areas, a, i) || !InAnArea(s.areas, a)
    ensures ReadVm(s, m, a, error) ==
      if !ValidPage(s, a) then ReadResult(0, 1)
      else if !InAnArea(s.areas, a) then ReadResult(0, 2)
      else if s.areas[i].prot !in {1, 3, 4} then ReadResult(0, 3)
      else if error != 0 then ReadResult(0, error)
      else ReadResult(Content(m, (if Page(a) in s.pgd then s.pgd[Page(a)] else 0) + a % 4096), 0)
  {
    PageIs(a);
    if InAnArea(s.areas, a) {
      ProtOf(s.areas, a, i);
    }
    hide InAnArea, ProtAt, PageOf, Page;
  }

  lemma PageIs(a: int)
    ensures PageOf(a) == Page(a) && Offset(a) == a % 4096
  {
  }

  /** A read that gets to a page without frame gives it frame 0; no other read changes the page table. */
  lemma ReadEnters(s: Space, a: int, i: nat)
    requires Decides(s.areas, a, i) || !InAnArea(s.areas, a)
    ensures ReadSpace(s, a) ==
      if ValidPage(s, a) && InAnArea(s.areas, a) && s.areas[i].prot in {1, 3, 4} && Page(a) !in s.pgd
      then s.(pgd := s.pgd[Page(a) := 0]) else s
  {
    PageIs(a);
    if InAnArea(s.areas, a) {
      ProtOf(s.areas, a, i);
    }
    hide InAnArea, ProtAt, PageOf, Page;
  }

  // ---------- writes ----------

  /** A write: error 1 and no effect without an area; otherwise 0, whatever the protection. In an area of protection 4
      with a page of entry 2 the page gets a new frame and entry 1; the byte goes to the page's frame, which is 0 if
      it has none and is entered. */
  lemma WriteAnswers(s: Space, m: Phys, a: int, b: Byte, error: int, i: nat)
    requires Decides(s.areas, a, i) || !InAnArea(s.areas, a)
    ensures WriteError(s, a) == if InAnArea(s.areas, a) then 0 else 1
    ensures var v := WriteVm(s, m, a, b, error); var x := Page(a);
      if !InAnArea(s.areas, a) then v == VmState(s, m)
      else if s.areas[i].prot == 4 && x in s.valid && s.valid[x] == 2 then
        && v.s == Space(s.pgd[x := AllocatePage(m).frame], s.valid[x := 1], s.areas)
        && Content(v.m, AllocatePage(m).frame + a % 4096) == b && v.m.frames == AllocatePage(m).m.frames
      else
        var f := if x in s.pgd then s.pgd[x] else 0;
        v == VmState(s.(pgd := s.pgd[x := f]), Put(m, f + a % 4096, b))
  {
    PageIs(a);
    if InAnArea(s.areas, a) {
      ProtOf(s.areas, a, i);
      CopyKeepsFrames(m);
    }
    hide InAnArea, ProtAt, PageOf, Page, FirstFree, CopyFrame, ZeroFrame;
  }

  lemma CopyKeepsFrames(m: Phys)
    ensures forall from, to :: CopyFrame(m, from, to).frames == m.frames
    ensures forall to :: ZeroFrame(m, to).frames == m.frames
  {
  }

  /** The frame of a copied page: the bytes of the old frame, or zeros if an error is pending; in the last page of the
      address space nothing is copied. No other byte changes. */
  lemma CopiedBytes(s: Space, m: Phys, x: int, error: int, pa: int)
    ensures var al := AllocatePage(m); var v := CopyPage(s, m, x, error);
      Content(v.m, pa) ==
        if x + 4096 >= 0x1_0000_0000 || !(al.frame <= pa < al.frame + 4096) then Content(m, pa)
        else if error != 0 then 0
        else Content(m, (if x in s.pgd then s.pgd[x] else 0) + (pa - al.frame))
  {
    var al := AllocatePage(m);
    hide FirstFree;
    assert al.m.mem == m.mem;
  }

  // ---------- fork ----------

  /** An area that fork makes copy-on-write: private and read-write. */
  predicate Shared(x: Area) {
    x.flags == 1 && x.prot == 3
  }

  /** The page of an area, that of its end included. */
  predicate PageOfArea(x: Area, page: int) {
    page % 4096 == 0 && x.start / 4096 * 4096 <= page <= x.end / 4096 * 4096
  }

  /** Fork gives exactly these areas protection 4 and their pages entry 2, and leaves everything else. */
  lemma ForkAnswers(s: Space, page: int)
    ensures var t := ForkSpace(s);
      && t.pgd == s.pgd && |t.areas| == |s.areas|
      && (forall i :: 0 <= i < |s.areas| ==>
            t.areas[i] == if Shared(s.areas[i]) then s.areas[i].(prot := 4) else s.areas[i])
      && ((exists x :: x in s.areas && Shared(x) && PageOfArea(x, page)) ==> page in t.valid && t.valid[page] == 2)
      && ((forall x :: x in s.areas ==> !(Shared(x) && PageOfArea(x, page))) ==> Pte(t, page) == Pte(s, page))
  {
    MarkAreasPte(s, s.valid, s.areas, page);
    forall x ensures Splits(x) && Touches(x, page) <==> Shared(x) && PageOfArea(x, page) {
      SamePages(x, page);
    }
    hide Shared, PageOfArea, Splits, Touches, MarkAreas;
  }

  lemma SamePages(x: Area, page: int)
    ensures Splits(x) && Touches(x, page) <==> Shared(x) && PageOfArea(x, page)
  {
    assert PageOf(x.start) == x.start / 4096 * 4096 && PageOf(x.end) == x.end / 4096 * 4096;
  }

  // ---------- the page loop of a section ----------

  predicate Missing(s: Space, page: int) {
    page !in s.pgd || !(page in s.valid && s.valid[page] != 0)
  }

  /** A visit of the loop finds no page. */
  predicate SomeMissing(s: Space, addr: int, end: int)
    decreases end - addr
  {
    addr < end && (Missing(s, Page(addr)) || SomeMissing(s, addr + 4096, end))
  }

  /** The error after the page loop of a section that starts inside a page: 1 if any page was missing. */
  lemma {:induction false} UnalignedError(s: Space, m: Phys, addr: int, end: int, error: int)
    requires addr % 4096 != 0
    ensures MapError(s, m, addr, end, error) == if SomeMissing(s, addr, end) then 1 else error
    decreases end - addr
  {
    PageIs(addr);
    if addr < end {
      UnalignedError(s, m, addr + PAGE_SIZE, end, 1);
      UnalignedError(s, m, addr + PAGE_SIZE, end, error);
    }
    hide PageOf, Page;
  }

  /** And of one that starts on a page: 0 if a page was missing, unless fork had marked one that did not exist. */
  lemma {:induction false} AlignedError(s: Space, m: Phys, addr: int, end: int, error: int)
    requires addr % 4096 == 0
    requires forall x :: x % 4096 == 0 && addr <= x < end && x in s.valid && s.valid[x] != 0 ==> x in s.pgd
    ensures MapError(s, m, addr, end, error) == if SomeMissing(s, addr, end) then 0 else error
    decreases end - addr
  {
    if addr < end {
      assert PageOf(addr) == addr && Page(addr) == addr;
      hide PageOf, Page, FirstFree;
      if Missing(s, addr) {
        var v := AllocatePagePte(s, m, addr);
        AlignedError(v.s, v.m, addr + PAGE_SIZE, end, 0);
      } else {
        AlignedError(s, m, addr + PAGE_SIZE, end, error);
      }
    }
  }

  // ---------- exec ----------

  /** What exec keeps of the areas: the first one named cmd_args, if there is one. */
  lemma {:induction false} KeptArea(areas: seq<Area>, i: nat)
    requires i < |areas| && areas[i].name == "cmd_args" && forall j :: 0 <= j < i ==> areas[j].name != "cmd_args"
    ensures ArgsArea(areas) == [areas[i]]
    decreases i
  {
    if i > 0 {
      assert areas[0].name != ARGS_NAME;
      KeptArea(areas[1..], i - 1);
    }
  }

  lemma {:induction false} NoKeptArea(areas: seq<Area>)
    requires forall j :: 0 <= j < |areas| ==> areas[j].name != "cmd_args"
    ensures ArgsArea(areas) == []
    decreases areas
  {
    if areas != [] {
      assert areas[0].name != ARGS_NAME;
      NoKeptArea(areas[1..]);
    }
  }

  /** A section with bytes leaves no error: its own area holds them all. One without leaves the error it found. */
  lemma SectionAnswers(s: Space, m: Phys, name: string, start: int, data: seq<Byte>, prot: int, error: int)
    ensures |data| > 0 ==> SectionError(data, error) == 0
    ensures |data| > 0 ==>
      WriteError(s.(areas := s.areas + [Area(start, start + |data|, RW, PRIVATE, name)]), start + |data| - 1) == 0
    ensures |data| == 0 ==> SectionError(data, error) == MapError(s, m, start, start + |data|, error) == error
  {
    var areas := s.areas + [Area(start, start + |data|, RW, PRIVATE, name)];
    assert Covers(areas[|s.areas|], start + |data| - 1) || |data| == 0;
  }

  /** A page that exec gives up: it has a frame and an entry, and lies outside the pages of the area kept. */
  predicate Dropped(s: Space, kept: seq<Area>, x: int) {
    && x in s.pgd && x in s.valid && s.valid[x] != 0
    && (kept == [] || x < kept[0].start / 4096 * 4096 || x > kept[0].end / 4096 * 4096)
  }

  /** The entries of these pages become 0, their frames stay in the table, and the error is 0 if there is one of them.
  */
  lemma ClearAnswers(s: Space, x: int, error: int)
    ensures var t := ClearSpace(s); var kept := ArgsArea(s.areas);
      && t.areas == kept && t.pgd == s.pgd
      && (x in t.valid <==> x in s.valid)
      && (x in s.valid ==> t.valid[x] == if Dropped(s, kept, x) then 0 else s.valid[x])
    ensures ClearError(s, error) == if exists p :: Dropped(s, ArgsArea(s.areas), p) then 0 else error
  {
    forall p ensures p in s.valid && GivenUp(s, p) <==> Dropped(s, ArgsArea(s.areas), p) {
      SameDropped(s, p);
    }
    hide ArgsArea, GivenUp, Dropped;
  }

  lemma SameDropped(s: Space, x: int)
    ensures x in s.valid && GivenUp(s, x) <==> Dropped(s, ArgsArea(s.areas), x)
  {
    var kept := ArgsArea(s.areas);
    if kept != [] {
      PageIs(kept[0].start);
      PageIs(kept[0].end);
    }
    hide ArgsArea;
  }
}
