/** What exec does to other processes when part of its image has no frame: the bytes go to whatever frame the page had
    before, or to frame 0. This says exactly when another process notices. */
module ExecLeaks {
  import opened Words
  import opened Paging
  import opened Isolation
  import opened ExecImage
  import opened Leaks

  // ---------- the bytes of an image and where they go ----------

  /** The addresses exec writes. A process without argument area gets one. */
  predicate Loaded(elf: Elf, boot: bool, a: int) {
    0 <= a < ImageEnd(elf) || STACK_LOW <= a < STACK_HIGH || (boot && STACK_HIGH <= a < ARGS_HIGH)
  }

  function LoadByte(elf: Elf, a: int): Byte {
    if 0 <= a < |elf.text| then elf.text[a] else ByteAt(|elf.text|, elf.data, a)
  }

  /** A page that the page loops of exec give no frame: no section that starts on a page covers it, or it is valid
      already because fork marked it when it did not exist. */
  predicate Stray(s: Space, elf: Elf, x: int) {
    LeftOver(s, x) || (PageIn(x, 0, ImageEnd(elf)) && !Covered(elf, x))
  }

  function Boots(s: Space): bool {
    ArgsArea(s.areas) == []
  }

  /** The byte exec writes at a goes to pa, which is not in a frame of its own. */
  predicate Lands(s: Space, elf: Elf, a: int, pa: int) {
    Loaded(elf, Boots(s), a) && Stray(s, elf, PageOf(a)) && PhyAddr(s, a) == pa
  }

  /** Of the bytes below k that go to pa, a is the last. */
  ghost predicate LastBelow(s: Space, elf: Elf, a: int, pa: int, k: int) {
    a < k && Lands(s, elf, a, pa) && forall c :: a < c < k ==> !Lands(s, elf, c, pa)
  }

  /** The byte at a goes to a frame that another process has mapped, is not what is there, and stays. */
  ghost predicate Spoils(sys: Sys, p: int, elf: Elf, a: int)
    requires p in sys.procs
  {
    var pa := PhyAddr(sys.procs[p], a);
    && LastBelow(sys.procs[p], elf, a, pa, ARGS_HIGH)
    && Foreign(sys, p, PageOf(pa)) && Content(sys.m, pa) != LoadByte(elf, a)
  }

  // ---------- exec in progress ----------

  /** The frames of a process on its way from s to t: new ones, or the old ones of pages that have become invalid. Only
      stray pages get entries without new frames. */
  ghost predicate Replacing(s: Space, elf: Elf, frames: set<int>, t: Space, m: Phys) {
    && frames <= m.frames
    && forall x :: !KeepPage(ArgsArea(s.areas), x) ==>
         if LeftOver(s, x) then Frame(t, x) == 0 && Pte(t, x) == Pte(s, x)
         else if Pte(t, x) == PTE_INVALID then
           Frame(t, x) == Frame(s, x) && (x in t.pgd ==> x in s.pgd || Stray(s, elf, x))
         else x in t.pgd && Aligned(t.pgd[x]) && t.pgd[x] !in frames
  }

  /** What is at pa, in memory m that was m0 before, once the bytes below k are written. */
  ghost predicate Told(s: Space, elf: Elf, m0: Phys, m: Phys, k: int, pa: int) {
    || (Content(m, pa) == Content(m0, pa) && forall a :: a < k ==> !Lands(s, elf, a, pa))
    || exists a :: LastBelow(s, elf, a, pa, k) && Content(m, pa) == LoadByte(elf, a)
  }

  ghost predicate AllTold(s: Space, elf: Elf, m0: Phys, m: Phys, k: int) {
    forall pa :: PageOf(pa) in m0.frames ==> Told(s, elf, m0, m, k, pa)
  }

  lemma Clears(s: Space, elf: Elf, m: Phys)
    requires KeptArgs(ArgsArea(s.areas))
    ensures Replacing(s, elf, m.frames, ClearSpace(s), m) && ClearSpace(s).areas == ArgsArea(s.areas)
    ensures forall x :: !KeepPage(ArgsArea(s.areas), x) ==> (Pte(ClearSpace(s), x) == PTE_INVALID <==> !LeftOver(s, x))
  {
    hide ClearSpace, ArgsArea;
    ClearFields(s, 0);
    forall x | !KeepPage(ArgsArea(s.areas), x)
      ensures var t := ClearSpace(s);
        if LeftOver(s, x) then Frame(t, x) == 0 && Pte(t, x) == Pte(s, x)
        else Pte(t, x) == PTE_INVALID && Frame(t, x) == Frame(s, x)
    {
      ClearFields(s, x);
    }
  }

  /** The pages a section may take. */
  function Needs(start: int, end: int): nat {
    if Aligned(start) then PagesIn(start, end) else 0
  }

  lemma TakeFrame(s: Space, elf: Elf, frames: set<int>, t: Space, m: Phys, addr: int, n: nat)
    requires Replacing(s, elf, frames, t, m) && Aligned(addr) && Available(m.frames, n + 1)
    requires !KeepPage(ArgsArea(s.areas), addr)
    ensures var v := if addr !in t.pgd || Pte(t, addr) == PTE_INVALID then AllocatePagePte(t, m, addr)
                     else VmState(t, m);
      && Replacing(s, elf, frames, v.s, v.m) && v.m.mem == m.mem && Available(v.m.frames, n)
      && Pte(v.s, addr) != PTE_INVALID
      && forall x :: x != addr ==> Pte(v.s, x) == Pte(t, x)
  {
    hide ArgsArea, KeepPage;
    FewerFrames(m.frames, n);
    FreshFrame(m.frames);
    hide FirstFree;
  }

  /** From t to t' the pages of a section that starts on a page have become valid, and no others. */
  ghost predicate Validated(t: Space, t': Space, start: int, end: int) {
    forall x :: Pte(t', x) == PTE_INVALID <==> Pte(t, x) == PTE_INVALID && !(Aligned(start) && PageIn(x, start, end))
  }

  /** The page loop gives new frames to the pages of a section that starts on a page, and changes no byte. */
  lemma {:induction false} MapReplaces(s: Space, elf: Elf, frames: set<int>, t: Space, m: Phys, addr: int, end: int,
                                      rest: nat)
    requires Replacing(s, elf, frames, t, m) && Available(m.frames, Needs(addr, end) + rest)
    requires forall x :: PageIn(x, addr, end) ==> !KeepPage(ArgsArea(s.areas), x)
    ensures var v := MapPages(t, m, addr, end);
      && Replacing(s, elf, frames, v.s, v.m) && v.m.mem == m.mem && Available(v.m.frames, rest)
      && v.s.areas == t.areas
      && Validated(t, v.s, addr, end)
    decreases end - addr
  {
    if !Aligned(addr) {
      MapUnaligned(t, m, addr, end);
    } else if addr < end {
      AlignedPage(addr);
      MapStep(addr, end);
      MapPagesAreas(t, m, addr, end);
      assert PageIn(addr, addr, end);
      hide PageOf, Aligned, ArgsArea, KeepPage, Replacing, AllocatePagePte, Available;
      var v := if addr !in t.pgd || Pte(t, addr) == PTE_INVALID then AllocatePagePte(t, m, addr) else VmState(t, m);
      TakeFrame(s, elf, frames, t, m, addr, PagesIn(addr + PAGE_SIZE, end) + rest);
      MapReplaces(s, elf, frames, v.s, v.m, addr + PAGE_SIZE, end, rest);
    } else {
      NoPages(addr, end);
    }
  }

  /** The table says which page of the image is stray. */
  predicate Marks(s: Space, elf: Elf, t: Space, x: int) {
    Stray(s, elf, x) <==> LeftOver(s, x) || Pte(t, x) == PTE_INVALID
  }

  /** One byte of the image. */
  lemma WriteOne(s: Space, elf: Elf, m0: Phys, t: Space, m: Phys, a: int, error: int)
    requires Replacing(s, elf, m0.frames, t, m) && AllTold(s, elf, m0, m, a)
    requires Loaded(elf, Boots(s), a) && InAnArea(t.areas, a) && ProtAt(t.areas, a) != COPY_ON_WRITE
    requires !KeepPage(ArgsArea(s.areas), PageOf(a)) && Marks(s, elf, t, PageOf(a))
    ensures var v := WriteVm(t, m, a, LoadByte(elf, a), error);
      && Replacing(s, elf, m0.frames, v.s, v.m) && AllTold(s, elf, m0, v.m, a + 1)
      && v.s.valid == t.valid && v.s.areas == t.areas && v.m.frames == m.frames
  {
    hide Stray, LoadByte, Loaded, KeepPage, ArgsArea, InAnArea, ProtAt, PageOf, Offset, Aligned, Told;
    var b := LoadByte(elf, a);
    var x := PageOf(a);
    assert !MustCopy(t, a);
    var v := WriteVm(t, m, a, b, error);
    assert v.s == t.(pgd := t.pgd[x := Frame(t, x)]) && v.m == Put(m, PhyAddr(v.s, a), b);
    assert Frame(v.s, x) == Frame(t, x);
    if Stray(s, elf, x) {
      assert Frame(t, x) == Frame(s, x);
      assert Lands(s, elf, a, PhyAddr(s, a));
    } else {
      FrameFacts(Frame(t, x), Offset(a));
    }
    forall pa | PageOf(pa) in m0.frames ensures Told(s, elf, m0, v.m, a + 1, pa) {
      assert Lands(s, elf, a, pa) <==> PhyAddr(v.s, a) == pa && Stray(s, elf, x);
      TellOne(s, elf, m0, m, v.m, a, pa);
    }
  }

  lemma TellOne(s: Space, elf: Elf, m0: Phys, m: Phys, m': Phys, a: int, pa: int)
    requires Told(s, elf, m0, m, a, pa)
    requires Content(m', pa) == if Lands(s, elf, a, pa) then LoadByte(elf, a) else Content(m, pa)
    ensures Told(s, elf, m0, m', a + 1, pa)
  {
    hide Lands, Content, LoadByte;
    if Lands(s, elf, a, pa) {
      assert LastBelow(s, elf, a, pa, a + 1);
    } else if c :| LastBelow(s, elf, c, pa, a) && Content(m, pa) == LoadByte(elf, c) {
      assert LastBelow(s, elf, c, pa, a + 1);
    }
  }

  /** What a section needs so that its bytes can be followed. */
  ghost predicate Followed(s: Space, elf: Elf, t: Space, start: int, data: seq<Byte>) {
    forall a :: start <= a < start + |data| ==>
      && Loaded(elf, Boots(s), a) && data[a - start] == LoadByte(elf, a)
      && InAnArea(t.areas, a) && ProtAt(t.areas, a) != COPY_ON_WRITE
      && !KeepPage(ArgsArea(s.areas), PageOf(a)) && Marks(s, elf, t, PageOf(a))
  }

  lemma {:induction false} WriteTold(s: Space, elf: Elf, m0: Phys, t: Space, m: Phys, start: int, data: seq<Byte>,
                                    error: int)
    requires Replacing(s, elf, m0.frames, t, m) && AllTold(s, elf, m0, m, start) && Followed(s, elf, t, start, data)
    ensures var v := WriteAll(t, m, start, data, error);
      && Replacing(s, elf, m0.frames, v.s, v.m) && AllTold(s, elf, m0, v.m, start + |data|)
      && v.s.valid == t.valid && v.s.areas == t.areas && v.m.frames == m.frames
    decreases data
  {
    hide LoadByte, Loaded, KeepPage, ArgsArea, InAnArea, ProtAt, PageOf, Replacing, AllTold, Stray, WriteVm;
    if data != [] {
      WriteOne(s, elf, m0, t, m, start, error);
      var v := WriteVm(t, m, start, data[0], error);
      SameMarks(s, elf, t, v.s, start, data);
      WriteTold(s, elf, m0, v.s, v.m, start + 1, data[1..], WriteError(t, start));
    }
  }

  lemma SameMarks(s: Space, elf: Elf, t: Space, t': Space, start: int, data: seq<Byte>)
    requires Followed(s, elf, t, start, data) && data != [] && t'.valid == t.valid && t'.areas == t.areas
    ensures Followed(s, elf, t', start + 1, data[1..])
  {
    hide LoadByte, Loaded, KeepPage, ArgsArea, InAnArea, ProtAt, PageOf, Stray;
    forall a | start + 1 <= a < start + |data|
      ensures Marks(s, elf, t', PageOf(a))
    {
      assert Marks(s, elf, t, PageOf(a));
    }
  }

  // ---------- whole sections ----------

  /** Areas that ask for a copy start at end or above. */
  predicate NoCopies(areas: seq<Area>, end: int) {
    forall x :: x in areas && x.prot == COPY_ON_WRITE ==> x.start >= end
  }

  lemma {:induction false} NoCopyBelow(areas: seq<Area>, end: int)
    requires NoCopies(areas, end)
    ensures forall a :: a < end ==> ProtAt(areas, a) != COPY_ON_WRITE
    decreases areas
  {
    if areas != [] {
      NoCopyBelow(areas[1..], end);
    }
  }

  /** The bytes of a section are those of the image, off the kept pages. */
  predicate PartOf(s: Space, elf: Elf, start: int, data: seq<Byte>) {
    forall a :: start <= a < start + |data| ==>
      Loaded(elf, Boots(s), a) && data[a - start] == LoadByte(elf, a) && !KeepPage(ArgsArea(s.areas), PageOf(a))
  }

  /** The page loop of a section leaves a page of it without frame exactly if it is stray. */
  predicate Leaves(s: Space, elf: Elf, t: Space, start: int, end: int) {
    forall a :: start <= a < end ==>
      (Stray(s, elf, PageOf(a)) <==>
       || LeftOver(s, PageOf(a))
       || (Pte(t, PageOf(a)) == PTE_INVALID && !(Aligned(start) && PageIn(PageOf(a), start, end))))
  }

  lemma SectionTold(s: Space, elf: Elf, m0: Phys, t: Space, m: Phys, name: string, start: int, data: seq<Byte>,
                    prot: int, error: int, bound: int, rest: nat)
    requires Replacing(s, elf, m0.frames, t, m) && AllTold(s, elf, m0, m, start)
    requires Available(m.frames, Needs(start, start + |data|) + rest)
    requires PartOf(s, elf, start, data) && Leaves(s, elf, t, start, start + |data|)
    requires NoCopies(t.areas, bound) && start + |data| <= bound && prot != COPY_ON_WRITE
    ensures var v := AllocateSection(t, m, name, start, data, prot, error); var end := start + |data|;
      && Replacing(s, elf, m0.frames, v.s, v.m) && AllTold(s, elf, m0, v.m, end)
      && Available(v.m.frames, rest) && NoCopies(v.s.areas, bound)
      && Validated(t, v.s, start, end)
  {
    hide LoadByte, Loaded, ArgsArea, ProtAt, PageOf, Available, Needs, Stray, Content, MapPages, WriteAll, Aligned,
         MapError, KeepPage, Lands;
    var end := start + |data|;
    forall x | PageIn(x, start, end) ensures !KeepPage(ArgsArea(s.areas), x) {
      OwnPage(x, start, end);
    }
    MapReplaces(s, elf, m0.frames, t, m, start, end, rest);
    var v := MapPages(t, m, start, end);
    var area := Area(start, end, RW, PRIVATE, name);
    var u := v.s.(areas := v.s.areas + [area]);
    SameBytesTold(s, elf, m0, m, v.m, start);
    NoCopyBelow(u.areas, bound);
    forall a | start <= a < end ensures InAnArea(u.areas, a) && Marks(s, elf, u, PageOf(a)) {
      assert u.areas[|v.s.areas|] == area && Covers(area, a);
    }
    assert Replacing(s, elf, m0.frames, u, v.m);
    WriteTold(s, elf, m0, u, v.m, start, data, MapError(t, m, start, end, error));
  }

  lemma OwnPage(x: int, start: int, end: int)
    requires PageIn(x, start, end)
    ensures start <= x < end && PageOf(x) == x
  {
  }

  lemma SameBytesTold(s: Space, elf: Elf, m0: Phys, m: Phys, m': Phys, k: int)
    requires AllTold(s, elf, m0, m, k) && m'.mem == m.mem
    ensures AllTold(s, elf, m0, m', k)
  {
    hide Lands, LoadByte, PageOf;
    SameContent(m, m');
    forall pa | PageOf(pa) in m0.frames ensures Told(s, elf, m0, m', k, pa) {
      assert Told(s, elf, m0, m, k, pa);
    }
    hide Content;
  }

  // ---------- exec ----------

  function HighNeeds(s: Space): nat {
    Needs(STACK_LOW, STACK_HIGH) + if Boots(s) then Needs(STACK_HIGH, ARGS_HIGH) else 0
  }

  /** The frames that exec may take for its image. */
  function ImageNeeds(s: Space, elf: Elf): nat {
    Needs(0, DataStart(elf)) +
    (Needs(DataStart(elf), BssStart(elf)) + (Needs(BssStart(elf), ImageEnd(elf)) + HighNeeds(s)))
  }

  /** The image lies below the stack, there are frames for it, and an argument area is the usual one. */
  predicate ExecFits(s: Space, m: Phys, elf: Elf, rest: nat := 0) {
    KeptArgs(ArgsArea(s.areas)) && ImageEnd(elf) <= STACK_LOW && Available(m.frames, ImageNeeds(s, elf) + rest)
  }

  function LoadEnd(s: Space): int {
    if Boots(s) then ARGS_HIGH else STACK_HIGH
  }

  lemma LowParts(s: Space, elf: Elf)
    requires KeptArgs(ArgsArea(s.areas)) && ImageEnd(elf) <= STACK_LOW
    ensures PartOf(s, elf, 0, elf.text) && PartOf(s, elf, DataStart(elf), elf.data)
    ensures PartOf(s, elf, BssStart(elf), Zeros(elf.bssLen))
    ensures PartOf(s, elf, STACK_LOW, Zeros(STACK_HIGH - STACK_LOW))
    ensures Boots(s) ==> PartOf(s, elf, STACK_HIGH, Zeros(ARGS_HIGH - STACK_HIGH))
  {
    hide ArgsArea;
    forall a | a < STACK_HIGH ensures !KeepPage(ArgsArea(s.areas), PageOf(a)) {
    }
  }

  /** The table is that of the cleared process, but for the pages that have been given frames. */
  ghost predicate Table(s: Space, t: Space, given: iset<int>) {
    forall x :: !KeepPage(ArgsArea(s.areas), x) ==> (Pte(t, x) == PTE_INVALID <==> !LeftOver(s, x) && x !in given)
  }

  ghost function PagesGiven(start: int, end: int): iset<int> {
    iset x | Aligned(start) && PageIn(x, start, end)
  }

  /** The pages below the stack that exec gives frames. */
  ghost function LowGiven(elf: Elf): iset<int> {
    var t, d := DataStart(elf), BssStart(elf);
    PagesGiven(0, t) + PagesGiven(t, d) + PagesGiven(d, ImageEnd(elf))
  }

  ghost function HighGiven(s: Space): iset<int> {
    PagesGiven(STACK_LOW, STACK_HIGH) + if Boots(s) then PagesGiven(STACK_HIGH, ARGS_HIGH) else iset{}
  }

  lemma LowPages(s: Space, a: int)
    requires KeptArgs(ArgsArea(s.areas)) && 0 <= a < STACK_HIGH
    ensures var x := PageOf(a); !KeepPage(ArgsArea(s.areas), x) && 0 <= x <= a < x + PAGE_SIZE && Aligned(x)
  {
    hide ArgsArea;
  }

  /** The page loop of each section leaves exactly the stray pages without frame. */
  lemma LeavesStray(s: Space, elf: Elf, t: Space, start: int, end: int, given: iset<int>)
    requires KeptArgs(ArgsArea(s.areas)) && ImageEnd(elf) <= STACK_LOW && Table(s, t, given)
    requires 0 <= start && end <= ImageEnd(elf)
    requires forall x :: PageIn(x, 0, end) ==>
      (Covered(elf, x) <==> x in given + PagesGiven(start, end))
    ensures Leaves(s, elf, t, start, end)
  {
    hide ArgsArea, LeftOver, Pte, PageOf, KeepPage, Covered, Aligned;
    forall a | start <= a < end
      ensures var x := PageOf(a); !KeepPage(ArgsArea(s.areas), x) && 0 <= x <= a && Aligned(x)
    {
      LowPages(s, a);
    }
  }

  lemma LeavesHigh(s: Space, elf: Elf, t: Space, start: int, end: int)
    requires Aligned(start) && ImageEnd(elf) <= STACK_LOW <= start
    ensures Leaves(s, elf, t, start, end)
  {
    hide LeftOver, Pte, Covered;
    forall a | start <= a < end ensures PageIn(PageOf(a), start, end) {
    }
    hide PageOf;
  }

  lemma TellGap(s: Space, elf: Elf, m0: Phys, m: Phys, k: int, k': int)
    requires AllTold(s, elf, m0, m, k) && k <= k' && forall a :: k <= a < k' ==> !Loaded(elf, Boots(s), a)
    ensures AllTold(s, elf, m0, m, k')
  {
    hide Loaded, LoadByte, PageOf, Content, Stray, PhyAddr, ArgsArea;
    forall pa | PageOf(pa) in m0.frames ensures Told(s, elf, m0, m, k', pa) {
      assert Told(s, elf, m0, m, k, pa);
      if a :| LastBelow(s, elf, a, pa, k) && Content(m, pa) == LoadByte(elf, a) {
        assert LastBelow(s, elf, a, pa, k');
      }
    }
  }

  /** What the sections so far cover is what counts for the next one. */
  lemma CoveredSoFar(elf: Elf)
    ensures var t, d, e := DataStart(elf), BssStart(elf), ImageEnd(elf);
      && (forall x :: PageIn(x, 0, t) ==> (Covered(elf, x) <==> x in PagesGiven(0, t)))
      && (forall x :: PageIn(x, 0, d) ==> (Covered(elf, x) <==> x in PagesGiven(0, t) + PagesGiven(t, d)))
      && (forall x :: PageIn(x, 0, e) ==>
            (Covered(elf, x) <==> x in PagesGiven(0, t) + PagesGiven(t, d) + PagesGiven(d, e)))
  {
  }

  lemma NextTable(s: Space, t: Space, t': Space, given: iset<int>, start: int, end: int)
    requires Table(s, t, given) && Validated(t, t', start, end)
    ensures Table(s, t', given + PagesGiven(start, end))
  {
    hide LeftOver, Pte, Aligned, PageIn, KeepPage, ArgsArea;
  }

  /** The sections below the stack. */
  lemma LowTold(s: Space, elf: Elf, m: Phys, error: int, rest: nat)
    requires KeptArgs(ArgsArea(s.areas)) && ImageEnd(elf) <= STACK_LOW
    requires Available(m.frames, Needs(0, DataStart(elf)) + (Needs(DataStart(elf), BssStart(elf)) +
                                 (Needs(BssStart(elf), ImageEnd(elf)) + rest)))
    ensures var v := LowSections(ClearSpace(s), m, elf, error);
      && Replacing(s, elf, m.frames, v.s, v.m) && AllTold(s, elf, m, v.m, ImageEnd(elf))
      && Available(v.m.frames, rest) && NoCopies(v.s.areas, LoadEnd(s))
      && Table(s, v.s, LowGiven(elf))
  {
    hide Available, AllocateSection, ClearSpace, Stray, Leaves, PartOf, Needs, LoadByte, Replacing, AllTold, ArgsArea,
         KeepPage, LeftOver, Pte, Zeros, Table, PagesGiven, Covered, PageIn, Aligned;
    var t, d, e := DataStart(elf), BssStart(elf), ImageEnd(elf);
    var bound := LoadEnd(s);
    var zeros := Zeros(elf.bssLen);
    var e1 := SectionError(elf.text, error);
    var e2 := SectionError(elf.data, e1);
    var s0 := ClearSpace(s);
    Clears(s, elf, m);
    LowParts(s, elf);
    NothingTold(s, elf, m);
    CoveredSoFar(elf);
    var g1 := PagesGiven(0, t);
    var g2 := g1 + PagesGiven(t, d);
    assert Table(s, s0, iset{}) && iset{} + g1 == g1 by { ClearTable(s, elf, m); }
    NoCopiesKept(s);
    LeavesStray(s, elf, s0, 0, t, iset{});
    SectionTold(s, elf, m, s0, m, "text", 0, elf.text, RONLY, error, bound, Needs(t, d) + (Needs(d, e) + rest));
    var v1 := AllocateSection(s0, m, "text", 0, elf.text, RONLY, error);
    NextTable(s, s0, v1.s, iset{}, 0, t);
    LeavesStray(s, elf, v1.s, t, d, g1);
    SectionTold(s, elf, m, v1.s, v1.m, "data", t, elf.data, RW, e1, bound, Needs(d, e) + rest);
    var v2 := AllocateSection(v1.s, v1.m, "data", t, elf.data, RW, e1);
    NextTable(s, v1.s, v2.s, g1, t, d);
    LeavesStray(s, elf, v2.s, d, e, g2);
    SectionTold(s, elf, m, v2.s, v2.m, "bss", d, zeros, RW, e2, bound, rest);
    var v3 := AllocateSection(v2.s, v2.m, "bss", d, zeros, RW, e2);
    NextTable(s, v2.s, v3.s, g2, d, e);
  }

  lemma ClearTable(s: Space, elf: Elf, m: Phys)
    requires KeptArgs(ArgsArea(s.areas))
    ensures Table(s, ClearSpace(s), iset{})
  {
    hide ClearSpace, KeepPage, ArgsArea, Pte, LeftOver, Replacing;
    Clears(s, elf, m);
  }

  lemma NoCopiesKept(s: Space)
    requires KeptArgs(ArgsArea(s.areas))
    ensures NoCopies(ClearSpace(s).areas, LoadEnd(s))
  {
    hide ArgsArea;
  }

  lemma NothingTold(s: Space, elf: Elf, m: Phys)
    ensures AllTold(s, elf, m, m, 0)
  {
    hide Stray, PhyAddr, PageOf, ArgsArea;
  }

  /** The stack, and the argument area of a process without one. */
  lemma HighTold(s: Space, elf: Elf, m0: Phys, t: Space, m: Phys, error: int, given: iset<int>, rest: nat)
    requires KeptArgs(ArgsArea(s.areas)) && ImageEnd(elf) <= STACK_LOW
    requires Replacing(s, elf, m0.frames, t, m) && AllTold(s, elf, m0, m, STACK_LOW) && NoCopies(t.areas, LoadEnd(s))
    requires Available(m.frames, HighNeeds(s) + rest) && Table(s, t, given)
    ensures var v := HighSections(t, m, Boots(s), error);
      && Replacing(s, elf, m0.frames, v.s, v.m) && AllTold(s, elf, m0, v.m, ARGS_HIGH) && Available(v.m.frames, rest)
      && Table(s, v.s, given + HighGiven(s))
  {
    hide Available, AllocateSection, Stray, Leaves, PartOf, Needs, LoadByte, Replacing, AllTold, ArgsArea,
         KeepPage, LeftOver, Pte, Zeros, Covered, PageIn, Aligned;
    LowParts(s, elf);
    StackAligned();
    var zeros := Zeros(STACK_HIGH - STACK_LOW);
    var n := if Boots(s) then Needs(STACK_HIGH, ARGS_HIGH) + rest else rest;
    LeavesHigh(s, elf, t, STACK_LOW, STACK_HIGH);
    SectionTold(s, elf, m0, t, m, "stack", STACK_LOW, zeros, RW, error, LoadEnd(s), n);
    var v := AllocateSection(t, m, "stack", STACK_LOW, zeros, RW, error);
    NextTable(s, t, v.s, given, STACK_LOW, STACK_HIGH);
    if Boots(s) {
      LeavesHigh(s, elf, v.s, STACK_HIGH, ARGS_HIGH);
      var zeros' := Zeros(ARGS_HIGH - STACK_HIGH);
      SectionTold(s, elf, m0, v.s, v.m, ARGS_NAME, STACK_HIGH, zeros', RW, 0, LoadEnd(s), rest);
      var w := AllocateSection(v.s, v.m, ARGS_NAME, STACK_HIGH, zeros', RW, 0);
      NextTable(s, v.s, w.s, given + PagesGiven(STACK_LOW, STACK_HIGH), STACK_HIGH, ARGS_HIGH);
      assert given + HighGiven(s) == given + PagesGiven(STACK_LOW, STACK_HIGH) + PagesGiven(STACK_HIGH, ARGS_HIGH);
    } else {
      TellGap(s, elf, m0, v.m, STACK_HIGH, ARGS_HIGH);
    }
  }

  lemma StackAligned()
    ensures Aligned(STACK_LOW) && Aligned(STACK_HIGH)
  {
  }

  /** After exec every byte of a frame in use before is as it was, or is the last byte of the image that went there; and
      the pages of the image have new frames but for the stray ones. */
  lemma ExecTold(s: Space, elf: Elf, m: Phys, error: int, rest: nat)
    requires ExecFits(s, m, elf, rest)
    ensures var v := ExecSpace(s, m, elf, error);
      && Replacing(s, elf, m.frames, v.s, v.m) && AllTold(s, elf, m, v.m, ARGS_HIGH)
      && Table(s, v.s, LowGiven(elf) + HighGiven(s)) && Available(v.m.frames, rest)
  {
    hide Available, ClearSpace, Replacing, AllTold, ArgsArea, LowSections, HighSections, Table, PagesGiven, ClearError,
         LowError, Needs;
    var e0 := ClearError(s, error);
    LowTold(s, elf, m, e0, HighNeeds(s) + rest);
    var v := LowSections(ClearSpace(s), m, elf, e0);
    TellGap(s, elf, m, v.m, ImageEnd(elf), STACK_LOW);
    HighTold(s, elf, m, v.s, v.m, LowError(elf, e0), LowGiven(elf), rest);
    Clears(s, elf, m);
  }

  /** Exec leaves every other process alone if and only if no byte of the image goes to a frame that another process has
      mapped, to stay there and be another one than before. */
  lemma ExecOthersExact(sys: Sys, p: int, elf: Elf, error: int)
    requires Inv(sys) && p in sys.procs && ExecFits(sys.procs[p], sys.m, elf)
    ensures OthersKeep(sys, p, ExecSpace(sys.procs[p], sys.m, elf, error).m) <==> forall a :: !Spoils(sys, p, elf, a)
  {
    hide Inv, ExecSpace, Content, Lands, PageOf, LoadByte, Foreign, Replacing, PhyAddr;
    var s := sys.procs[p];
    var m := ExecSpace(s, sys.m, elf, error).m;
    ExecTold(s, elf, sys.m, error, 0);
    OthersByBytes(sys, p, m);
    forall pa | Foreign(sys, p, PageOf(pa)) ensures Told(s, elf, sys.m, m, ARGS_HIGH, pa) {
      ForeignInUse(sys, p, PageOf(pa));
    }
    if forall a :: !Spoils(sys, p, elf, a) {
      forall pa | Foreign(sys, p, PageOf(pa)) ensures Content(m, pa) == Content(sys.m, pa) {
        if a :| LastBelow(s, elf, a, pa, ARGS_HIGH) && Content(m, pa) == LoadByte(elf, a) {
          LandsThere(s, elf, a, pa);
          assert !Spoils(sys, p, elf, a);
        }
      }
    }
    if a :| Spoils(sys, p, elf, a) {
      SpoiledByte(s, elf, sys.m, m, a);
    }
  }

  lemma LandsThere(s: Space, elf: Elf, a: int, pa: int)
    requires Lands(s, elf, a, pa)
    ensures PhyAddr(s, a) == pa
  {
  }

  lemma SpoiledByte(s: Space, elf: Elf, m0: Phys, m: Phys, a: int)
    requires var pa := PhyAddr(s, a); LastBelow(s, elf, a, pa, ARGS_HIGH) && Told(s, elf, m0, m, ARGS_HIGH, pa)
    ensures Content(m, PhyAddr(s, a)) == LoadByte(elf, a)
  {
    hide Lands, Content, LoadByte, PhyAddr;
    var pa := PhyAddr(s, a);
    if c :| LastBelow(s, elf, c, pa, ARGS_HIGH) && Content(m, pa) == LoadByte(elf, c) {
      assert c == a;
    }
  }

  // ---------- an exec that spoils another process ----------

  /** Nothing above a byte on the last page of the image goes where it goes. */
  lemma LastOfImage(s: Space, elf: Elf, a: int)
    requires 0 <= a < ImageEnd(elf) <= STACK_LOW && ImageEnd(elf) <= PageOf(a) + PAGE_SIZE && !Covered(elf, PageOf(a))
    requires !Boots(s) && forall x :: PageIn(x, STACK_LOW, STACK_HIGH) ==> !LeftOver(s, x)
    ensures LastBelow(s, elf, a, PhyAddr(s, a), ARGS_HIGH)
  {
    hide ArgsArea, Covered, LeftOver;
    PageFacts(a);
    forall c | a < c < ARGS_HIGH ensures !Lands(s, elf, c, PhyAddr(s, a)) {
      PageFacts(c);
      if c < ImageEnd(elf) {
        SamePage(a, c);
      } else if Loaded(elf, Boots(s), c) {
        StackPage(c);
      }
    }
  }

  lemma SamePage(a: int, c: int)
    requires a < c < PageOf(a) + PAGE_SIZE
    ensures PageOf(c) == PageOf(a) && Offset(c) != Offset(a)
  {
  }

  lemma StackPage(c: int)
    requires STACK_LOW <= c < STACK_HIGH
    ensures PageIn(PageOf(c), STACK_LOW, STACK_HIGH) && PageOf(c) >= STACK_LOW
  {
  }

  /** A byte on a page that gets no frame shows in every process that has mapped the frame of that page, which is
      frame 0 for a page that never had one. */
  lemma ExecSpoils(sys: Sys, p: int, q: int, y: int, elf: Elf, a: int, error: int)
    requires Inv(sys) && p in sys.procs && ExecFits(sys.procs[p], sys.m, elf) && !Boots(sys.procs[p])
    requires 0 <= a < ImageEnd(elf) <= PageOf(a) + PAGE_SIZE && !Covered(elf, PageOf(a))
    requires forall x :: PageIn(x, STACK_LOW, STACK_HIGH) ==> !LeftOver(sys.procs[p], x)
    requires q in sys.procs && Mapped(sys.procs[q], y) && sys.procs[q].pgd[y] == Frame(sys.procs[p], PageOf(a))
    ensures var m := ExecSpace(sys.procs[p], sys.m, elf, error).m; var c := y + Offset(a);
      && PageOf(c) == y && PhyAddr(sys.procs[q], c) == PhyAddr(sys.procs[p], a)
      && c in View(sys.procs[q], m) && View(sys.procs[q], m)[c] == LoadByte(elf, a)
  {
    hide Inv, ExecSpace, Content, PageOf, Offset, LoadByte, ExecFits, Covered, ArgsArea, LeftOver, Stray, View,
         Available;
    var s := sys.procs[p];
    var m := ExecSpace(s, sys.m, elf, error).m;
    var c := y + Offset(a);
    OfGoodSpace(sys, q, y);
    OnPage(y, Offset(a));
    InItsFrame(sys, q, c);
    MappedFrame(sys, q, y);
    FitsBelow(s, sys.m, elf);
    ExecTold(s, elf, sys.m, error, 0);
    LastOfImage(s, elf, a);
    assert Told(s, elf, sys.m, m, ARGS_HIGH, PhyAddr(s, a));
    SpoiledByte(s, elf, sys.m, m, a);
    ViewAt(sys.procs[q], m, c);
  }

  lemma MappedFrame(sys: Sys, q: int, y: int)
    requires Inv(sys) && q in sys.procs && Mapped(sys.procs[q], y)
    ensures sys.procs[q].pgd[y] in sys.m.frames
  {
    hide ProtAt, Content, PageOf;
  }

  lemma FitsBelow(s: Space, m: Phys, elf: Elf)
    requires ExecFits(s, m, elf)
    ensures ImageEnd(elf) <= STACK_LOW
  {
    hide Available, ArgsArea;
  }

  /** From every guarded state: fork, and let the child execute a file whose last section starts inside a page and
      ends on another. Where the parent has that page, it sees the child's new bytes. */
  lemma ForkThenExecSpoils(sys: Sys, p: int, c: int, elf: Elf, a: int)
    requires Inv(sys) && p in sys.procs && c !in sys.procs && ForkOK(sys.procs[p])
    requires ExecFits(ForkSpace(sys.procs[p]), sys.m, elf) && !Boots(ForkSpace(sys.procs[p]))
    requires 0 <= a < ImageEnd(elf) <= PageOf(a) + PAGE_SIZE && !Covered(elf, PageOf(a))
    requires Mapped(sys.procs[p], PageOf(a))
    requires forall x :: PageIn(x, STACK_LOW, STACK_HIGH) ==> x in sys.procs[p].pgd
    ensures var s := sys.procs[p]; var t := ForkSpace(s); var m := ExecSpace(t, sys.m, elf).m;
      && a in View(t, sys.m) && View(t, sys.m)[a] == View(s, sys.m)[a]
      && a in View(t, m) && View(t, m)[a] == LoadByte(elf, a)
  {
    hide Inv, ExecSpace, Content, Offset, LoadByte, ExecFits, Covered, ArgsArea, View, ForkOK, MarkAreas, ForkAreas,
         Views;
    var s := sys.procs[p];
    var t := ForkSpace(s);
    var sys' := sys.(procs := sys.procs[p := t][c := t]);
    PageFacts(a);
    ForkRefines(sys, p, c);
    SpaceOf(sys, p);
    ForkSpaceFacts(s, sys.m);
    FitsBelow(t, sys.m, elf);
    ExecSpoils(sys', c, p, PageOf(a), elf, a, 0);
    ViewAt(s, sys.m, a);
  }

  lemma SpaceOf(sys: Sys, p: int)
    requires Inv(sys) && p in sys.procs
    ensures GoodSpace(sys.procs[p], sys.m)
  {
  }

  /** Where the sections fit and fork has left no entry on a page of the image, the stack included, nobody notices. */
  lemma NoStrayKeepsOthers(sys: Sys, p: int, elf: Elf, error: int)
    requires Inv(sys) && p in sys.procs && ExecFits(sys.procs[p], sys.m, elf) && Fits(elf)
    requires forall x :: NewPage(x, ImageEnd(elf), Boots(sys.procs[p])) ==> !LeftOver(sys.procs[p], x)
    ensures OthersKeep(sys, p, ExecSpace(sys.procs[p], sys.m, elf, error).m)
  {
    hide Inv, ExecSpace, Content, LoadByte, Foreign, LeftOver, ArgsArea, Available, Covered, Fits;
    var s := sys.procs[p];
    ExecOthersExact(sys, p, elf, error);
    FitsCovers(elf);
    forall a, pa ensures !Lands(s, elf, a, pa) {
      if Loaded(elf, Boots(s), a) {
        LoadedPage(elf, Boots(s), a);
      }
    }
    hide PageOf, PhyAddr;
  }

  lemma LoadedPage(elf: Elf, boot: bool, a: int)
    requires Loaded(elf, boot, a)
    ensures NewPage(PageOf(a), ImageEnd(elf), boot)
    ensures PageOf(a) < STACK_LOW ==> PageIn(PageOf(a), 0, ImageEnd(elf))
  {
  }

  // ---------- which pages get frames of their own ----------

  /** The sections fit and fork has left no entry on their pages. */
  ghost predicate NoStray(s: Space, elf: Elf) {
    Fits(elf) && forall x :: PageIn(x, 0, ImageEnd(elf)) ==> !LeftOver(s, x)
  }

  /** Exec gives every byte of text, data and bss a frame that was not in use if and only if the sections fit and fork
      has left no entry on their pages. */
  lemma ExecGivesFrames(s: Space, m: Phys, elf: Elf, error: int)
    requires ExecFits(s, m, elf) && 0 in m.frames
    ensures var t := ExecSpace(s, m, elf, error).s;
      (forall a :: 0 <= a < ImageEnd(elf) ==> Mapped(t, PageOf(a)) && Frame(t, PageOf(a)) !in m.frames)
      <==> NoStray(s, elf)
  {
    hide ExecSpace, Covered, ArgsArea, LeftOver, PageOf, Fits, Available;
    var t := ExecSpace(s, m, elf, error).s;
    var e := ImageEnd(elf);
    ExecTold(s, elf, m, error, 0);
    forall x | PageIn(x, 0, e)
      ensures Mapped(t, x) && Frame(t, x) !in m.frames <==> Covered(elf, x) && !LeftOver(s, x)
    {
      OwnPage(x, 0, e);
      LowPages(s, x);
      ExecPage(s, m, elf, error, x);
    }
    ImagePages(elf);
    FitsCovers(elf);
  }
}
