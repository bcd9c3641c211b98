/** exec gives a process a fresh image: its sections, a zero stack, and the argument area it had before. */
module ExecImage {
  import opened Words
  import opened Paging
  import opened Isolation

  /** Zero bytes at [lo, hi). */
  ghost function Fill(lo: int, hi: int): (f: Flat)
    ensures forall a :: a in f <==> Within(a, lo, hi)
    ensures forall a :: a in f ==> f[a] == 0
  {
    map a | lo <= a < hi && Within(a, lo, hi) :: 0
  }

  /** The bytes of data from start on. */
  ghost function Place(start: int, data: seq<Byte>): (f: Flat)
    ensures forall a :: a in f <==> Within(a, start, start + |data|)
    ensures forall a :: a in f ==> f[a] == ByteAt(start, data, a)
  {
    map a | start <= a < start + |data| && Within(a, start, start + |data|) :: ByteAt(start, data, a)
  }

  function ByteAt(start: int, data: seq<Byte>, a: int): Byte {
    if start <= a < start + |data| then data[a - start] else 0
  }

  predicate Within(a: int, lo: int, hi: int) {
    lo <= a < hi
  }

  // ---------- mapping pages ----------

  /** A fresh page is private and zero. */
  lemma MapOne(sys: Sys, p: int, page: int)
    requires Inv(sys) && p in sys.procs && Aligned(page) && 0 <= page < TWO_32
    requires Pte(sys.procs[p], page) == PTE_INVALID && Available(sys.m.frames, 1)
    ensures var v := AllocatePagePte(sys.procs[p], sys.m, page); var sys' := Sys(sys.procs[p := v.s], v.m);
      && Inv(sys') && v.s.areas == sys.procs[p].areas
      && (forall x :: x != page ==> Pte(v.s, x) == Pte(sys.procs[p], x) && (x in v.s.pgd <==> x in sys.procs[p].pgd))
      && (forall x :: x != page && x in v.s.pgd ==> v.s.pgd[x] == sys.procs[p].pgd[x])
      && Mapped(v.s, page) && Pte(v.s, page) == PTE_RW && Private(sys', p, page)
      && (forall x :: Mapped(sys.procs[p], x) && Private(sys, p, x) ==> Private(sys', p, x))
      && Views(sys') == Views(sys)[p := View(sys.procs[p], sys.m) + Fill(page, page + PAGE_SIZE)]
      && v.m.frames == sys.m.frames + {FirstFree(sys.m.frames, 0)}
  {
    hide PageOf, Offset, FirstFree, ProtAt, View, Content, Aligned, Fill, Available, AllocatePagePte, PhyAddr, Shielded;
    var s := sys.procs[p];
    var f := FirstFree(sys.m.frames, 0);
    MapFields(s, sys.m, page);
    var v := AllocatePagePte(s, sys.m, page);
    var sys' := Sys(sys.procs[p := v.s], v.m);
    MapOneView(s, sys.m, page, f);
    assert SameExcept(sys.m, v.m, f) by { SameContent(sys.m, v.m); }
    forall q | q in sys.procs && q != p ensures View(sys'.procs[q], v.m) == View(sys.procs[q], sys.m) {
      ViewFrame(sys.procs[q], sys.m, v.m, f);
    }
    forall q, y | q in sys'.procs && Mapped(sys'.procs[q], y)
      ensures Private(sys', q, y) || Shielded(sys'.procs[q], y)
    {
      if q != p || y != page {
        assert Mapped(sys.procs[q], y);
        ShieldedAgain(sys.procs[q], sys'.procs[q], y);
      }
    }
  }

  lemma MapFields(s: Space, m: Phys, page: int)
    requires Aligned(page) && Pte(s, page) == PTE_INVALID && Available(m.frames, 1)
    ensures var f := FirstFree(m.frames, 0); var v := AllocatePagePte(s, m, page);
      && Aligned(f) && 0 <= f < FRAME_LIMIT && f !in m.frames
      && v.s == s.(pgd := s.pgd[page := f], valid := s.valid[page := PTE_RW])
      && v.m == m.(frames := m.frames + {f})
  {
    hide FirstFree;
  }

  lemma ShieldedAgain(s: Space, t: Space, x: int)
    requires s.areas == t.areas && Pte(s, x) == Pte(t, x)
    ensures Shielded(s, x) ==> Shielded(t, x)
  {
    hide PageOf, ProtAt;
  }

  lemma MapOneView(s: Space, m: Phys, page: int, f: int)
    requires GoodPhys(m) && GoodSpace(s, m) && Aligned(page) && 0 <= page < TWO_32
    requires !Mapped(s, page) && f !in m.frames && Aligned(f) && 0 <= f < FRAME_LIMIT
    ensures var t := s.(pgd := s.pgd[page := f], valid := s.valid[page := PTE_RW]);
      var m' := m.(frames := m.frames + {f});
      View(t, m') == View(s, m) + Fill(page, page + PAGE_SIZE) && GoodPhys(m') && GoodSpace(t, m')
  {
    hide PageOf, Content, Offset, Fill;
    var t := s.(pgd := s.pgd[page := f], valid := s.valid[page := PTE_RW]);
    var m' := m.(frames := m.frames + {f});
    forall a
      ensures a in View(t, m') <==> a in View(s, m) + Fill(page, page + PAGE_SIZE)
      ensures a in View(t, m') ==> View(t, m')[a] == (View(s, m) + Fill(page, page + PAGE_SIZE))[a]
    {
      MapOneByte(s, m, page, f, a);
    }
    assert GoodPhys(m') by { SameContent(m, m'); }
    hide View;
  }

  lemma SameContent(m: Phys, m': Phys)
    requires m.mem == m'.mem
    ensures forall pa :: Content(m', pa) == Content(m, pa)
  {
  }

  lemma ViewAt(s: Space, m: Phys, a: int)
    ensures a in View(s, m) <==> 0 <= a < TWO_32 && Mapped(s, PageOf(a))
    ensures a in View(s, m) ==> View(s, m)[a] == Content(m, PhyAddr(s, a))
  {
  }

  lemma MapOneByte(s: Space, m: Phys, page: int, f: int, a: int)
    requires GoodPhys(m) && GoodSpace(s, m) && Aligned(page) && 0 <= page < TWO_32
    requires !Mapped(s, page) && f !in m.frames && Aligned(f) && 0 <= f < FRAME_LIMIT
    ensures var t := s.(pgd := s.pgd[page := f], valid := s.valid[page := PTE_RW]);
      var m' := m.(frames := m.frames + {f});
      && (a in View(t, m') <==> a in View(s, m) + Fill(page, page + PAGE_SIZE))
      && (a in View(t, m') ==> View(t, m')[a] == (View(s, m) + Fill(page, page + PAGE_SIZE))[a])
  {
    hide PageOf, Offset, Content, View, Fill;
    var t := s.(pgd := s.pgd[page := f], valid := s.valid[page := PTE_RW]);
    var m' := m.(frames := m.frames + {f});
    ViewAt(s, m, a);
    ViewAt(t, m', a);
    InPage(a, page);
    assert Content(m', PhyAddr(t, a)) == Content(m, PhyAddr(t, a)) by { SameContent(m, m'); }
    if PageOf(a) == page {
      FrameFacts(f, Offset(a));
    }
  }

  lemma InPage(a: int, page: int)
    requires Aligned(page)
    ensures PageOf(a) == page <==> page <= a < page + PAGE_SIZE
    ensures 0 <= page < TWO_32 && PageOf(a) == page ==> 0 <= a < TWO_32
  {
  }

  // ---------- an address space under construction ----------

  /** The pages of the argument area; its closed end reaches into one more page. */
  predicate ArgsPage(x: int) {
    STACK_HIGH <= x <= ARGS_HIGH
  }

  /** An argument area kept by exec, or none. */
  predicate KeptArgs(kept: seq<Area>) {
    kept == [] || (|kept| == 1 && kept[0].start == STACK_HIGH && kept[0].end == ARGS_HIGH)
  }

  predicate LowAreas(low: seq<Area>) {
    forall x :: x in low ==> x.end <= STACK_HIGH
  }

  function KeepPage(kept: seq<Area>, x: int): bool {
    kept != [] && ArgsPage(x)
  }

  /** All pages but the kept ones are private and fresh, and the new areas stay off the kept pages. */
  ghost predicate Building(sys: Sys, p: int, kept: seq<Area>, low: seq<Area>) {
    && Inv(sys) && p in sys.procs
    && KeptArgs(kept) && (kept == [] || LowAreas(low))
    && sys.procs[p].areas == kept + low
    && forall x :: Mapped(sys.procs[p], x) && !KeepPage(kept, x) ==>
         Private(sys, p, x) && Pte(sys.procs[p], x) == PTE_RW
  }

  /** Areas below the kept pages do not change their protection. */
  lemma {:induction false} LowProt(low: seq<Area>, a: int)
    requires LowAreas(low) && a > STACK_HIGH
    ensures ProtAt(low, a) == 0
    decreases low
  {
    if low != [] {
      assert low[0] in low;
      assert forall x :: x in low[1..] ==> x in low;
      LowProt(low[1..], a);
    }
  }

  lemma KeptProt(kept: seq<Area>, low: seq<Area>, low': seq<Area>, a: int)
    requires KeptArgs(kept) && kept != [] && LowAreas(low) && LowAreas(low') && KeepPage(kept, PageOf(a))
    ensures ProtAt(kept + low, a) == ProtAt(kept + low', a)
  {
    assert (kept + low)[1..] == low && (kept + low')[1..] == low';
    assert a >= STACK_HIGH by { PageFacts(a); }
    if a > STACK_HIGH {
      LowProt(low, a);
      LowProt(low', a);
    }
  }

  lemma AreasDoNotShow(s: Space, t: Space, m: Phys)
    requires t == s.(areas := t.areas)
    ensures View(t, m) == View(s, m) && (GoodSpace(s, m) ==> GoodSpace(t, m))
    ensures forall x :: Mapped(t, x) <==> Mapped(s, x)
  {
    hide PageOf, Content, Offset;
    assert forall a :: PhyAddr(t, a) == PhyAddr(s, a);
    assert forall a :: Mapped(t, PageOf(a)) <==> Mapped(s, PageOf(a));
  }

  /** New areas on fresh pages change nothing that anybody sees. */
  lemma SetAreas(sys: Sys, p: int, kept: seq<Area>, low: seq<Area>, low': seq<Area>)
    requires Building(sys, p, kept, low) && (kept == [] || LowAreas(low'))
    ensures var sys' := sys.(procs := sys.procs[p := sys.procs[p].(areas := kept + low')]);
      Building(sys', p, kept, low') && Views(sys') == Views(sys)
  {
    hide PageOf, ProtAt, Content, LowAreas, KeptArgs, ArgsPage, View, Mapped, GoodPhys, GoodSpace, Shielded, Pte;
    var s := sys.procs[p];
    var t := s.(areas := kept + low');
    var sys' := sys.(procs := sys.procs[p := t]);
    AreasDoNotShow(s, t, sys.m);
    forall q, y | q in sys'.procs && Mapped(sys'.procs[q], y)
      ensures Mapped(sys.procs[q], y) && (Private(sys, q, y) ==> Private(sys', q, y))
      ensures Private(sys', q, y) || Shielded(sys'.procs[q], y)
    {
      if q == p && !Private(sys, q, y) {
        StillShielded(s, t, kept, low, low', y);
      }
    }
    assert forall x :: Pte(t, x) == Pte(s, x) by { PteOnly(s, t); }
  }

  lemma PteOnly(s: Space, t: Space)
    requires s.valid == t.valid
    ensures forall x :: Pte(t, x) == Pte(s, x)
  {
  }

  lemma StillShielded(s: Space, t: Space, kept: seq<Area>, low: seq<Area>, low': seq<Area>, x: int)
    requires KeptArgs(kept) && kept != [] && LowAreas(low) && LowAreas(low') && KeepPage(kept, x)
    requires s.areas == kept + low && t == s.(areas := kept + low') && Shielded(s, x)
    ensures Shielded(t, x)
  {
    hide PageOf, ProtAt;
    forall a | PageOf(a) == x ensures ProtAt(t.areas, a) == ProtAt(s.areas, a) {
      KeptProt(kept, low, low', a);
    }
  }

  function RoundUp(n: int): int {
    PageOf(n + PAGE_SIZE - 1)
  }

  function PagesIn(addr: int, end: int): nat
    decreases end - addr
  {
    if addr >= end then 0 else 1 + PagesIn(addr + PAGE_SIZE, end)
  }

  /** The page that holds some address of [addr, end), for aligned addr. */
  predicate PageIn(x: int, addr: int, end: int) {
    Aligned(x) && addr <= x < end
  }

  /** Mapping the pages of an unmapped range adds that many zero pages. */
  lemma {:induction false} MapFresh(sys: Sys, p: int, kept: seq<Area>, low: seq<Area>, addr: int, end: int, rest: nat)
    requires Building(sys, p, kept, low) && Aligned(addr) && 0 <= addr && end <= TWO_32
    requires forall x :: PageIn(x, addr, end) ==> Pte(sys.procs[p], x) == PTE_INVALID && !KeepPage(kept, x)
    requires Available(sys.m.frames, PagesIn(addr, end) + rest)
    ensures var v := MapPages(sys.procs[p], sys.m, addr, end); var sys' := Sys(sys.procs[p := v.s], v.m);
      && Building(sys', p, kept, low)
      && Views(sys') == Views(sys)[p := View(sys.procs[p], sys.m) + Fill(addr, RoundUp(end))]
    ensures var v := MapPages(sys.procs[p], sys.m, addr, end);
      && Available(v.m.frames, rest)
      && (forall x :: PageIn(x, addr, end) ==> Mapped(v.s, x))
      && (forall x :: !PageIn(x, addr, end) ==> Pte(v.s, x) == Pte(sys.procs[p], x))
      && (forall x :: !PageIn(x, addr, end) ==> (Mapped(v.s, x) <==> Mapped(sys.procs[p], x)))
    decreases end - addr
  {
    hide Inv, Views, View, Private, AllocatePagePte, FirstFree, LowAreas, KeptArgs, ArgsPage, Fill;
    var s := sys.procs[p];
    if addr >= end {
      NoPages(addr, end);
      assert View(s, sys.m) + Fill(addr, RoundUp(end)) == View(s, sys.m) by { FillEmpty(addr, RoundUp(end)); }
      SameProcs(sys, p);
      ViewsSame(sys, p);
    } else {
      AlignedPage(addr);
      assert PageIn(addr, addr, end);
      assert Available(sys.m.frames, 1);
      MapOne(sys, p, addr);
      var v := AllocatePagePte(s, sys.m, addr);
      var sys1 := Sys(sys.procs[p := v.s], v.m);
      MapStep(addr, end);
      assert Building(sys1, p, kept, low);
      MapFresh(sys1, p, kept, low, addr + PAGE_SIZE, end, rest);
      FillJoin(View(s, sys.m), addr, addr + PAGE_SIZE, RoundUp(end));
      ViewsAt(sys1, p);
      var w := MapPages(v.s, v.m, addr + PAGE_SIZE, end);
      assert w == MapPages(s, sys.m, addr, end);
      UpdateTwice(sys.procs, p, v.s, w.s);
    }
  }

  lemma UpdateTwice<T>(m: map<int, T>, p: int, x: T, y: T)
    ensures m[p := x][p := y] == m[p := y]
  {
  }

  lemma AlignedPage(addr: int)
    requires Aligned(addr)
    ensures PageOf(addr) == addr && Aligned(addr + PAGE_SIZE)
  {
  }

  lemma NoPages(addr: int, end: int)
    requires Aligned(addr) && addr >= end
    ensures RoundUp(end) <= addr && forall x :: !PageIn(x, addr, end)
  {
  }

  lemma MapStep(addr: int, end: int)
    requires Aligned(addr) && addr < end
    ensures addr + PAGE_SIZE <= RoundUp(end)
    ensures forall x :: PageIn(x, addr, end) <==> x == addr || PageIn(x, addr + PAGE_SIZE, end)
  {
  }

  lemma FillEmpty(lo: int, hi: int)
    requires hi <= lo
    ensures Fill(lo, hi) == map[]
  {
    assert forall a :: a !in Fill(lo, hi);
  }

  lemma FillJoin(f: Flat, lo: int, mid: int, hi: int)
    requires lo <= mid <= hi
    ensures f + Fill(lo, mid) + Fill(mid, hi) == f + Fill(lo, hi)
  {
    hide Fill;
    var l, r := f + Fill(lo, mid) + Fill(mid, hi), f + Fill(lo, hi);
    forall a ensures (a in l <==> a in r) && (a in l ==> l[a] == r[a]) {
    }
  }

  lemma ViewsSame(sys: Sys, p: int)
    requires p in sys.procs
    ensures Views(sys)[p := View(sys.procs[p], sys.m)] == Views(sys)
  {
    hide View;
  }

  lemma ViewsAt(sys: Sys, p: int)
    requires p in sys.procs
    ensures p in Views(sys) && Views(sys)[p] == View(sys.procs[p], sys.m)
  {
    hide View;
  }

  /** A section that starts inside a page maps no page: every address of its page loop is refused. */
  lemma {:induction false} MapUnaligned(s: Space, m: Phys, addr: int, end: int)
    requires !Aligned(addr)
    ensures MapPages(s, m, addr, end) == VmState(s, m)
    decreases end - addr
  {
    hide PageOf, FirstFree;
    if addr < end {
      assert !Aligned(addr + PAGE_SIZE);
      MapUnaligned(s, m, addr + PAGE_SIZE, end);
    }
  }

  /** Pages that are already there are left alone. */
  lemma {:induction false} MapNothing(s: Space, m: Phys, addr: int, end: int)
    requires forall a :: addr <= a < end ==> Mapped(s, PageOf(a))
    ensures MapPages(s, m, addr, end) == VmState(s, m)
    decreases end - addr
  {
    hide PageOf, AllocatePagePte;
    if addr < end {
      MapNothing(s, m, addr + PAGE_SIZE, end);
    }
  }

  /** A process whose pages for [start, start + |data|) are there. */
  ghost predicate Ready(sys: Sys, p: int, kept: seq<Area>, start: int, len: nat) {
    p in sys.procs &&
    forall a :: start <= a < start + len ==>
      Within(a, 0, TWO_32) && Mapped(sys.procs[p], PageOf(a)) && !KeepPage(kept, PageOf(a))
  }

  /** Readiness depends on the mapped pages only. */
  lemma ReadyAgain(sys: Sys, sys': Sys, p: int, kept: seq<Area>, start: int, len: nat, start': int, len': nat)
    requires Ready(sys, p, kept, start, len) && p in sys'.procs
    requires forall x :: Mapped(sys.procs[p], x) ==> Mapped(sys'.procs[p], x)
    requires start <= start' && start' + len' <= start + len
    ensures Ready(sys', p, kept, start', len')
  {
    hide PageOf, Mapped, Within;
    forall a | start' <= a < start' + len'
      ensures Within(a, 0, TWO_32) && Mapped(sys'.procs[p], PageOf(a)) && !KeepPage(kept, PageOf(a))
    {
      assert Mapped(sys.procs[p], PageOf(a));
    }
  }

  ghost predicate InAreas(areas: seq<Area>, start: int, len: nat) {
    forall a :: start <= a < start + len ==> InAnArea(areas, a)
  }

  /** Writing data into fresh pages places exactly that data. */
  lemma {:induction false} WriteFresh(sys: Sys, p: int, kept: seq<Area>, low: seq<Area>, addr: int, data: seq<Byte>,
                                     error: int)
    requires Building(sys, p, kept, low)
    requires Ready(sys, p, kept, addr, |data|) && InAreas(sys.procs[p].areas, addr, |data|)
    ensures var v := WriteAll(sys.procs[p], sys.m, addr, data, error); var sys' := Sys(sys.procs[p := v.s], v.m);
      && v.s == sys.procs[p] && v.m.frames == sys.m.frames && sys'.procs == sys.procs
      && Building(sys', p, kept, low)
      && Views(sys') == Views(sys)[p := View(sys.procs[p], sys.m) + Place(addr, data)]
    decreases data
  {
    hide Inv, Views, View, Private, LowAreas, KeptArgs, ArgsPage, Place, PageOf, InAnArea, PhyAddr, ProtAt;
    var s := sys.procs[p];
    SameProcs(sys, p);
    if data == [] {
      assert View(s, sys.m) + Place(addr, data) == View(s, sys.m) by { PlaceEmpty(addr); }
      ViewsSame(sys, p);
    } else {
      assert s.pgd == s.pgd[PageOf(addr) := Frame(s, PageOf(addr))];
      assert !MustCopy(s, addr);
      assert WriteVm(s, sys.m, addr, data[0], error) == VmState(s, Put(sys.m, PhyAddr(s, addr), data[0]));
      PutRefines(sys, p, addr, data[0]);
      var sys1 := sys.(m := Put(sys.m, PhyAddr(s, addr), data[0]));
      assert Building(sys1, p, kept, low) by { SamePrivate(sys, sys1); }
      ReadyAgain(sys, sys1, p, kept, addr, |data|, addr + 1, |data| - 1);
      WriteFresh(sys1, p, kept, low, addr + 1, data[1..], WriteError(s, addr));
      PlaceCons(View(s, sys.m), addr, data);
      ViewsAt(sys1, p);
      hide Put, WriteVm, Building;
    }
  }

  lemma SamePrivate(sys: Sys, sys': Sys)
    requires sys.procs == sys'.procs
    ensures forall p, x :: Private(sys', p, x) <==> Private(sys, p, x)
  {
  }

  lemma PlaceEmpty(addr: int)
    ensures Place(addr, []) == map[]
  {
    assert forall a :: a !in Place(addr, []);
  }

  lemma PlaceCons(f: Flat, addr: int, data: seq<Byte>)
    requires data != []
    ensures f[addr := data[0]] + Place(addr + 1, data[1..]) == f + Place(addr, data)
  {
    hide Place;
  }

  /** The second half of allocate_section: the area goes in, the data is written, the protection is set. */
  lemma FillSection(sys: Sys, p: int, kept: seq<Area>, low: seq<Area>, name: string, start: int, data: seq<Byte>,
                    prot: int, error: int)
    requires Building(sys, p, kept, low) && Ready(sys, p, kept, start, |data|)
    requires kept == [] || (LowAreas(low) && start + |data| <= STACK_HIGH)
    ensures var s := sys.procs[p];
      var area := Area(start, start + |data|, RW, PRIVATE, name);
      var w := WriteAll(s.(areas := s.areas + [area]), sys.m, start, data, error);
      var t := w.s.(areas := s.areas + [area.(prot := prot)]);
      var sys' := Sys(sys.procs[p := t], w.m);
      && Building(sys', p, kept, low + [area.(prot := prot)])
      && Views(sys') == Views(sys)[p := View(s, sys.m) + Place(start, data)]
      && t == s.(areas := t.areas) && w.m.frames == sys.m.frames
  {
    hide Inv, Views, View, Private, KeptArgs, ArgsPage, Place, PageOf, Mapped;
    var s := sys.procs[p];
    var area := Area(start, start + |data|, RW, PRIVATE, name);
    var area' := area.(prot := prot);
    assert s.areas + [area] == kept + (low + [area]) && s.areas + [area'] == kept + (low + [area']);
    var s1 := s.(areas := s.areas + [area]);
    var sys1 := sys.(procs := sys.procs[p := s1]);
    SetAreas(sys, p, kept, low, low + [area]);
    AreasDoNotShow(s, s1, sys.m);
    ReadyAgain(sys, sys1, p, kept, start, |data|, start, |data|);
    forall a | start <= a < start + |data| ensures InAnArea(s1.areas, a) {
      assert s1.areas[|s.areas|] == area && Covers(area, a);
    }
    WriteFresh(sys1, p, kept, low + [area], start, data, error);
    var w := WriteAll(s1, sys.m, start, data, error);
    var sys2 := Sys(sys1.procs[p := w.s], w.m);
    SetAreas(sys2, p, kept, low + [area], low + [area']);
    UpdateTwice(sys.procs, p, s1, w.s);
    UpdateTwice(sys.procs, p, w.s, w.s.(areas := s.areas + [area']));
  }

  /** A section on pages of its own. */
  lemma FreshSection(sys: Sys, p: int, kept: seq<Area>, low: seq<Area>, name: string, start: int, data: seq<Byte>,
                     prot: int, error: int, rest: nat)
    requires Building(sys, p, kept, low) && Aligned(start) && 0 <= start && start + |data| <= TWO_32
    requires kept == [] || (LowAreas(low) && start + |data| <= STACK_HIGH)
    requires forall x :: PageIn(x, start, start + |data|) ==>
      Pte(sys.procs[p], x) == PTE_INVALID && !KeepPage(kept, x)
    requires Available(sys.m.frames, PagesIn(start, start + |data|) + rest)
    ensures var v := AllocateSection(sys.procs[p], sys.m, name, start, data, prot, error);
      var sys' := Sys(sys.procs[p := v.s], v.m);
      && Building(sys', p, kept, low + [Area(start, start + |data|, prot, PRIVATE, name)])
      && Views(sys') == Views(sys)[p := View(sys.procs[p], sys.m) + Fill(start, RoundUp(start + |data|))
                                        + Place(start, data)]
    ensures var v := AllocateSection(sys.procs[p], sys.m, name, start, data, prot, error);
      && Available(v.m.frames, rest)
      && (forall x :: PageIn(x, start, start + |data|) ==> Mapped(v.s, x))
      && (forall x :: !PageIn(x, start, start + |data|) ==> Pte(v.s, x) == Pte(sys.procs[p], x))
      && (forall x :: !PageIn(x, start, start + |data|) ==> (Mapped(v.s, x) <==> Mapped(sys.procs[p], x)))
  {
    hide Inv, Views, View, Private, KeptArgs, ArgsPage, Place, Fill, MapPages, WriteAll, Available, RoundUp, Mapped;
    var s := sys.procs[p];
    var end := start + |data|;
    MapFresh(sys, p, kept, low, start, end, rest);
    var v := MapPages(s, sys.m, start, end);
    var sys1 := Sys(sys.procs[p := v.s], v.m);
    forall a | start <= a < end
      ensures Within(a, 0, TWO_32) && Mapped(v.s, PageOf(a)) && !KeepPage(kept, PageOf(a))
    {
      PageInside(a, start, end);
    }
    FillSection(sys1, p, kept, low, name, start, data, prot, MapError(s, sys.m, start, end, error));
    var r := AllocateSection(s, sys.m, name, start, data, prot, error);
    UpdateTwice(sys.procs, p, v.s, r.s);
    ViewsAt(sys1, p);
    UpdateTwice(Views(sys), p, Views(sys1)[p], Views(sys1)[p] + Place(start, data));
    SamePages(v.s, r.s);
  }

  lemma SamePages(s: Space, t: Space)
    requires t == s.(areas := t.areas)
    ensures forall x :: Pte(t, x) == Pte(s, x) && (Mapped(t, x) <==> Mapped(s, x))
  {
  }

  lemma PageInside(a: int, start: int, end: int)
    requires Aligned(start) && start <= a < end
    ensures PageIn(PageOf(a), start, end)
  {
  }

  /** A section on pages that an earlier section brought. */
  lemma SharedSection(sys: Sys, p: int, kept: seq<Area>, low: seq<Area>, name: string, start: int, data: seq<Byte>,
                      prot: int, error: int)
    requires Building(sys, p, kept, low) && Ready(sys, p, kept, start, |data|)
    requires kept == [] || (LowAreas(low) && start + |data| <= STACK_HIGH)
    ensures var v := AllocateSection(sys.procs[p], sys.m, name, start, data, prot, error);
      var sys' := Sys(sys.procs[p := v.s], v.m);
      && Building(sys', p, kept, low + [Area(start, start + |data|, prot, PRIVATE, name)])
      && Views(sys') == Views(sys)[p := View(sys.procs[p], sys.m) + Place(start, data)]
      && v.s == sys.procs[p].(areas := v.s.areas) && v.m.frames == sys.m.frames
  {
    hide Building, Views, View, WriteAll, MapPages, Mapped, Place;
    MapNothing(sys.procs[p], sys.m, start, start + |data|);
    FillSection(sys, p, kept, low, name, start, data, prot,
                MapError(sys.procs[p], sys.m, start, start + |data|, error));
  }

  // ---------- exec ----------

  /** The page loop of a section brings all its pages: it starts on a page, or ends on the page it starts on. */
  predicate SectionFits(start: int, end: int) {
    Aligned(start) || end <= RoundUp(start)
  }

  function DataStart(elf: Elf): nat {
    |elf.text|
  }

  function BssStart(elf: Elf): nat {
    |elf.text| + |elf.data|
  }

  function ImageEnd(elf: Elf): nat {
    |elf.text| + |elf.data| + elf.bssLen
  }

  /** Each section ends on the last page of the one before, or starts on a page of its own. */
  predicate Fits(elf: Elf) {
    SectionFits(DataStart(elf), BssStart(elf)) && SectionFits(BssStart(elf), ImageEnd(elf))
  }

  /** A page that exec maps afresh. */
  predicate NewPage(x: int, end: int, boot: bool) {
    || PageIn(x, 0, end)
    || PageIn(x, STACK_LOW, STACK_HIGH)
    || (boot && PageIn(x, STACK_HIGH, ARGS_HIGH))
  }

  /** The guard of exec. The sections fit (ExecMapsImage shows that otherwise bytes of the image stay unmapped). A
      process without argument area is new and has no pages; otherwise the argument area is the usual one, mapped, and
      no other area hides it. No entry is left over from marking a page that never existed, and there are frames
      enough. */
  ghost predicate ExecOK(sys: Sys, p: int, elf: Elf) {
    p in sys.procs &&
    var s := sys.procs[p];
    var kept := ArgsArea(s.areas);
    && Fits(elf) && RoundUp(ImageEnd(elf)) <= STACK_LOW
    && KeptArgs(kept)
    && (kept == [] ==> forall x :: !Mapped(s, x))
    && (kept != [] ==> forall a :: STACK_HIGH <= a <= ARGS_HIGH ==> ProtAt(s.areas, a) == kept[0].prot)
    && (kept != [] ==> forall x :: PageIn(x, STACK_HIGH, ARGS_HIGH) ==> Mapped(s, x))
    && (forall x :: NewPage(x, ImageEnd(elf), kept == []) && x !in s.pgd ==> Pte(s, x) == PTE_INVALID)
    && Available(sys.m.frames, PagesIn(0, ImageEnd(elf)) + (PagesIn(STACK_LOW, STACK_HIGH) +
                                                            if kept == [] then PagesIn(STACK_HIGH, ARGS_HIGH) else 0))
  }

  /** The argument pages of a process. */
  ghost function Keep(f: Flat): (r: Flat)
    ensures forall a :: a in r <==> a in f && ArgsPage(PageOf(a))
    ensures forall a :: a in r ==> r[a] == f[a]
  {
    map a | a in f && ArgsPage(PageOf(a)) :: f[a]
  }

  /** The addresses exec leaves accessible: the pages of text, data and bss, the stack, and the argument area. */
  ghost predicate InImage(f: Flat, elf: Elf, a: int) {
    || 0 <= a < RoundUp(ImageEnd(elf))
    || STACK_LOW <= a < STACK_HIGH
    || (if f == map[] then STACK_HIGH <= a < ARGS_HIGH else a in f && ArgsPage(PageOf(a)))
  }

  /** The byte exec leaves at such an address, where f is what the process saw before. */
  ghost function ImageByte(f: Flat, elf: Elf, a: int): Byte {
    var t := |elf.text|;
    if 0 <= a < t then elf.text[a]
    else if t <= a < t + |elf.data| then elf.data[a - t]
    else if a >= STACK_HIGH && a in f then f[a]
    else 0
  }

  ghost function ExecFlat(f: Flat, elf: Elf): (r: Flat)
    ensures forall a :: a in r <==> Within(a, 0, TWO_32) && InImage(f, elf, a)
    ensures forall a :: a in r ==> r[a] == ImageByte(f, elf, a)
  {
    map a | 0 <= a < TWO_32 && Within(a, 0, TWO_32) && InImage(f, elf, a) :: ImageByte(f, elf, a)
  }

  lemma ClearFields(s: Space, x: int)
    requires KeptArgs(ArgsArea(s.areas))
    ensures var kept := ArgsArea(s.areas); var t := ClearSpace(s);
      && t.areas == kept && t.pgd == s.pgd
      && (x in s.pgd ==> Pte(t, x) == if KeepPage(kept, x) then Pte(s, x) else PTE_INVALID)
      && (x !in s.pgd ==> Pte(t, x) == Pte(s, x))
      && (Mapped(t, x) <==> Mapped(s, x) && KeepPage(kept, x))
  {
    assert PageOf(STACK_HIGH) == STACK_HIGH && PageOf(ARGS_HIGH) == ARGS_HIGH;
  }

  /** Clearing leaves the argument pages. */
  lemma Clear(sys: Sys, p: int, elf: Elf)
    requires Inv(sys) && ExecOK(sys, p, elf)
    ensures var s := sys.procs[p]; var kept := ArgsArea(s.areas);
      var sys' := sys.(procs := sys.procs[p := ClearSpace(s)]);
      && Building(sys', p, kept, [])
      && Views(sys') == Views(sys)[p := if kept == [] then map[] else Keep(View(s, sys.m))]
  {
    hide PageOf, ProtAt, ClearSpace, Content, RoundUp, PagesIn, Available, NewPage, PageIn, GoodPhys, Offset;
    var s := sys.procs[p];
    var kept := ArgsArea(s.areas);
    var t := ClearSpace(s);
    var sys' := sys.(procs := sys.procs[p := t]);
    ClearFields(s, 0);
    assert kept + [] == kept;
    forall x ensures Mapped(t, x) <==> Mapped(s, x) && KeepPage(kept, x) {
      ClearFields(s, x);
    }
    ClearView(s, sys.m);
    hide View, Keep, Mapped, Pte, KeepPage;
    forall q, y | q in sys'.procs && Mapped(sys'.procs[q], y)
      ensures Private(sys', q, y) || Shielded(sys'.procs[q], y)
    {
      assert Mapped(sys.procs[q], y);
      if q == p && !Private(sys, q, y) {
        ClearFields(s, y);
        ClearShielded(sys, p, elf, y);
      }
    }
  }

  lemma ClearView(s: Space, m: Phys)
    requires KeptArgs(ArgsArea(s.areas))
    ensures View(ClearSpace(s), m) == if ArgsArea(s.areas) == [] then map[] else Keep(View(s, m))
  {
    hide PageOf, ClearSpace, Content, View, Keep, Offset;
    var kept := ArgsArea(s.areas);
    var t := ClearSpace(s);
    var r := if kept == [] then map[] else Keep(View(s, m));
    forall a ensures (a in View(t, m) <==> a in r) && (a in r ==> View(t, m)[a] == r[a]) {
      ViewAt(s, m, a);
      ViewAt(t, m, a);
      ClearFields(s, PageOf(a));
    }
  }

  lemma ClearShielded(sys: Sys, p: int, elf: Elf, x: int)
    requires ExecOK(sys, p, elf) && Shielded(sys.procs[p], x) && KeepPage(ArgsArea(sys.procs[p].areas), x)
    ensures Shielded(ClearSpace(sys.procs[p]), x)
  {
    hide PageOf, ClearSpace, RoundUp, PagesIn, Available, NewPage, PageIn;
    var s := sys.procs[p];
    ClearFields(s, x);
    forall a | PageOf(a) == x
      ensures var t := ClearSpace(s);
        ProtAt(t.areas, a) != RW && (ProtAt(t.areas, a) == COPY_ON_WRITE ==> Pte(t, x) == PTE_RONLY)
    {
      var kept := ArgsArea(s.areas);
      assert ProtAt(kept, a) == if Covers(kept[0], a) then kept[0].prot else 0;
    }
  }

  /** Text, data and bss over their pages. */
  ghost function LowPart(f: Flat, elf: Elf): Flat {
    f + Fill(0, RoundUp(DataStart(elf))) + Place(0, elf.text)
    + Fill(RoundUp(DataStart(elf)), RoundUp(BssStart(elf))) + Place(DataStart(elf), elf.data)
    + Fill(RoundUp(BssStart(elf)), RoundUp(ImageEnd(elf))) + Place(BssStart(elf), Zeros(elf.bssLen))
  }

  /** The image as it is built, section by section. */
  ghost function Sections(f: Flat, elf: Elf, boot: bool): Flat {
    var g := LowPart(if boot then map[] else Keep(f), elf)
      + Fill(STACK_LOW, RoundUp(STACK_HIGH)) + Place(STACK_LOW, Zeros(STACK_HIGH - STACK_LOW));
    if boot then g + Fill(STACK_HIGH, RoundUp(ARGS_HIGH)) + Place(STACK_HIGH, Zeros(ARGS_HIGH - STACK_HIGH)) else g
  }

  lemma LowByte(f: Flat, elf: Elf, a: int)
    requires Fits(elf)
    ensures var l := LowPart(f, elf);
      && (a in l <==> a in f || Within(a, 0, RoundUp(ImageEnd(elf))))
      && (Within(a, 0, RoundUp(ImageEnd(elf))) ==>
            l[a] == if a < |elf.text| then elf.text[a] else ByteAt(|elf.text|, elf.data, a))
      && (a in f && !Within(a, 0, RoundUp(ImageEnd(elf))) ==> l[a] == f[a])
  {
    hide Fits, RoundUp, Fill, Place, Zeros, ByteAt;
    var t, d, e := DataStart(elf), BssStart(elf), ImageEnd(elf);
    RoundUps(t, d);
    RoundUps(d, e);
    var l1 := f + Fill(0, RoundUp(t)) + Place(0, elf.text);
    var l2 := l1 + Fill(RoundUp(t), RoundUp(d)) + Place(t, elf.data);
    Layer(f, 0, RoundUp(t), 0, elf.text, a);
    Layer(l1, RoundUp(t), RoundUp(d), t, elf.data, a);
    Layer(l2, RoundUp(d), RoundUp(e), d, Zeros(elf.bssLen), a);
    LayerBytes(elf, a);
  }

  /** One section over what is there: its pages are zero, except where it has bytes. */
  lemma Layer(f: Flat, lo: int, hi: int, start: int, data: seq<Byte>, a: int)
    ensures var l := f + Fill(lo, hi) + Place(start, data);
      && (a in l <==> a in f || Within(a, lo, hi) || Within(a, start, start + |data|))
      && (Within(a, start, start + |data|) ==> l[a] == ByteAt(start, data, a))
      && (!Within(a, start, start + |data|) && Within(a, lo, hi) ==> l[a] == 0)
      && (!Within(a, start, start + |data|) && !Within(a, lo, hi) && a in f ==> l[a] == f[a])
  {
    hide Fill, Place, ByteAt;
  }

  lemma LayerBytes(elf: Elf, a: int)
    ensures Within(a, 0, |elf.text|) ==> ByteAt(0, elf.text, a) == elf.text[a]
    ensures ByteAt(BssStart(elf), Zeros(elf.bssLen), a) == 0
    ensures !Within(a, DataStart(elf), BssStart(elf)) ==> ByteAt(DataStart(elf), elf.data, a) == 0
  {
  }

  lemma RoundUps(a: int, b: int)
    requires a <= b
    ensures a <= RoundUp(a) <= RoundUp(b) && b <= RoundUp(b)
  {
  }

  lemma WholePages(a: int)
    ensures RoundUp(STACK_HIGH) == STACK_HIGH && RoundUp(ARGS_HIGH) == ARGS_HIGH
    ensures ArgsPage(PageOf(a)) ==> a >= STACK_HIGH
  {
  }

  lemma SectionByte(f: Flat, elf: Elf, boot: bool, a: int)
    requires Fits(elf) && RoundUp(ImageEnd(elf)) <= STACK_LOW
    requires boot <==> f == map[]
    requires forall x :: x in f ==> 0 <= x < TWO_32
    ensures var l := Sections(f, elf, boot);
      && (a in l <==> Within(a, 0, TWO_32) && InImage(f, elf, a))
      && (a in l ==> l[a] == ImageByte(f, elf, a))
  {
    hide RoundUp, Fill, Place, Keep, ArgsPage, PageOf, Zeros, LowPart, Fits;
    RoundUps(BssStart(elf), ImageEnd(elf));
    RoundUps(DataStart(elf), BssStart(elf));
    WholePages(a);
    LowByte(if boot then map[] else Keep(f), elf, a);
  }

  lemma SectionsAreExec(f: Flat, elf: Elf, boot: bool)
    requires Fits(elf) && RoundUp(ImageEnd(elf)) <= STACK_LOW
    requires boot <==> f == map[]
    requires forall x :: x in f ==> 0 <= x < TWO_32
    ensures Sections(f, elf, boot) == ExecFlat(f, elf)
  {
    hide Sections, ExecFlat, InImage, ImageByte, RoundUp, Fits;
    var l, r := Sections(f, elf, boot), ExecFlat(f, elf);
    forall a ensures (a in l <==> a in r) && (a in l ==> l[a] == r[a]) {
      SectionByte(f, elf, boot, a);
    }
  }

  /** The pages of the bytes below the stack. */
  lemma LowPage(a: int, end: int)
    requires 0 <= a < RoundUp(end) <= STACK_LOW
    ensures PageIn(PageOf(a), 0, end) && !ArgsPage(PageOf(a))
  {
  }

  lemma LowReady(sys: Sys, p: int, kept: seq<Area>, end: int, start: int, len: nat)
    requires p in sys.procs && 0 <= start && start + len <= RoundUp(end) <= STACK_LOW
    requires forall x :: PageIn(x, 0, end) ==> Mapped(sys.procs[p], x)
    ensures Ready(sys, p, kept, start, len)
  {
    hide RoundUp, PageOf, PageIn;
    forall a | start <= a < start + len
      ensures Within(a, 0, TWO_32) && Mapped(sys.procs[p], PageOf(a)) && !KeepPage(kept, PageOf(a))
    {
      LowPage(a, end);
    }
  }

  /** The pages exec maps are free once the old ones are cleared. */
  lemma NewPagesFree(sys: Sys, p: int, elf: Elf, x: int)
    requires ExecOK(sys, p, elf)
    requires var kept := ArgsArea(sys.procs[p].areas); NewPage(x, ImageEnd(elf), kept == [])
    ensures var kept := ArgsArea(sys.procs[p].areas);
      Pte(ClearSpace(sys.procs[p]), x) == PTE_INVALID && !KeepPage(kept, x)
  {
    hide ClearSpace, RoundUp, PagesIn, Available, Pte, Fits;
    ClearFields(sys.procs[p], x);
    RoundUpLeast(ImageEnd(elf));
  }

  lemma RoundUpLeast(n: int)
    ensures n <= RoundUp(n) < n + PAGE_SIZE
  {
  }

  /** Where a section starts on a page, the part from there on is new; otherwise nothing is. */
  lemma SectionPages(start: int, end: int)
    requires 0 <= start <= end && SectionFits(start, end)
    ensures Aligned(start) ==> RoundUp(start) == start
    ensures !Aligned(start) ==> RoundUp(end) == RoundUp(start)
    ensures forall x :: PageIn(x, 0, end) <==> PageIn(x, 0, start) || PageIn(x, RoundUp(start), end)
    ensures !Aligned(start) ==> forall x :: !PageIn(x, RoundUp(start), end)
  {
  }

  /** A section that fits adds its new pages, zero, and its bytes. */
  lemma AnySection(sys: Sys, p: int, kept: seq<Area>, low: seq<Area>, name: string, start: int, data: seq<Byte>,
                   prot: int, error: int, rest: nat)
    requires p in sys.procs && Building(sys, p, kept, low) && LowAreas(low)
    requires 0 <= start && SectionFits(start, start + |data|) && RoundUp(start + |data|) <= STACK_LOW
    requires forall x :: PageIn(x, 0, start) ==> Mapped(sys.procs[p], x)
    requires forall x :: PageIn(x, RoundUp(start), start + |data|) ==>
      Pte(sys.procs[p], x) == PTE_INVALID && !KeepPage(kept, x)
    requires Available(sys.m.frames, PagesIn(RoundUp(start), start + |data|) + rest)
    ensures var v := AllocateSection(sys.procs[p], sys.m, name, start, data, prot, error);
      var sys' := Sys(sys.procs[p := v.s], v.m);
      && Building(sys', p, kept, low + [Area(start, start + |data|, prot, PRIVATE, name)])
      && Views(sys') == Views(sys)[p := View(sys.procs[p], sys.m) + Fill(RoundUp(start), RoundUp(start + |data|))
                                          + Place(start, data)]
    ensures var v := AllocateSection(sys.procs[p], sys.m, name, start, data, prot, error);
      && Available(v.m.frames, rest)
      && (forall x :: PageIn(x, 0, start + |data|) ==> Mapped(v.s, x))
      && (forall x :: !PageIn(x, RoundUp(start), start + |data|) ==> Pte(v.s, x) == Pte(sys.procs[p], x))
  {
    hide Building, Views, View, KeptArgs, Place, Fill, Available, Mapped, AllocateSection, PageIn, PageOf, Pte,
         KeepPage, RoundUp, PagesIn, LowAreas, Aligned;
    var s := sys.procs[p];
    var end := start + |data|;
    SectionPages(start, end);
    RoundUps(start, end);
    var v := AllocateSection(s, sys.m, name, start, data, prot, error);
    if Aligned(start) {
      FreshSection(sys, p, kept, low, name, start, data, prot, error, rest);
    } else {
      LowReady(sys, p, kept, start, start, |data|);
      SharedSection(sys, p, kept, low, name, start, data, prot, error);
      NoPagesIn(RoundUp(start), end);
      assert View(s, sys.m) + Fill(RoundUp(start), RoundUp(end)) == View(s, sys.m) by {
        FillEmpty(RoundUp(start), RoundUp(end));
      }
      SamePages(s, v.s);
    }
  }

  lemma NoPagesIn(addr: int, end: int)
    requires addr >= end
    ensures PagesIn(addr, end) == 0
  {
  }

  /** Pages counted up to mid, and from there on. */
  lemma {:induction false} PagesSplit(addr: int, mid: int, end: int)
    requires Aligned(addr) && addr <= mid <= end
    ensures PagesIn(addr, end) == PagesIn(addr, mid) + PagesIn(RoundUp(mid), end)
    decreases end - addr
  {
    hide RoundUp;
    if addr == mid {
      SectionPages0(mid);
    } else if mid <= addr + PAGE_SIZE {
      NextBoundary(addr, mid);
      assert PagesIn(addr, mid) == 1 by { NoPagesIn(addr + PAGE_SIZE, mid); }
    } else {
      PagesSplit(addr + PAGE_SIZE, mid, end);
    }
  }

  lemma SectionPages0(mid: int)
    requires Aligned(mid)
    ensures RoundUp(mid) == mid
  {
  }

  lemma NextBoundary(addr: int, mid: int)
    requires Aligned(addr) && addr < mid <= addr + PAGE_SIZE
    ensures RoundUp(mid) == addr + PAGE_SIZE
  {
  }

  lemma BuildLow(sys: Sys, p: int, kept: seq<Area>, elf: Elf, error: int, rest: nat) returns (low: seq<Area>)
    requires p in sys.procs && Building(sys, p, kept, [])
    requires Fits(elf) && RoundUp(ImageEnd(elf)) <= STACK_LOW
    requires forall x :: PageIn(x, 0, ImageEnd(elf)) ==> Pte(sys.procs[p], x) == PTE_INVALID && !KeepPage(kept, x)
    requires Available(sys.m.frames, PagesIn(0, ImageEnd(elf)) + rest)
    ensures var v := LowSections(sys.procs[p], sys.m, elf, error); var sys' := Sys(sys.procs[p := v.s], v.m);
      && Building(sys', p, kept, low) && LowAreas(low)
      && Views(sys') == Views(sys)[p := LowPart(View(sys.procs[p], sys.m), elf)]
      && Available(v.m.frames, rest)
      && forall x :: !PageIn(x, 0, ImageEnd(elf)) ==> Pte(v.s, x) == Pte(sys.procs[p], x)
  {
    hide Views, View, Place, Fill, Available, Mapped, AllocateSection, Building, PageIn,
         PageOf, Zeros, Pte, KeepPage, RoundUp, PagesIn, Aligned, SectionFits;
    var s := sys.procs[p];
    var t, d, e := DataStart(elf), BssStart(elf), ImageEnd(elf);
    var zeros := Zeros(elf.bssLen);
    var x1, x2 := Area(0, t, RONLY, PRIVATE, "text"), Area(t, d, RW, PRIVATE, "data");
    var x3 := Area(d, e, RW, PRIVATE, "bss");
    low := [x1, x2, x3];
    LowLayout(elf, rest);
    var e1 := SectionError(elf.text, error);

    AnySection(sys, p, kept, [], "text", 0, elf.text, RONLY, error,
               PagesIn(RoundUp(t), d) + (PagesIn(RoundUp(d), e) + rest));
    var v1 := AllocateSection(s, sys.m, "text", 0, elf.text, RONLY, error);
    var sys1 := Sys(sys.procs[p := v1.s], v1.m);
    assert [] + [x1] == [x1];
    ViewsAt(sys1, p);

    AnySection(sys1, p, kept, [x1], "data", t, elf.data, RW, e1, PagesIn(RoundUp(d), e) + rest);
    var v2 := AllocateSection(v1.s, v1.m, "data", t, elf.data, RW, e1);
    var sys2 := Sys(sys1.procs[p := v2.s], v2.m);
    assert [x1] + [x2] == [x1, x2];
    ViewsAt(sys2, p);

    AnySection(sys2, p, kept, [x1, x2], "bss", d, zeros, RW, SectionError(elf.data, e1), rest);
    var v3 := AllocateSection(v2.s, v2.m, "bss", d, zeros, RW, SectionError(elf.data, e1));
    assert [x1, x2] + [x3] == low;
    UpdateTwice(sys.procs, p, v1.s, v2.s);
    UpdateTwice(sys.procs, p, v2.s, v3.s);
    UpdateTwice(Views(sys), p, Views(sys1)[p], Views(sys2)[p]);
    UpdateTwice(Views(sys), p, Views(sys2)[p], LowPart(View(s, sys.m), elf));
  }

  /** How the pages of the three sections follow each other. */
  lemma LowLayout(elf: Elf, rest: nat)
    requires Fits(elf) && RoundUp(ImageEnd(elf)) <= STACK_LOW
    ensures var t, d, e := DataStart(elf), BssStart(elf), ImageEnd(elf);
      && RoundUp(0) == 0 && SectionFits(0, t) && SectionFits(t, d) && SectionFits(d, e)
      && RoundUp(t) <= RoundUp(d) <= RoundUp(e) && e <= RoundUp(e)
      && PagesIn(0, e) + rest == PagesIn(RoundUp(0), t) + (PagesIn(RoundUp(t), d) + (PagesIn(RoundUp(d), e) + rest))
      && (forall x :: !PageIn(x, 0, 0))
      && (forall x :: PageIn(x, 0, e) <==> PageIn(x, 0, t) || PageIn(x, RoundUp(t), d) || PageIn(x, RoundUp(d), e))
      && (forall x :: PageIn(x, RoundUp(t), d) ==> !PageIn(x, 0, t))
      && (forall x :: PageIn(x, RoundUp(d), e) ==> !PageIn(x, 0, t) && !PageIn(x, RoundUp(t), d))
  {
    var t, d, e := DataStart(elf), BssStart(elf), ImageEnd(elf);
    SectionPages(0, t);
    SectionPages(t, d);
    SectionPages(d, e);
    RoundUps(t, d);
    RoundUps(d, e);
    PagesSplit(0, t, e);
    RoundedSplit(t, d, e);
    hide RoundUp, PagesIn;
  }

  lemma RoundedSplit(t: int, d: int, e: int)
    requires t <= d <= e && SectionFits(t, d)
    ensures PagesIn(RoundUp(t), e) == PagesIn(RoundUp(t), d) + PagesIn(RoundUp(d), e)
  {
    SectionPages1(t, d);
    if RoundUp(t) <= d {
      PagesSplit(RoundUp(t), d, e);
    } else {
      NoPagesIn(RoundUp(t), d);
    }
  }

  lemma SectionPages1(t: int, d: int)
    requires t <= d
    ensures Aligned(RoundUp(t)) && (d < RoundUp(t) ==> RoundUp(d) == RoundUp(t))
  {
  }

  lemma AboveImage(x: int, end: int)
    requires RoundUp(end) <= STACK_LOW && x >= STACK_LOW
    ensures !PageIn(x, 0, end)
  {
    RoundUpLeast(end);
  }

  lemma BuildHigh(sys: Sys, p: int, kept: seq<Area>, low: seq<Area>, error: int)
    requires p in sys.procs && Building(sys, p, kept, low) && LowAreas(low)
    requires forall x :: PageIn(x, STACK_LOW, STACK_HIGH) ==> Pte(sys.procs[p], x) == PTE_INVALID && !KeepPage(kept, x)
    requires kept == [] ==> forall x :: PageIn(x, STACK_HIGH, ARGS_HIGH) ==> Pte(sys.procs[p], x) == PTE_INVALID
    requires Available(sys.m.frames, PagesIn(STACK_LOW, STACK_HIGH) +
                                     if kept == [] then PagesIn(STACK_HIGH, ARGS_HIGH) else 0)
    ensures var boot := kept == [];
      var v := HighSections(sys.procs[p], sys.m, boot, error);
      var sys' := Sys(sys.procs[p := v.s], v.m);
      var g := View(sys.procs[p], sys.m) + Fill(STACK_LOW, RoundUp(STACK_HIGH))
        + Place(STACK_LOW, Zeros(STACK_HIGH - STACK_LOW));
      && Inv(sys')
      && Views(sys') == Views(sys)[p := if boot
           then g + Fill(STACK_HIGH, RoundUp(ARGS_HIGH)) + Place(STACK_HIGH, Zeros(ARGS_HIGH - STACK_HIGH)) else g]
  {
    hide Views, View, Private, KeptArgs, ArgsPage, Place, Fill, Available, Mapped, AllocateSection, PageIn,
         PageOf, Zeros, Pte, KeepPage, RoundUp, PagesIn, LowAreas, Inv;
    var s := sys.procs[p];
    var rest := if kept == [] then PagesIn(STACK_HIGH, ARGS_HIGH) else 0;
    var zeros := Zeros(STACK_HIGH - STACK_LOW);
    assert Aligned(STACK_LOW) && Aligned(STACK_HIGH);
    FreshSection(sys, p, kept, low, "stack", STACK_LOW, zeros, RW, error, rest);
    var v := AllocateSection(s, sys.m, "stack", STACK_LOW, zeros, RW, error);
    var sys1 := Sys(sys.procs[p := v.s], v.m);
    ViewsAt(sys1, p);
    if kept == [] {
      var zeros' := Zeros(ARGS_HIGH - STACK_HIGH);
      forall x | PageIn(x, STACK_HIGH, ARGS_HIGH) ensures Pte(v.s, x) == PTE_INVALID && !KeepPage(kept, x) {
        AboveStack(x);
        NothingKept(x);
      }
      var low1 := low + [Area(STACK_LOW, STACK_LOW + |zeros|, RW, PRIVATE, "stack")];
      FreshSection(sys1, p, kept, low1, ARGS_NAME, STACK_HIGH, zeros', RW, 0, 0);
      var w := AllocateSection(v.s, v.m, ARGS_NAME, STACK_HIGH, zeros', RW, 0);
      UpdateTwice(sys.procs, p, v.s, w.s);
      var sys2 := Sys(sys1.procs[p := w.s], w.m);
      UpdateTwice(Views(sys), p, Views(sys1)[p],
                  Views(sys1)[p] + Fill(STACK_HIGH, RoundUp(ARGS_HIGH)) + Place(STACK_HIGH, zeros'));
    }
  }

  lemma AboveStack(x: int)
    requires PageIn(x, STACK_HIGH, ARGS_HIGH)
    ensures !PageIn(x, STACK_LOW, STACK_HIGH)
  {
  }

  lemma NothingKept(x: int)
    ensures !KeepPage([], x)
  {
  }

  /** exec replaces the memory of the process by the image, keeps its argument area, and nobody else notices. */
  lemma ExecRefines(sys: Sys, p: int, elf: Elf)
    requires Inv(sys) && ExecOK(sys, p, elf)
    ensures var v := ExecSpace(sys.procs[p], sys.m, elf); var sys' := Sys(sys.procs[p := v.s], v.m);
      Inv(sys') && Views(sys') == Views(sys)[p := ExecFlat(View(sys.procs[p], sys.m), elf)]
  {
    hide Inv, Views, View, Private, KeptArgs, ArgsPage, Place, Fill, Available, Mapped, AllocateSection, PageIn,
         PageOf, Zeros, Pte, KeepPage, RoundUp, PagesIn, ClearSpace, Keep, LowPart, ExecFlat, ProtAt, LowAreas,
         LowSections, HighSections, ArgsArea, ExecSpace, Fits, ClearError;
    var s := sys.procs[p];
    var f := View(s, sys.m);
    var kept := ArgsArea(s.areas);
    var boot := kept == [];
    BootIsEmpty(sys, p, elf);
    Clear(sys, p, elf);
    var s0 := ClearSpace(s);
    var sys0 := sys.(procs := sys.procs[p := s0]);
    ViewsAt(sys0, p);
    var e0 := ClearError(s, 0);
    forall x | NewPage(x, ImageEnd(elf), boot) ensures Pte(s0, x) == PTE_INVALID && !KeepPage(kept, x) {
      NewPagesFree(sys, p, elf, x);
    }
    var rest := if boot then PagesIn(STACK_HIGH, ARGS_HIGH) else 0;
    var low := BuildLow(sys0, p, kept, elf, e0, PagesIn(STACK_LOW, STACK_HIGH) + rest);
    var v3 := LowSections(s0, sys.m, elf, e0);
    var sys3 := Sys(sys.procs[p := v3.s], v3.m);
    UpdateTwice(sys.procs, p, s0, v3.s);
    ViewsAt(sys3, p);
    forall x | x >= STACK_LOW ensures !PageIn(x, 0, ImageEnd(elf)) {
      AboveImage(x, ImageEnd(elf));
    }
    HighPages();
    BuildHigh(sys3, p, kept, low, LowError(elf, e0));
    var v := HighSections(v3.s, v3.m, boot, LowError(elf, e0));
    assert v == ExecSpace(s, sys.m, elf) by { ExecParts(s, sys.m, elf); }
    UpdateTwice(sys.procs, p, v3.s, v.s);
    UpdateTwice(Views(sys), p, Views(sys0)[p], Views(sys3)[p]);
    UpdateTwice(Views(sys), p, Views(sys3)[p], Sections(f, elf, boot));
    SectionsAreExec(f, elf, boot);
  }

  lemma HighPages()
    ensures forall x :: PageIn(x, STACK_LOW, STACK_HIGH) || PageIn(x, STACK_HIGH, ARGS_HIGH) ==> x >= STACK_LOW
  {
  }

  lemma BootIsEmpty(sys: Sys, p: int, elf: Elf)
    requires Inv(sys) && ExecOK(sys, p, elf)
    ensures ArgsArea(sys.procs[p].areas) == [] <==> View(sys.procs[p], sys.m) == map[]
    ensures forall x :: x in View(sys.procs[p], sys.m) ==> 0 <= x < TWO_32
  {
    hide Content, RoundUp, PagesIn, Available, NewPage, ProtAt;
    var s := sys.procs[p];
    if ArgsArea(s.areas) == [] {
      assert forall a :: a !in View(s, sys.m);
    } else {
      assert PageIn(STACK_HIGH, STACK_HIGH, ARGS_HIGH) && PageOf(STACK_HIGH) == STACK_HIGH;
      assert STACK_HIGH in View(s, sys.m);
    }
  }

  lemma ExecParts(s: Space, m: Phys, elf: Elf)
    ensures var s0 := ClearSpace(s); var e0 := ClearError(s, 0); var v3 := LowSections(s0, m, elf, e0);
      ExecSpace(s, m, elf) == HighSections(v3.s, v3.m, ArgsArea(s.areas) == [], LowError(elf, e0))
  {
    hide LowSections, HighSections, ArgsArea, ClearError, LowError;
  }

  // ---------- protections ----------

  lemma {:induction false} MapPagesAreas(s: Space, m: Phys, addr: int, end: int)
    ensures MapPages(s, m, addr, end).s.areas == s.areas
    decreases end - addr
  {
    hide PageOf, FirstFree;
    if addr < end {
      var v := if PageOf(addr) !in s.pgd || Pte(s, PageOf(addr)) == PTE_INVALID then AllocatePagePte(s, m, addr)
               else VmState(s, m);
      MapPagesAreas(v.s, v.m, addr + PAGE_SIZE, end);
    }
  }

  lemma SectionAreas(s: Space, m: Phys, name: string, start: int, data: seq<Byte>, prot: int, error: int)
    ensures AllocateSection(s, m, name, start, data, prot, error).s.areas
         == s.areas + [Area(start, start + |data|, prot, PRIVATE, name)]
  {
    hide MapPages, WriteAll;
    MapPagesAreas(s, m, start, start + |data|);
  }

  /** The areas exec leaves, in the order in which a lookup goes through them. */
  lemma ExecAreas(s: Space, m: Phys, elf: Elf, error: int)
    ensures var t := |elf.text|; var d := t + |elf.data|; var kept := ArgsArea(s.areas);
      ExecSpace(s, m, elf, error).s.areas == kept + [
        Area(0, t, 1, 1, "text"),
        Area(t, d, 3, 1, "data"),
        Area(d, d + elf.bssLen, 3, 1, "bss"),
        Area(0x3FFF_0000, 0x4000_0000, 3, 1, "stack")]
        + if kept == [] then [Area(0x4000_0000, 0x4001_0000, 3, 1, "cmd_args")] else []
  {
    hide AllocateSection, ArgsArea, ClearError;
    var t := |elf.text|;
    var v0 := ClearSpace(s);
    var e0 := ClearError(s, error);
    var e1 := SectionError(elf.text, e0);
    var e2 := SectionError(elf.data, e1);
    SectionAreas(v0, m, "text", 0, elf.text, RONLY, e0);
    var v1 := AllocateSection(v0, m, "text", 0, elf.text, RONLY, e0);
    SectionAreas(v1.s, v1.m, "data", t, elf.data, RW, e1);
    var v2 := AllocateSection(v1.s, v1.m, "data", t, elf.data, RW, e1);
    SectionAreas(v2.s, v2.m, "bss", t + |elf.data|, Zeros(elf.bssLen), RW, e2);
    var v3 := AllocateSection(v2.s, v2.m, "bss", t + |elf.data|, Zeros(elf.bssLen), RW, e2);
    var e3 := LowError(elf, e0);
    SectionAreas(v3.s, v3.m, "stack", STACK_LOW, Zeros(STACK_HIGH - STACK_LOW), RW, e3);
    var v4 := AllocateSection(v3.s, v3.m, "stack", STACK_LOW, Zeros(STACK_HIGH - STACK_LOW), RW, e3);
    SectionAreas(v4.s, v4.m, ARGS_NAME, STACK_HIGH, Zeros(ARGS_HIGH - STACK_HIGH), RW, 0);
  }

  /** After exec the text is read-only, and because areas are closed at their end so is the first byte behind it, which
      is data; the rest of data and bss and the stack can be written, and the gap belongs to no area. */
  lemma ExecProtections(s: Space, m: Phys, elf: Elf, a: int)
    requires KeptArgs(ArgsArea(s.areas)) && ImageEnd(elf) <= 0x3FFF_0000 && a < 0x4000_0000
    ensures var t := |elf.text|; var end := t + |elf.data| + elf.bssLen;
      var prot := ProtAt(ExecSpace(s, m, elf).s.areas, a);
      && (prot == 1 <==> 0 <= a <= t)
      && (prot == 3 <==> t < a && (a <= end || 0x3FFF_0000 <= a))
      && (prot == 0 <==> a < 0 || end < a < 0x3FFF_0000)
  {
    hide ExecSpace, ArgsArea;
    ExecAreas(s, m, elf, 0);
    var t := |elf.text|;
    var d := t + |elf.data|;
    var kept := ArgsArea(s.areas);
    var areas := ExecSpace(s, m, elf).s.areas;
    var rest := if kept == [] then [Area(STACK_HIGH, ARGS_HIGH, RW, PRIVATE, ARGS_NAME)] else [];
    var text, data := Area(0, t, RONLY, PRIVATE, "text"), Area(t, d, RW, PRIVATE, "data");
    var bss, stack := Area(d, d + elf.bssLen, RW, PRIVATE, "bss"), Area(STACK_LOW, STACK_HIGH, RW, PRIVATE, "stack");
    FourAreas(text, data, bss, stack, rest, a);
    assert rest == [] || rest[1..] == [];
    if kept != [] {
      assert areas[1..] == [text, data, bss, stack] + rest;
    } else {
      assert areas == [text, data, bss, stack] + rest;
    }
  }

  lemma FourAreas(w: Area, x: Area, y: Area, z: Area, rest: seq<Area>, a: int)
    ensures ProtAt([w, x, y, z] + rest, a) ==
            if Covers(w, a) then w.prot else if Covers(x, a) then x.prot
            else if Covers(y, a) then y.prot else if Covers(z, a) then z.prot
            else ProtAt(rest, a)
  {
    hide ProtAt, Covers;
    assert [w, x, y, z] + rest == [w] + ([x] + ([y] + ([z] + rest)));
    ProtCons(w, [x] + ([y] + ([z] + rest)), a);
    ProtCons(x, [y] + ([z] + rest), a);
    ProtCons(y, [z] + rest, a);
    ProtCons(z, rest, a);
  }

  lemma ProtCons(x: Area, rest: seq<Area>, a: int)
    ensures ProtAt([x] + rest, a) == if Covers(x, a) then x.prot else ProtAt(rest, a)
  {
    assert ([x] + rest)[1..] == rest;
  }

  // ---------- which bytes of the image are mapped ----------

  /** Copy-on-write areas lie at the arguments or above. */
  predicate HighCopies(areas: seq<Area>) {
    forall x :: x in areas && x.prot == COPY_ON_WRITE ==> x.start >= STACK_HIGH
  }

  lemma {:induction false} BelowHigh(areas: seq<Area>)
    requires HighCopies(areas)
    ensures forall a :: a < STACK_HIGH ==> ProtAt(areas, a) != COPY_ON_WRITE
  {
    if areas != [] {
      BelowHigh(areas[1..]);
    }
  }

  /** The page loop maps the pages of a section that starts on a page, and none of one that does not. */
  lemma {:induction false} MapPagesPage(s: Space, m: Phys, addr: int, end: int, x: int)
    requires Mapped(s, x) || Pte(s, x) == PTE_INVALID
    ensures Mapped(MapPages(s, m, addr, end).s, x) <==> Mapped(s, x) || (Aligned(addr) && PageIn(x, addr, end))
    ensures Mapped(MapPages(s, m, addr, end).s, x) || Pte(MapPages(s, m, addr, end).s, x) == PTE_INVALID
    decreases end - addr
  {
    if !Aligned(addr) {
      MapUnaligned(s, m, addr, end);
    } else if addr < end {
      AlignedPage(addr);
      MapStep(addr, end);
      hide FirstFree, PageOf, Aligned;
      var v := if addr !in s.pgd || Pte(s, addr) == PTE_INVALID then AllocatePagePte(s, m, addr) else VmState(s, m);
      MapPagesPage(v.s, v.m, addr + PAGE_SIZE, end, x);
    }
  }

  /** Writing below the arguments maps nothing and unmaps nothing. */
  lemma {:induction false} WriteAllPage(s: Space, m: Phys, addr: int, data: seq<Byte>, error: int, x: int)
    requires HighCopies(s.areas) && addr + |data| <= STACK_HIGH
    requires Mapped(s, x) || Pte(s, x) == PTE_INVALID
    ensures var t := WriteAll(s, m, addr, data, error).s; Pte(t, x) == Pte(s, x) && (Mapped(t, x) <==> Mapped(s, x))
    decreases data
  {
    hide ProtAt, PageOf, CopyPage, InAnArea, Put, HighCopies, PhyAddr;
    if data != [] {
      BelowHigh(s.areas);
      var v := WriteVm(s, m, addr, data[0], error);
      assert v.s.areas == s.areas && v.s.valid == s.valid;
      assert Mapped(v.s, x) <==> Mapped(s, x) by { EntryDefaults(s, v.s, PageOf(addr), x); }
      WriteAllPage(v.s, v.m, addr + 1, data[1..], WriteError(s, addr), x);
    }
  }

  /** A default entry for a page that is not valid, or a repeated one, maps nothing. */
  lemma EntryDefaults(s: Space, t: Space, page: int, x: int)
    requires t.valid == s.valid && (t.pgd == s.pgd || t.pgd == s.pgd[page := Frame(s, page)])
    requires Pte(s, x) == PTE_INVALID || x in s.pgd
    ensures Mapped(t, x) <==> Mapped(s, x)
  {
  }

  /** A section below the arguments maps exactly the pages of its page loop. */
  lemma SectionPage(s: Space, m: Phys, name: string, start: int, data: seq<Byte>, prot: int, error: int, x: int)
    requires HighCopies(s.areas) && start + |data| <= STACK_HIGH
    requires Mapped(s, x) || Pte(s, x) == PTE_INVALID
    ensures var t := AllocateSection(s, m, name, start, data, prot, error).s;
      && (Mapped(t, x) <==> Mapped(s, x) || (Aligned(start) && PageIn(x, start, start + |data|)))
      && (Mapped(t, x) || Pte(t, x) == PTE_INVALID)
      && (prot != COPY_ON_WRITE ==> HighCopies(t.areas))
  {
    hide MapPages, WriteAll, PageIn, Aligned;
    var end := start + |data|;
    var v := MapPages(s, m, start, end);
    MapPagesPage(s, m, start, end, x);
    MapPagesAreas(s, m, start, end);
    var area := Area(start, end, RW, PRIVATE, name);
    WriteAllPage(v.s.(areas := v.s.areas + [area]), v.m, start, data, MapError(s, m, start, end, error), x);
  }

  /** An entry of a page without frame, as fork leaves it when it marks a page that never existed. */
  predicate LeftOver(s: Space, x: int) {
    x !in s.pgd && Pte(s, x) != PTE_INVALID
  }

  /** A page of the image is mapped after exec exactly if a section that starts on a page covers it, or it had an
      entry and no frame, when it gets frame 0. */
  lemma ExecPage(s: Space, m: Phys, elf: Elf, error: int, x: int)
    requires ImageEnd(elf) <= STACK_LOW && KeptArgs(ArgsArea(s.areas)) && PageIn(x, 0, ImageEnd(elf))
    ensures Mapped(ExecSpace(s, m, elf, error).s, x) <==> Covered(elf, x) || LeftOver(s, x)
  {
    hide ExecSpace, Covered, LeftOver, ArgsArea;
    if LeftOver(s, x) {
      ExecLeftOver(s, m, elf, error, x);
    } else {
      ExecFreshPage(s, m, elf, error, x);
    }
  }

  predicate Covered(elf: Elf, x: int) {
    var t, d, e := DataStart(elf), BssStart(elf), ImageEnd(elf);
    PageIn(x, 0, t) || (Aligned(t) && PageIn(x, t, d)) || (Aligned(d) && PageIn(x, d, e))
  }

  lemma ExecFreshPage(s: Space, m: Phys, elf: Elf, error: int, x: int)
    requires ImageEnd(elf) <= STACK_LOW && KeptArgs(ArgsArea(s.areas)) && PageIn(x, 0, ImageEnd(elf)) && !LeftOver(s, x)
    ensures Mapped(ExecSpace(s, m, elf, error).s, x) <==> Covered(elf, x)
  {
    hide AllocateSection, ClearSpace, ClearError, Mapped, Pte, PageIn, Aligned, ArgsArea, KeptArgs, LowError, LeftOver;
    var t, d, e := DataStart(elf), BssStart(elf), ImageEnd(elf);
    var s0 := ClearSpace(s);
    var e0 := ClearError(s, error);
    var e1 := SectionError(elf.text, e0);
    var e2 := SectionError(elf.data, e1);
    StartsEmpty(s, e, x);
    ZeroAligned();
    SectionPage(s0, m, "text", 0, elf.text, RONLY, e0, x);
    var v1 := AllocateSection(s0, m, "text", 0, elf.text, RONLY, e0);
    SectionPage(v1.s, v1.m, "data", t, elf.data, RW, e1, x);
    var v2 := AllocateSection(v1.s, v1.m, "data", t, elf.data, RW, e1);
    SectionPage(v2.s, v2.m, "bss", d, Zeros(elf.bssLen), RW, e2, x);
    var v3 := LowSections(s0, m, elf, e0);
    NotAboveImage(x, e);
    StackKeepsPage(v3.s, v3.m, ArgsArea(s.areas) == [], LowError(elf, e0), x);
  }

  /** The first write to a valid page without frame enters frame 0. */
  lemma {:induction false} WritesEnter(s: Space, m: Phys, addr: int, data: seq<Byte>, error: int, x: int)
    requires forall a :: addr <= a < addr + |data| ==> InAnArea(s.areas, a)
    ensures var t := WriteAll(s, m, addr, data, error).s;
      && (x in s.pgd || (addr <= x < addr + |data| && Aligned(x)) ==> x in t.pgd)
      && (Pte(s, x) != PTE_INVALID ==> Pte(t, x) != PTE_INVALID)
    decreases data
  {
    hide FirstFree, CopyFrame, ZeroFrame, InAnArea, MustCopy, Put, PhyAddr, LastPage;
    if data != [] {
      assert Aligned(addr) ==> PageOf(addr) == addr;
      hide PageOf, Aligned;
      var v := WriteVm(s, m, addr, data[0], error);
      assert v.s.areas == s.areas;
      WritesEnter(v.s, v.m, addr + 1, data[1..], WriteError(s, addr), x);
    }
  }

  lemma {:induction false} MapPagesKeeps(s: Space, m: Phys, addr: int, end: int, x: int)
    ensures var t := MapPages(s, m, addr, end).s;
      (x in s.pgd ==> x in t.pgd) && (Pte(s, x) != PTE_INVALID ==> Pte(t, x) != PTE_INVALID)
    decreases end - addr
  {
    hide PageOf, FirstFree;
    if addr < end {
      var v := if PageOf(addr) !in s.pgd || Pte(s, PageOf(addr)) == PTE_INVALID then AllocatePagePte(s, m, addr)
               else VmState(s, m);
      MapPagesKeeps(v.s, v.m, addr + PAGE_SIZE, end, x);
    }
  }

  lemma SectionEnters(s: Space, m: Phys, name: string, start: int, data: seq<Byte>, prot: int, error: int, x: int)
    ensures var t := AllocateSection(s, m, name, start, data, prot, error).s;
      && (x in s.pgd || (Aligned(x) && start <= x < start + |data|) ==> x in t.pgd)
      && (Pte(s, x) != PTE_INVALID ==> Pte(t, x) != PTE_INVALID)
  {
    hide MapPages, WriteAll, Aligned, MapError;
    var end := start + |data|;
    var v := MapPages(s, m, start, end);
    MapPagesKeeps(s, m, start, end, x);
    var area := Area(start, end, RW, PRIVATE, name);
    var u := v.s.(areas := v.s.areas + [area]);
    forall a | start <= a < end ensures InAnArea(u.areas, a) {
      assert u.areas[|v.s.areas|] == area && Covers(area, a);
    }
    WritesEnter(u, v.m, start, data, MapError(s, m, start, end, error), x);
  }

  lemma ExecLeftOver(s: Space, m: Phys, elf: Elf, error: int, x: int)
    requires KeptArgs(ArgsArea(s.areas)) && PageIn(x, 0, ImageEnd(elf)) && LeftOver(s, x)
    ensures Mapped(ExecSpace(s, m, elf, error).s, x)
  {
    hide AllocateSection, ClearSpace, ClearError, Pte, Aligned, ArgsArea, LowError;
    var t, d, e := DataStart(elf), BssStart(elf), ImageEnd(elf);
    var s0 := ClearSpace(s);
    var e0 := ClearError(s, error);
    var e1 := SectionError(elf.text, e0);
    var e2 := SectionError(elf.data, e1);
    ClearFields(s, x);
    SectionEnters(s0, m, "text", 0, elf.text, RONLY, e0, x);
    var v1 := AllocateSection(s0, m, "text", 0, elf.text, RONLY, e0);
    SectionEnters(v1.s, v1.m, "data", t, elf.data, RW, e1, x);
    var v2 := AllocateSection(v1.s, v1.m, "data", t, elf.data, RW, e1);
    SectionEnters(v2.s, v2.m, "bss", d, Zeros(elf.bssLen), RW, e2, x);
    var v3 := LowSections(s0, m, elf, e0);
    SectionEnters(v3.s, v3.m, "stack", STACK_LOW, Zeros(STACK_HIGH - STACK_LOW), RW, LowError(elf, e0), x);
    var v4 := AllocateSection(v3.s, v3.m, "stack", STACK_LOW, Zeros(STACK_HIGH - STACK_LOW), RW, LowError(elf, e0));
    SectionEnters(v4.s, v4.m, ARGS_NAME, STACK_HIGH, Zeros(ARGS_HIGH - STACK_HIGH), RW, 0, x);
  }

  lemma ZeroAligned()
    ensures Aligned(0)
  {
  }

  lemma StartsEmpty(s: Space, end: int, x: int)
    requires KeptArgs(ArgsArea(s.areas)) && !LeftOver(s, x) && PageIn(x, 0, end) && end <= STACK_LOW
    ensures Pte(ClearSpace(s), x) == PTE_INVALID && !Mapped(ClearSpace(s), x) && HighCopies(ClearSpace(s).areas)
    ensures ClearSpace(s).areas == ArgsArea(s.areas)
  {
    hide ClearSpace, ArgsArea;
    ClearFields(s, x);
  }

  lemma NotAboveImage(x: int, end: int)
    requires PageIn(x, 0, end) && end <= STACK_LOW
    ensures !PageIn(x, STACK_LOW, STACK_HIGH) && !PageIn(x, STACK_HIGH, ARGS_HIGH) && x < STACK_LOW
  {
  }

  /** The stack and the argument area do not touch the pages below them. */
  lemma StackKeepsPage(s: Space, m: Phys, boot: bool, error: int, x: int)
    requires x < STACK_LOW && HighCopies(s.areas) && (Mapped(s, x) || Pte(s, x) == PTE_INVALID)
    ensures Mapped(HighSections(s, m, boot, error).s, x) <==> Mapped(s, x)
  {
    hide AllocateSection, Mapped, Pte;
    var zeros := Zeros(STACK_HIGH - STACK_LOW);
    SectionPage(s, m, "stack", STACK_LOW, zeros, RW, error, x);
    var v := AllocateSection(s, m, "stack", STACK_LOW, zeros, RW, error);
    if boot {
      HighSectionPage(v.s, v.m, ARGS_NAME, STACK_HIGH, Zeros(ARGS_HIGH - STACK_HIGH), RW, 0, x);
    }
  }

  /** A section above page x leaves it alone, copies and default entries included. */
  lemma HighSectionPage(s: Space, m: Phys, name: string, start: int, data: seq<Byte>, prot: int, error: int, x: int)
    requires x < PageOf(start) && (Mapped(s, x) || Pte(s, x) == PTE_INVALID)
    ensures Mapped(AllocateSection(s, m, name, start, data, prot, error).s, x) <==> Mapped(s, x)
  {
    hide MapPages, WriteAll;
    var v := MapPages(s, m, start, start + |data|);
    MapPagesPage(s, m, start, start + |data|, x);
    HighWrites(v.s.(areas := v.s.areas + [Area(start, start + |data|, RW, PRIVATE, name)]), v.m, start, data,
               MapError(s, m, start, start + |data|, error), x);
  }

  lemma {:induction false} HighWrites(s: Space, m: Phys, addr: int, data: seq<Byte>, error: int, x: int)
    requires x < PageOf(addr)
    ensures Mapped(WriteAll(s, m, addr, data, error).s, x) <==> Mapped(s, x)
    decreases data
  {
    if data != [] {
      assert PageOf(addr) <= PageOf(addr + 1);
      hide PageOf, FirstFree, CopyFrame, ZeroFrame, InAnArea, MustCopy;
      var v := WriteVm(s, m, addr, data[0], error);
      HighWrites(v.s, v.m, addr + 1, data[1..], WriteError(s, addr), x);
    }
  }

  /** After exec every byte of text, data and bss is mapped if and only if the sections fit, or the pages of those
      that do not had entries and no frames. */
  lemma ExecMapsImage(s: Space, m: Phys, elf: Elf, error: int)
    requires ImageEnd(elf) <= STACK_LOW && KeptArgs(ArgsArea(s.areas))
    ensures (forall a :: 0 <= a < ImageEnd(elf) ==> Mapped(ExecSpace(s, m, elf, error).s, PageOf(a))) <==>
            Fits(elf) || forall x :: PageIn(x, 0, ImageEnd(elf)) && !Covered(elf, x) ==> LeftOver(s, x)
  {
    hide ExecSpace, Mapped, Fits, Covered, LeftOver, PageOf, ArgsArea;
    var e := ImageEnd(elf);
    forall x | PageIn(x, 0, e)
      ensures Mapped(ExecSpace(s, m, elf, error).s, x) <==> Covered(elf, x) || LeftOver(s, x)
    {
      ExecPage(s, m, elf, error, x);
    }
    ImagePages(elf);
    FitsCovers(elf);
  }

  /** The pages of the image are those of its bytes. */
  lemma ImagePages(elf: Elf)
    ensures forall a :: 0 <= a < ImageEnd(elf) ==> PageIn(PageOf(a), 0, ImageEnd(elf))
    ensures forall x :: PageIn(x, 0, ImageEnd(elf)) ==> 0 <= x < ImageEnd(elf) && PageOf(x) == x
  {
  }

  lemma FitsCovers(elf: Elf)
    ensures Fits(elf) <==> forall x :: PageIn(x, 0, ImageEnd(elf)) ==> Covered(elf, x)
  {
    hide Fits, Covered, PageOf, PageIn;
    ImagePages(elf);
    CoveredExactly(elf);
    if Fits(elf) {
      forall x | PageIn(x, 0, ImageEnd(elf)) ensures Covered(elf, x) {
        assert PageOf(x) == x;
      }
    }
  }

  lemma LowPageOf(a: int, end: int)
    requires 0 <= a < end
    ensures PageIn(PageOf(a), 0, end)
  {
  }

  lemma CoveredExactly(elf: Elf)
    ensures (forall a :: 0 <= a < ImageEnd(elf) ==> Covered(elf, PageOf(a))) <==> Fits(elf)
  {
    var t, d, e := DataStart(elf), BssStart(elf), ImageEnd(elf);
    if Fits(elf) {
      forall a | 0 <= a < e ensures Covered(elf, PageOf(a)) {
        CoveredByte(elf, a);
      }
    } else if !SectionFits(t, d) {
      Uncovered(elf, t, RoundUp(t));
    } else {
      Uncovered(elf, d, RoundUp(d));
    }
  }

  lemma CoveredByte(elf: Elf, a: int)
    requires Fits(elf) && 0 <= a < ImageEnd(elf)
    ensures Covered(elf, PageOf(a))
  {
    hide PageIn, PageOf, SectionFits, Aligned;
    var t, d, e := DataStart(elf), BssStart(elf), ImageEnd(elf);
    if a < t {
      LowPageOf(a, t);
    } else if a < d {
      ByteOfSection(t, d, a);
    } else {
      ByteOfSection(d, e, a);
      if PageIn(PageOf(a), 0, d) {
        PageBounds(PageOf(a), d);
        if PageOf(a) < t {
          PageBelow(PageOf(a), t);
        } else {
          ByteOfSection(t, d, PageOf(a));
        }
      }
    }
  }

  /** The page of a byte of a section that fits is an earlier one, or the section's own. */
  lemma ByteOfSection(start: int, end: int, a: int)
    requires 0 <= start <= a < end && SectionFits(start, end)
    ensures PageIn(PageOf(a), 0, start) || (Aligned(start) && PageIn(PageOf(a), start, end))
    ensures Aligned(a) ==> PageOf(a) == a
    ensures PageOf(PageOf(a)) == PageOf(a)
  {
  }

  lemma PageBounds(x: int, end: int)
    requires PageIn(x, 0, end)
    ensures 0 <= x < end && Aligned(x)
  {
  }

  lemma PageBelow(x: int, end: int)
    requires 0 <= x < end && Aligned(x)
    ensures PageIn(x, 0, end)
  {
  }

  /** The first byte behind the last page of the section that does not fit. */
  lemma Uncovered(elf: Elf, start: int, a: int)
    requires a == RoundUp(start) && !Aligned(start)
    requires (start == DataStart(elf) && !SectionFits(start, BssStart(elf)))
          || (start == BssStart(elf) && SectionFits(DataStart(elf), start) && !SectionFits(start, ImageEnd(elf)))
    ensures 0 <= a < ImageEnd(elf) && !Covered(elf, PageOf(a))
  {
  }
}
