/** Processes that share frames behave as if each had a private copy of its address space. */
module Isolation {
  import opened Words
  import opened Paging

  /** All processes, by pid, over one physical memory. */
  datatype Sys = Sys(procs: map<int, Space>, m: Phys)

  predicate Mapped(s: Space, x: int) {
    x in s.pgd && Pte(s, x) != PTE_INVALID
  }

  /** The memory a process sees: every byte of its mapped pages. */
  type Flat = map<int, Byte>

  ghost function View(s: Space, m: Phys): Flat {
    map a | 0 <= a < TWO_32 && Mapped(s, PageOf(a)) :: Content(m, PhyAddr(s, a))
  }

  ghost function Views(sys: Sys): map<int, Flat> {
    map p | p in sys.procs :: View(sys.procs[p], sys.m)
  }

  // ---------- the invariant ----------

  ghost predicate GoodPhys(m: Phys) {
    && (forall f :: f in m.frames ==> Aligned(f) && 0 <= f < FRAME_LIMIT)
    && (forall pa :: Content(m, pa) != 0 ==> PageOf(pa) in m.frames)
  }

  ghost predicate GoodSpace(s: Space, m: Phys) {
    forall x :: Mapped(s, x) ==> Aligned(x) && 0 <= x < TWO_32 && s.pgd[x] in m.frames
  }

  /** No other page of any process has the frame of page x of process p. */
  ghost predicate Private(sys: Sys, p: int, x: int) {
    p in sys.procs && x in sys.procs[p].pgd &&
    forall q, y :: q in sys.procs && Mapped(sys.procs[q], y) && sys.procs[q].pgd[y] == sys.procs[p].pgd[x] ==>
      q == p && y == x
  }

  /** A write to page x is impossible or copies the page first. */
  ghost predicate Shielded(s: Space, x: int) {
    forall a :: PageOf(a) == x ==>
      ProtAt(s.areas, a) != RW && (ProtAt(s.areas, a) == COPY_ON_WRITE ==> Pte(s, x) == PTE_RONLY)
  }

  ghost predicate Inv(sys: Sys) {
    && GoodPhys(sys.m)
    && (forall p :: p in sys.procs ==> GoodSpace(sys.procs[p], sys.m))
    && (forall p, x :: p in sys.procs && Mapped(sys.procs[p], x) ==> Private(sys, p, x) || Shielded(sys.procs[p], x))
  }

  // ---------- pages and frames ----------

  predicate Aligned(x: int) {
    x % PAGE_SIZE == 0
  }

  /** An address is its page and its offset; an address in a frame has that frame as its page. */
  lemma PageFacts(a: int)
    ensures Aligned(PageOf(a)) && a == PageOf(a) + Offset(a)
  {
  }

  lemma FrameFacts(f: int, off: int)
    requires Aligned(f) && 0 <= off < PAGE_SIZE
    ensures PageOf(f + off) == f
  {
  }

  /** Distinct frames do not overlap. */
  lemma FramesDisjoint(f: int, g: int, off: int)
    requires Aligned(f) && Aligned(g) && f != g && 0 <= off < PAGE_SIZE
    ensures !InFrame(g + off, f)
  {
  }

  /** Content of memory is the same outside frame g, as far as frames have been handed out. */
  ghost predicate SameExcept(m: Phys, m': Phys, g: int) {
    forall pa :: PageOf(pa) in m.frames && PageOf(pa) != g ==> Content(m', pa) == Content(m, pa)
  }

  /** A process that does not use frame g does not see changes there. */
  lemma ViewFrame(s: Space, m: Phys, m': Phys, g: int)
    requires GoodPhys(m) && GoodSpace(s, m) && SameExcept(m, m', g)
    requires forall y :: Mapped(s, y) ==> s.pgd[y] != g
    ensures View(s, m') == View(s, m)
  {
    hide Content, PageOf, Offset, Aligned;
    forall a | 0 <= a < TWO_32 && Mapped(s, PageOf(a))
      ensures Content(m', PhyAddr(s, a)) == Content(m, PhyAddr(s, a))
    {
      FrameFacts(s.pgd[PageOf(a)], Offset(a));
    }
    hide PhyAddr;
  }

  // ---------- frames ----------

  /** An allocation leaves one frame less. */
  lemma {:induction false} FewerFrames(frames: set<int>, n: nat)
    requires Available(frames, n + 1)
    ensures Available(frames, n) && Available(frames, 1) && Available(frames + {FirstFree(frames, 0)}, n)
    decreases n
  {
    hide FirstFree;
    assert Available(frames + {FirstFree(frames, 0)}, n);
    if n > 0 {
      FewerFrames(frames + {FirstFree(frames, 0)}, n - 1);
    }
    assert Available(frames + {FirstFree(frames, 0)}, 0);
  }

  // ---------- writes ----------

  lemma CopyByte(m: Phys, frames: set<int>, from: int, f: int, pa: int)
    ensures var m' := CopyFrame(m.(frames := frames), from, f);
      && (InFrame(pa, f) ==> Content(m', pa) == Content(m, from + (pa - f)))
      && (!InFrame(pa, f) ==> Content(m', pa) == Content(m, pa))
  {
    var copy := map a | f <= a < f + PAGE_SIZE && InFrame(a, f) :: Content(m.(frames := frames), from + (a - f));
    assert CopyFrame(m.(frames := frames), from, f).mem == m.mem + copy;
    if InFrame(pa, f) {
      assert pa in copy;
    } else {
      assert pa !in copy;
    }
  }

  lemma CopiedContent(m: Phys, from: int, f: int)
    requires GoodPhys(m) && from in m.frames && f !in m.frames && Aligned(f) && 0 <= f < FRAME_LIMIT
    ensures var m' := CopyFrame(m.(frames := m.frames + {f}), from, f); GoodPhys(m') && SameExcept(m, m', f)
  {
    var m' := CopyFrame(m.(frames := m.frames + {f}), from, f);
    forall pa | !InFrame(pa, f) ensures Content(m', pa) == Content(m, pa) {
      CopyByte(m, m.frames + {f}, from, f, pa);
    }
    forall pa | InFrame(pa, f) ensures PageOf(pa) == f {
      FrameFacts(f, pa - f);
    }
    hide CopyFrame, PageOf, InFrame, Content;
  }

  lemma CopyPageFields(s: Space, m: Phys, x: int)
    requires Available(m.frames, 1) && !LastPage(x)
    ensures var f := FirstFree(m.frames, 0); var v := CopyPage(s, m, x);
      && Aligned(f) && 0 <= f < FRAME_LIMIT && f !in m.frames
      && v.s == Space(s.pgd[x := f], s.valid[x := PTE_RW], s.areas)
      && v.m == CopyFrame(m.(frames := m.frames + {f}), Frame(s, x), f) && v.m.frames == m.frames + {f}
  {
    hide FirstFree;
  }

  lemma CopyKeepsByte(s: Space, m: Phys, x: int, a: int)
    requires GoodPhys(m) && GoodSpace(s, m) && Mapped(s, x) && !LastPage(x) && Available(m.frames, 1)
    requires Mapped(s, PageOf(a))
    ensures var v := CopyPage(s, m, x); Content(v.m, PhyAddr(v.s, a)) == Content(m, PhyAddr(s, a))
  {
    hide CopyFrame, Content, FirstFree, CopyPage, PageOf, Offset, Aligned, Available;
    var v := CopyPage(s, m, x);
    var f := FirstFree(m.frames, 0);
    CopyPageFields(s, m, x);
    var pa := PhyAddr(v.s, a);
    CopyByte(m, m.frames + {f}, s.pgd[x], f, pa);
    if PageOf(a) != x {
      FramesDisjoint(f, s.pgd[PageOf(a)], Offset(a));
    } else {
      assert PhyAddr(s, a) == s.pgd[x] + (pa - f);
    }
  }

  /** The copied page, and every other page of its process, shows the same bytes. */
  lemma CopyKeepsOwnView(s: Space, m: Phys, x: int)
    requires GoodPhys(m) && GoodSpace(s, m) && Mapped(s, x) && !LastPage(x) && Available(m.frames, 1)
    ensures var v := CopyPage(s, m, x); View(v.s, v.m) == View(s, m) && GoodPhys(v.m) && GoodSpace(v.s, v.m)
  {
    hide CopyFrame, Content, FirstFree, CopyPage, PageOf, Aligned, Available, PhyAddr;
    var v := CopyPage(s, m, x);
    var f := FirstFree(m.frames, 0);
    CopyPageFields(s, m, x);
    CopiedContent(m, s.pgd[x], f);
    forall a | 0 <= a < TWO_32 && Mapped(s, PageOf(a))
      ensures Content(v.m, PhyAddr(v.s, a)) == Content(m, PhyAddr(s, a))
    {
      CopyKeepsByte(s, m, x, a);
    }
    assert forall a :: Mapped(v.s, PageOf(a)) <==> Mapped(s, PageOf(a));
    assert GoodSpace(v.s, v.m);
    hide Mapped;
  }

  /** A page copy keeps the invariant and every view, and leaves the page private. */
  lemma CopyRefines(sys: Sys, p: int, x: int)
    requires Inv(sys) && p in sys.procs && Mapped(sys.procs[p], x) && !LastPage(x) && Available(sys.m.frames, 1)
    ensures var v := CopyPage(sys.procs[p], sys.m, x); var sys' := Sys(sys.procs[p := v.s], v.m);
      && Inv(sys') && Views(sys') == Views(sys)
      && v.s.areas == sys.procs[p].areas && Mapped(v.s, x) && Pte(v.s, x) == PTE_RW && Private(sys', p, x)
  {
    hide CopyFrame, Content, FirstFree, CopyPage, PageOf, Aligned, Available, PhyAddr, ProtAt, View;
    var s := sys.procs[p];
    var v := CopyPage(s, sys.m, x);
    var sys' := Sys(sys.procs[p := v.s], v.m);
    var f := FirstFree(sys.m.frames, 0);
    CopyPageFields(s, sys.m, x);
    CopyKeepsOwnView(s, sys.m, x);
    CopiedContent(sys.m, s.pgd[x], f);
    forall q | q in sys.procs && q != p ensures View(sys'.procs[q], v.m) == View(sys.procs[q], sys.m) {
      ViewFrame(sys.procs[q], sys.m, v.m, f);
    }
    forall q | q in sys'.procs ensures GoodSpace(sys'.procs[q], v.m) {
    }
    forall q, y | q in sys'.procs && Mapped(sys'.procs[q], y)
      ensures Private(sys', q, y) || Shielded(sys'.procs[q], y)
    {
      assert Mapped(sys.procs[q], y);
    }
  }

  /** A byte put into a private page changes that byte of that process and nothing else. */
  lemma PutRefines(sys: Sys, p: int, a: int, b: Byte)
    requires Inv(sys) && p in sys.procs && 0 <= a < TWO_32
    requires Mapped(sys.procs[p], PageOf(a)) && Private(sys, p, PageOf(a))
    ensures var sys' := sys.(m := Put(sys.m, PhyAddr(sys.procs[p], a), b));
      Inv(sys') && Views(sys') == Views(sys)[p := View(sys.procs[p], sys.m)[a := b]]
  {
    hide PageOf, Aligned, ProtAt, View, Offset;
    var s := sys.procs[p];
    var pa := PhyAddr(s, a);
    var m' := Put(sys.m, pa, b);
    var sys' := sys.(m := m');
    var g := s.pgd[PageOf(a)];
    FrameFacts(g, Offset(a));
    assert SameExcept(sys.m, m', g);
    forall q | q in sys.procs && q != p ensures View(sys.procs[q], m') == View(sys.procs[q], sys.m) {
      ViewFrame(sys.procs[q], sys.m, m', g);
    }
    PutOwnView(sys, p, a, b);
    forall q, y | q in sys.procs && Mapped(sys.procs[q], y)
      ensures Private(sys', q, y) || Shielded(sys.procs[q], y)
    {
      assert Private(sys, q, y) ==> Private(sys', q, y);
    }
  }

  lemma PutOwnView(sys: Sys, p: int, a: int, b: Byte)
    requires Inv(sys) && p in sys.procs && 0 <= a < TWO_32
    requires Mapped(sys.procs[p], PageOf(a)) && Private(sys, p, PageOf(a))
    ensures var s := sys.procs[p]; View(s, Put(sys.m, PhyAddr(s, a), b)) == View(s, sys.m)[a := b]
  {
    hide PageOf, Aligned, ProtAt, Offset;
    var s := sys.procs[p];
    forall c | 0 <= c < TWO_32 && Mapped(s, PageOf(c)) && c != a
      ensures PhyAddr(s, c) != PhyAddr(s, a)
    {
      PageFacts(a);
      PageFacts(c);
      FrameFacts(s.pgd[PageOf(a)], Offset(a));
      FrameFacts(s.pgd[PageOf(c)], Offset(c));
    }
    hide Mapped, PhyAddr;
  }

  /** Every guarded write, copy-on-write included, is a write to the process's own flat memory. */
  lemma WriteRefines(sys: Sys, p: int, a: int, b: Byte)
    requires Inv(sys) && WriteOK(sys, p, a)
    ensures var v := WriteVm(sys.procs[p], sys.m, a, b); var sys' := Sys(sys.procs[p := v.s], v.m);
      && Inv(sys') && Views(sys') == Views(sys)[p := View(sys.procs[p], sys.m)[a := b]]
      && v.s.areas == sys.procs[p].areas
  {
    hide PageOf, Aligned, Views, View, Private, Inv, CopyPage, PhyAddr, Put;
    var s := sys.procs[p];
    if MustCopy(s, a) {
      CopyRefines(sys, p, PageOf(a));
      var v := CopyPage(s, sys.m, PageOf(a));
      var sys1 := Sys(sys.procs[p := v.s], v.m);
      assert v.s.pgd == v.s.pgd[PageOf(a) := Frame(v.s, PageOf(a))];
      PutRefines(sys1, p, a, b);
      SameProcs(sys1, p);
      OwnView(sys, sys1, p);
    } else {
      NotShielded(sys, p, a);
      assert s.pgd == s.pgd[PageOf(a) := Frame(s, PageOf(a))];
      PutRefines(sys, p, a, b);
      SameProcs(sys, p);
    }
  }

  /** The guard of a write: an accessible byte in an area that may be written, and if its page must be copied, a frame
      for the copy and a page that is not the last of the address space. */
  predicate WriteOK(sys: Sys, p: int, a: int) {
    && p in sys.procs && 0 <= a < TWO_32
    && Mapped(sys.procs[p], PageOf(a))
    && InAnArea(sys.procs[p].areas, a)
    && ProtAt(sys.procs[p].areas, a) in {RW, COPY_ON_WRITE}
    && (MustCopy(sys.procs[p], a) ==> Available(sys.m.frames, 1) && !LastPage(PageOf(a)))
  }

  lemma NotShielded(sys: Sys, p: int, a: int)
    requires Inv(sys) && WriteOK(sys, p, a) && !MustCopy(sys.procs[p], a)
    ensures Private(sys, p, PageOf(a))
  {
    hide PageOf, Private;
  }

  lemma SameProcs(sys: Sys, p: int)
    requires p in sys.procs
    ensures sys.procs[p := sys.procs[p]] == sys.procs
  {
  }

  lemma OwnView(sys: Sys, sys': Sys, p: int)
    requires p in sys.procs && p in sys'.procs && Views(sys) == Views(sys')
    ensures View(sys.procs[p], sys.m) == View(sys'.procs[p], sys'.m)
  {
    hide View;
    assert Views(sys)[p] == Views(sys')[p];
  }

  // ---------- fork ----------

  predicate Touches(x: Area, page: int) {
    PageOf(x.start) <= page <= PageOf(x.end) && Aligned(page)
  }

  /** The guard of a fork. Areas that may be written are private to the process; what an earlier fork protected has
      not been written since, or is protected again because another such area touches its page; marking does not bring
      back a page that was given up; and the loops over the pages end. */
  ghost predicate ForkOK(s: Space) {
    && (forall x :: x in s.areas && Splits(x) ==> 0 <= x.start && x.end < TWO_32 - PAGE_SIZE)
    && (forall x :: x in s.areas && x.prot == RW ==> x.flags == PRIVATE)
    && (forall x, page :: x in s.areas && Splits(x) && Touches(x, page) && page in s.pgd ==> Mapped(s, page))
    && (forall a :: Mapped(s, PageOf(a)) && ProtAt(s.areas, a) == COPY_ON_WRITE ==>
          Pte(s, PageOf(a)) == PTE_RONLY || Marked(s.areas, PageOf(a)))
  }

  ghost predicate Marked(areas: seq<Area>, page: int) {
    exists x :: x in areas && Splits(x) && Touches(x, page)
  }

  lemma {:induction false} MarkAreasPte(s: Space, valid: map<int, int>, areas: seq<Area>, page: int)
    ensures Pte(s.(valid := MarkAreas(valid, areas)), page)
         == if Marked(areas, page) then 2 else Pte(s.(valid := valid), page)
    decreases areas
  {
    if areas == [] {
    } else {
      var v := MarkArea(valid, areas[0]);
      MarkAreasPte(s, v, areas[1..], page);
      assert forall x :: x in areas <==> x == areas[0] || x in areas[1..];
      assert Pte(s.(valid := v), page)
          == if Splits(areas[0]) && Touches(areas[0], page) then PTE_RONLY else Pte(s.(valid := valid), page);
    }
  }

  /** Writable areas become copy-on-write, and all others keep their protection. */
  lemma {:induction false} ForkProt(areas: seq<Area>, a: int)
    requires forall x :: x in areas && x.prot == RW ==> x.flags == PRIVATE
    ensures ProtAt(ForkAreas(areas), a) == if ProtAt(areas, a) == 3 then 4 else ProtAt(areas, a)
    ensures ProtAt(areas, a) == RW ==> Marked(areas, PageOf(a))
    decreases areas
  {
    if areas == [] {
    } else {
      assert ForkAreas(areas)[1..] == ForkAreas(areas[1..]);
      ForkProt(areas[1..], a);
      if Covers(areas[0], a) {
        assert areas[0] in areas;
        assert Touches(areas[0], PageOf(a));
      } else {
        assert forall x :: x in areas[1..] ==> x in areas;
      }
    }
  }

  /** Every page of a forked address space is shielded, and maps what it mapped before. */
  lemma ForkSpaceFacts(s: Space, m: Phys)
    requires ForkOK(s) && GoodSpace(s, m)
    ensures var t := ForkSpace(s);
      && t.pgd == s.pgd && (forall x :: Mapped(t, x) <==> Mapped(s, x))
      && (forall x :: Mapped(t, x) ==> Shielded(t, x))
      && GoodSpace(t, m) && View(t, m) == View(s, m)
  {
    hide Marked, MarkAreas, ForkAreas, PageOf, Offset, Aligned, ProtAt, Touches, Splits;
    var t := ForkSpace(s);
    forall x ensures Mapped(t, x) <==> Mapped(s, x) {
      MarkAreasPte(s, s.valid, s.areas, x);
      if Marked(s.areas, x) && x in s.pgd {
        MarkedMapped(s, x);
      }
    }
    forall x, a | Mapped(t, x) && PageOf(a) == x
      ensures ProtAt(t.areas, a) != RW && (ProtAt(t.areas, a) == COPY_ON_WRITE ==> Pte(t, x) == PTE_RONLY)
    {
      MarkAreasPte(s, s.valid, s.areas, x);
      ForkProt(s.areas, a);
    }
    assert forall x :: Mapped(t, x) ==> Shielded(t, x);
    assert forall a :: Mapped(t, PageOf(a)) <==> Mapped(s, PageOf(a));
    assert forall a :: PhyAddr(t, a) == PhyAddr(s, a);
    hide Mapped, PhyAddr, Content, ForkSpace, Shielded;
  }

  lemma MarkedMapped(s: Space, x: int)
    requires ForkOK(s) && Marked(s.areas, x) && x in s.pgd
    ensures Mapped(s, x)
  {
    hide PageOf, ProtAt, Mapped;
  }

  /** Fork: the child gets a copy of the parent's memory, and nobody else notices. */
  lemma ForkRefines(sys: Sys, p: int, c: int)
    requires Inv(sys) && p in sys.procs && c !in sys.procs && ForkOK(sys.procs[p])
    ensures var t := ForkSpace(sys.procs[p]); var sys' := sys.(procs := sys.procs[p := t][c := t]);
      Inv(sys') && Views(sys') == Views(sys)[c := View(sys.procs[p], sys.m)]
  {
    hide View, ForkSpace, PageOf, ProtAt, ForkOK, Shielded;
    var s := sys.procs[p];
    var t := ForkSpace(s);
    var sys' := sys.(procs := sys.procs[p := t][c := t]);
    ForkSpaceFacts(s, sys.m);
    forall q, y | q in sys'.procs && Mapped(sys'.procs[q], y)
      ensures Private(sys', q, y) || Shielded(sys'.procs[q], y)
    {
      if q != p && q != c {
        if Private(sys, q, y) {
          assert forall z :: Mapped(t, z) ==> Mapped(s, z) && t.pgd[z] == s.pgd[z];
        }
      }
    }
  }
}
