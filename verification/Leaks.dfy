/** Where isolation ends: exactly which writes and forks break it. */
module Leaks {
  import opened Words
  import opened Paging
  import opened Isolation
  import opened ExecImage

  /** A write that does not copy its page first is a write to the process's own memory if and only if the page is
      mapped, and no other page has the frame or the byte is there already. The protection of the area makes no
      difference. */
  lemma WriteExact(sys: Sys, p: int, a: int, b: Byte)
    requires Inv(sys) && p in sys.procs && 0 <= a < TWO_32
    requires InAnArea(sys.procs[p].areas, a) && !MustCopy(sys.procs[p], a)
    ensures var s := sys.procs[p]; var v := WriteVm(s, sys.m, a, b);
      Views(Sys(sys.procs[p := v.s], v.m)) == Views(sys)[p := View(s, sys.m)[a := b]]
      <==> Mapped(s, PageOf(a)) && (Private(sys, p, PageOf(a)) || Content(sys.m, PhyAddr(s, a)) == b)
  {
    hide PageOf, Offset, Private, Inv, Views, View, Content, PhyAddr, Aligned, InAnArea, ProtAt;
    var s := sys.procs[p];
    var v := WriteVm(s, sys.m, a, b);
    if !Mapped(s, PageOf(a)) {
      NoPageNoByte(sys, p, a, b);
    } else {
      assert s.pgd[PageOf(a) := Frame(s, PageOf(a))] == s.pgd;
      assert v == VmState(s, Put(sys.m, PhyAddr(s, a), b));
      SameProcs(sys, p);
      if Private(sys, p, PageOf(a)) {
        PutRefines(sys, p, a, b);
      } else if Content(sys.m, PhyAddr(s, a)) == b {
        PutSame(sys, p, a, b);
      } else {
        SharedByteLeaks(sys, p, a, b);
      }
    }
  }

  /** Without a frame the byte does not show, or with it a whole page of frame 0. */
  lemma NoPageNoByte(sys: Sys, p: int, a: int, b: Byte)
    requires p in sys.procs && 0 <= a < TWO_32 && !Mapped(sys.procs[p], PageOf(a))
    requires InAnArea(sys.procs[p].areas, a) && !MustCopy(sys.procs[p], a)
    ensures var v := WriteVm(sys.procs[p], sys.m, a, b);
      Views(Sys(sys.procs[p := v.s], v.m)) != Views(sys)[p := View(sys.procs[p], sys.m)[a := b]]
  {
    hide Offset, Content, PhyAddr, Aligned, InAnArea, ProtAt, MustCopy, View, Mapped;
    var s := sys.procs[p];
    var v := WriteVm(s, sys.m, a, b);
    var c := if Offset(a) == 0 then a + 1 else a - 1;
    OtherByte(a, c);
    ViewsAt(Sys(sys.procs[p := v.s], v.m), p);
    ViewAt(v.s, v.m, a);
    ViewAt(v.s, v.m, c);
    ViewAt(s, sys.m, c);
  }

  lemma OtherByte(a: int, c: int)
    requires 0 <= a < TWO_32 && c == if Offset(a) == 0 then a + 1 else a - 1
    ensures c != a && PageOf(c) == PageOf(a) && 0 <= c < TWO_32
  {
  }

  /** The frame is mapped by a process other than p. */
  ghost predicate Foreign(sys: Sys, p: int, f: int) {
    exists q, y :: q in sys.procs && q != p && Mapped(sys.procs[q], y) && sys.procs[q].pgd[y] == f
  }

  ghost predicate OthersKeep(sys: Sys, p: int, m: Phys) {
    forall q :: q in sys.procs && q != p ==> View(sys.procs[q], m) == View(sys.procs[q], sys.m)
  }

  /** No other process notices a change of memory if and only if the bytes of its frames are as before. */
  lemma OthersByBytes(sys: Sys, p: int, m: Phys)
    requires Inv(sys)
    ensures OthersKeep(sys, p, m) <==>
            forall pa :: Foreign(sys, p, PageOf(pa)) ==> Content(m, pa) == Content(sys.m, pa)
  {
    hide Inv, View, Content, PageOf, Offset, PhyAddr, Pte;
    if forall pa :: Foreign(sys, p, PageOf(pa)) ==> Content(m, pa) == Content(sys.m, pa) {
      forall q | q in sys.procs && q != p ensures View(sys.procs[q], m) == View(sys.procs[q], sys.m) {
        forall a | 0 <= a < TWO_32 && Mapped(sys.procs[q], PageOf(a))
          ensures Content(m, PhyAddr(sys.procs[q], a)) == Content(sys.m, PhyAddr(sys.procs[q], a))
        {
          InItsFrame(sys, q, a);
        }
        ViewByBytes(sys.procs[q], sys.m, m);
      }
    }
    if OthersKeep(sys, p, m) {
      forall pa | Foreign(sys, p, PageOf(pa)) ensures Content(m, pa) == Content(sys.m, pa) {
        var q, y :| q in sys.procs && q != p && Mapped(sys.procs[q], y) && sys.procs[q].pgd[y] == PageOf(pa);
        var a := y + Offset(pa);
        ByteOfFrame(sys, q, y, pa);
        ViewAt(sys.procs[q], sys.m, a);
        ViewAt(sys.procs[q], m, a);
      }
    }
  }

  lemma InItsFrame(sys: Sys, q: int, a: int)
    requires Inv(sys) && q in sys.procs && Mapped(sys.procs[q], PageOf(a))
    ensures PageOf(PhyAddr(sys.procs[q], a)) == sys.procs[q].pgd[PageOf(a)]
  {
    hide ProtAt, Content;
    FrameFacts(sys.procs[q].pgd[PageOf(a)], Offset(a));
  }

  lemma ViewByBytes(s: Space, m: Phys, m': Phys)
    requires forall a :: 0 <= a < TWO_32 && Mapped(s, PageOf(a)) ==>
               Content(m', PhyAddr(s, a)) == Content(m, PhyAddr(s, a))
    ensures View(s, m') == View(s, m)
  {
    hide PageOf, PhyAddr, Content, Mapped;
  }

  lemma ByteOfFrame(sys: Sys, q: int, y: int, pa: int)
    requires Inv(sys) && q in sys.procs && Mapped(sys.procs[q], y) && sys.procs[q].pgd[y] == PageOf(pa)
    ensures var a := y + Offset(pa); 0 <= a < TWO_32 && PageOf(a) == y && PhyAddr(sys.procs[q], a) == pa
  {
    OfGoodSpace(sys, q, y);
    OnPage(y, Offset(pa));
    PageFacts(pa);
    hide Inv, PageOf, Offset;
  }

  /** Any write in an area, to a page with or without a frame: no other process notices if and only if the page is
      copied first, nobody else has the frame that it goes to, or the byte is there already. A page without frame goes
      to frame 0. */
  lemma OthersExact(sys: Sys, p: int, a: int, b: Byte)
    requires Inv(sys) && p in sys.procs && Available(sys.m.frames, 1) && InAnArea(sys.procs[p].areas, a)
    ensures var s := sys.procs[p];
      OthersKeep(sys, p, WriteVm(s, sys.m, a, b).m) <==>
      MustCopy(s, a) || !Foreign(sys, p, PageOf(PhyAddr(s, a))) || Content(sys.m, PhyAddr(s, a)) == b
  {
    hide Inv, PageOf, Offset, InAnArea, ProtAt, Mapped, CopyPage, FirstFree;
    var s := sys.procs[p];
    var v := WriteVm(s, sys.m, a, b);
    OthersByBytes(sys, p, v.m);
    if MustCopy(s, a) {
      CopyUnnoticed(sys, p, a, b);
    } else {
      assert v.m == Put(sys.m, PhyAddr(s, a), b);
    }
  }

  lemma CopyUnnoticed(sys: Sys, p: int, a: int, b: Byte)
    requires Inv(sys) && p in sys.procs && Available(sys.m.frames, 1) && InAnArea(sys.procs[p].areas, a)
    requires MustCopy(sys.procs[p], a)
    ensures forall pa :: Foreign(sys, p, PageOf(pa)) ==>
      Content(WriteVm(sys.procs[p], sys.m, a, b).m, pa) == Content(sys.m, pa)
  {
    hide Inv, PageOf, Offset, InAnArea, ProtAt, Mapped, FirstFree, CopyFrame, LastPage;
    var s := sys.procs[p];
    var x := PageOf(a);
    var f := FirstFree(sys.m.frames, 0);
    FreshFrame(sys.m.frames);
    var v := CopyPage(s, sys.m, x);
    assert v.s.pgd[x] == f;
    forall pa | Foreign(sys, p, PageOf(pa))
      ensures Content(WriteVm(s, sys.m, a, b).m, pa) == Content(sys.m, pa)
    {
      ForeignInUse(sys, p, PageOf(pa));
      NotInFrame(f, pa);
      CopyByte(sys.m, sys.m.frames + {f}, Frame(s, x), f, pa);
      assert PhyAddr(v.s, a) == f + Offset(a);
      assert InFrame(f + Offset(a), f);
    }
  }

  lemma FreshFrame(frames: set<int>)
    requires Available(frames, 1)
    ensures var f := FirstFree(frames, 0); Aligned(f) && 0 <= f < FRAME_LIMIT && f !in frames
  {
    hide FirstFree;
  }

  lemma ForeignInUse(sys: Sys, p: int, f: int)
    requires Inv(sys) && Foreign(sys, p, f)
    ensures f in sys.m.frames
  {
    hide ProtAt, Content, PageOf;
  }

  lemma NotInFrame(f: int, pa: int)
    requires Aligned(f) && PageOf(pa) != f
    ensures !InFrame(pa, f)
  {
  }

  lemma PutSame(sys: Sys, p: int, a: int, b: Byte)
    requires p in sys.procs && 0 <= a < TWO_32 && Mapped(sys.procs[p], PageOf(a))
    requires Content(sys.m, PhyAddr(sys.procs[p], a)) == b
    ensures Views(sys.(m := Put(sys.m, PhyAddr(sys.procs[p], a), b)))
         == Views(sys)[p := View(sys.procs[p], sys.m)[a := b]]
  {
    hide PageOf, PhyAddr, View;
    var s := sys.procs[p];
    var m' := Put(sys.m, PhyAddr(s, a), b);
    assert forall pa :: Content(m', pa) == Content(sys.m, pa);
    forall q | q in sys.procs ensures View(sys.procs[q], m') == View(sys.procs[q], sys.m) {
      SameContentView(sys.procs[q], sys.m, m');
    }
    ByteThere(s, sys.m, a, b);
  }

  lemma SameContentView(s: Space, m: Phys, m': Phys)
    requires forall pa :: Content(m', pa) == Content(m, pa)
    ensures View(s, m') == View(s, m)
  {
    hide PageOf, PhyAddr, Content;
  }

  lemma ByteThere(s: Space, m: Phys, a: int, b: Byte)
    requires 0 <= a < TWO_32 && Mapped(s, PageOf(a)) && Content(m, PhyAddr(s, a)) == b
    ensures View(s, m)[a := b] == View(s, m)
  {
    hide PageOf, PhyAddr, Content;
  }

  /** Another page with the frame shows the byte too. */
  lemma SharedByteLeaks(sys: Sys, p: int, a: int, b: Byte)
    requires Inv(sys) && p in sys.procs && 0 <= a < TWO_32 && Mapped(sys.procs[p], PageOf(a))
    requires !Private(sys, p, PageOf(a)) && Content(sys.m, PhyAddr(sys.procs[p], a)) != b
    ensures Views(sys.(m := Put(sys.m, PhyAddr(sys.procs[p], a), b)))
         != Views(sys)[p := View(sys.procs[p], sys.m)[a := b]]
  {
    hide ProtAt, PageOf, Offset, Shielded, Aligned, Content, Inv;
    var s := sys.procs[p];
    var q, y :| q in sys.procs && Mapped(sys.procs[q], y) && sys.procs[q].pgd[y] == s.pgd[PageOf(a)]
                && !(q == p && y == PageOf(a));
    var c := y + Offset(a);
    OfGoodSpace(sys, q, y);
    OnPage(y, Offset(a));
    PageFacts(a);
    var sys' := sys.(m := Put(sys.m, PhyAddr(s, a), b));
    assert PhyAddr(sys.procs[q], c) == PhyAddr(s, a);
    SameByteChanges(sys.procs[q], sys.m, c, b);
    hide View, PhyAddr, Mapped;
    ViewsAt(sys, q);
    ViewsAt(sys', q);
  }

  lemma OfGoodSpace(sys: Sys, q: int, y: int)
    requires Inv(sys) && q in sys.procs && Mapped(sys.procs[q], y)
    ensures Aligned(y) && 0 <= y < TWO_32
  {
  }

  lemma OnPage(y: int, off: int)
    requires Aligned(y) && 0 <= y < TWO_32 && 0 <= off < PAGE_SIZE
    ensures PageOf(y + off) == y && Offset(y + off) == off && y + off < TWO_32
  {
  }

  lemma SameByteChanges(s: Space, m: Phys, c: int, b: Byte)
    requires 0 <= c < TWO_32 && Mapped(s, PageOf(c)) && Content(m, PhyAddr(s, c)) != b
    ensures c in View(s, m) && View(s, m)[c] != b
    ensures var m' := Put(m, PhyAddr(s, c), b); c in View(s, m') && View(s, m')[c] == b
  {
    hide PageOf, PhyAddr;
  }

  // ---------- fork ----------

  /** Fork fails to protect a page that an earlier copy made writable in an area that is copy-on-write already, unless
      another private read-write area touches the page. */
  predicate Unprotected(s: Space, a: int) {
    && ProtAt(s.areas, a) == COPY_ON_WRITE && Pte(s, PageOf(a)) != PTE_RONLY
    && forall i :: 0 <= i < |s.areas| ==> !(Splits(s.areas[i]) && Touches(s.areas[i], PageOf(a)))
  }

  /** After a fork, a write by the parent leaves the child's byte alone if and only if fork protected the page. */
  lemma ForkThenWrite(sys: Sys, p: int, a: int, b: Byte)
    requires Inv(sys) && p in sys.procs && 0 <= a < TWO_32 && Available(sys.m.frames, 1)
    requires Mapped(sys.procs[p], PageOf(a)) && InAnArea(sys.procs[p].areas, a)
    requires ProtAt(sys.procs[p].areas, a) in {RW, COPY_ON_WRITE}
    requires forall x :: x in sys.procs[p].areas && x.prot == RW ==> x.flags == PRIVATE
    requires Content(sys.m, PhyAddr(sys.procs[p], a)) != b
    ensures var s := sys.procs[p]; var child := ForkSpace(s); var v := WriteVm(child, sys.m, a, b);
      Content(v.m, PhyAddr(child, a)) == Content(sys.m, PhyAddr(s, a)) <==> !Unprotected(s, a)
  {
    hide PageOf, Offset, ProtAt, MarkAreas, ForkAreas, Inv, Content, CopyFrame, FirstFree, Touches, Splits, Mapped;
    var s := sys.procs[p];
    var t := ForkSpace(s);
    MarkAreasPte(s, s.valid, s.areas, PageOf(a));
    ForkProt(s.areas, a);
    ForkInAnArea(s.areas, a);
    UnprotectedIsUnmarked(s, a);
    assert PhyAddr(t, a) == PhyAddr(s, a);
    if MustCopy(t, a) {
      CopyLeavesOld(sys, p, t, a, b);
    } else {
      PutLands(sys.m, PhyAddr(t, a), b);
    }
  }

  lemma ForkInAnArea(areas: seq<Area>, a: int)
    ensures InAnArea(ForkAreas(areas), a) <==> InAnArea(areas, a)
  {
    assert forall i :: 0 <= i < |areas| ==> (Covers(ForkAreas(areas)[i], a) <==> Covers(areas[i], a));
  }

  lemma UnprotectedIsUnmarked(s: Space, a: int)
    ensures Unprotected(s, a) <==>
            ProtAt(s.areas, a) == COPY_ON_WRITE && Pte(s, PageOf(a)) != PTE_RONLY && !Marked(s.areas, PageOf(a))
  {
    hide PageOf, ProtAt, Touches, Splits;
  }

  lemma PutLands(m: Phys, pa: int, b: Byte)
    ensures Content(Put(m, pa, b), pa) == b
  {
  }

  /** A write that copies its page first leaves the old frame as it was. */
  lemma CopyLeavesOld(sys: Sys, p: int, t: Space, a: int, b: Byte)
    requires Inv(sys) && p in sys.procs && Available(sys.m.frames, 1) && MustCopy(t, a) && InAnArea(t.areas, a)
    requires Mapped(sys.procs[p], PageOf(a)) && t.pgd == sys.procs[p].pgd
    ensures Content(WriteVm(t, sys.m, a, b).m, PhyAddr(t, a)) == Content(sys.m, PhyAddr(t, a))
  {
    hide PageOf, ProtAt, CopyFrame, FirstFree, MustCopy, InAnArea, Offset, Aligned, LastPage;
    var x := PageOf(a);
    var f := FirstFree(sys.m.frames, 0);
    var g := t.pgd[x];
    FramesAligned(sys, p, x);
    var v := CopyPage(t, sys.m, x);
    FramesDisjoint(f, g, Offset(a));
    if !LastPage(x) {
      CopyPageFields(t, sys.m, x);
      CopyByte(sys.m, sys.m.frames + {f}, Frame(t, x), f, PhyAddr(t, a));
    }
    assert PhyAddr(v.s, a) == f + Offset(a);
    assert f != g;
  }

  lemma FramesAligned(sys: Sys, p: int, x: int)
    requires Inv(sys) && p in sys.procs && Available(sys.m.frames, 1) && Mapped(sys.procs[p], x)
    ensures var f := FirstFree(sys.m.frames, 0); var g := sys.procs[p].pgd[x];
      Aligned(f) && Aligned(g) && f != g && f < FRAME_LIMIT
  {
    hide FirstFree, ProtAt;
  }

  /** Fork leaves the forking process and its child what there was if and only if it marks no page that was given up and
      still has its old frame: such a page comes back. */
  lemma ForkBringsBack(s: Space, m: Phys)
    requires forall x :: x in s.pgd ==> Aligned(x) && 0 <= x < TWO_32
    ensures View(ForkSpace(s), m) == View(s, m) <==> forall x :: Marked(s.areas, x) && x in s.pgd ==> Mapped(s, x)
  {
    hide PageOf, Offset, Content, Marked, MarkAreas, ForkAreas, View;
    var t := ForkSpace(s);
    forall x ensures Mapped(t, x) <==> x in s.pgd && (Marked(s.areas, x) || Mapped(s, x)) {
      MarkAreasPte(s, s.valid, s.areas, x);
    }
    if x :| Marked(s.areas, x) && x in s.pgd && !Mapped(s, x) {
      PageFacts(x);
      OnPage(x, 0);
      ViewAt(s, m, x);
      ViewAt(t, m, x);
    } else {
      forall a ensures (a in View(t, m) <==> a in View(s, m)) && (a in View(s, m) ==> View(t, m)[a] == View(s, m)[a]) {
        ViewAt(s, m, a);
        ViewAt(t, m, a);
        ForkTranslates(s, a);
      }
    }
  }

  // ---------- programs that get there ----------

  /** Once a process has forked and then written to a byte that was read-write, its page is unprotected: writable in an
      area that is copy-on-write, which fork does not mark again. */
  lemma WriteUnprotects(s: Space, m: Phys, a: int, b: Byte)
    requires Mapped(s, PageOf(a)) && InAnArea(s.areas, a) && ProtAt(s.areas, a) == RW
    requires forall x :: x in s.areas && x.prot == RW ==> x.flags == PRIVATE
    ensures Unprotected(WriteVm(ForkSpace(s), m, a, b).s, a) && MustCopy(ForkSpace(s), a)
  {
    hide PageOf, ProtAt, MarkAreas, CopyFrame, FirstFree, Touches, Mapped, PhyAddr;
    var t := ForkSpace(s);
    MarkAreasPte(s, s.valid, s.areas, PageOf(a));
    ForkProt(s.areas, a);
    ForkInAnArea(s.areas, a);
    NothingSplits(s.areas);
    var v := WriteVm(t, m, a, b);
    assert v.s.areas == t.areas && Pte(v.s, PageOf(a)) == PTE_RW;
  }

  lemma NothingSplits(areas: seq<Area>)
    requires forall x :: x in areas && x.prot == RW ==> x.flags == PRIVATE
    ensures forall i :: 0 <= i < |ForkAreas(areas)| ==> !Splits(ForkAreas(areas)[i])
  {
    forall i | 0 <= i < |areas| ensures !Splits(ForkAreas(areas)[i]) {
      assert areas[i] in areas;
    }
  }

  /** A fork, a write, and a second fork: the parent's next write to the same byte shows in the second child, from any
      guarded state and for every byte that was read-write. */
  lemma SecondForkLeaks(sys: Sys, p: int, c: int, a: int, b: Byte, b': Byte)
    requires Inv(sys) && p in sys.procs && c !in sys.procs && ForkOK(sys.procs[p]) && 0 <= a < TWO_32
    requires Mapped(sys.procs[p], PageOf(a)) && InAnArea(sys.procs[p].areas, a) && ProtAt(sys.procs[p].areas, a) == RW
    requires Available(sys.m.frames, 2) && !LastPage(PageOf(a)) && b != b'
    ensures var v := WriteVm(ForkSpace(sys.procs[p]), sys.m, a, b);
      var second := ForkSpace(v.s); var w := WriteVm(second, v.m, a, b');
      && Content(v.m, PhyAddr(second, a)) == b && Content(w.m, PhyAddr(second, a)) != b
  {
    hide PageOf, Offset, ProtAt, MarkAreas, ForkAreas, Inv, Content, CopyPage, FirstFree, Splits, InAnArea, PhyAddr,
         Unprotected, MustCopy, Views, View, ForkOK, Available, LastPage;
    var s := sys.procs[p];
    var t := ForkSpace(s);
    ForkPrivateAreas(s);
    ForkRefines(sys, p, c);
    var sys1 := sys.(procs := sys.procs[p := t][c := t]);
    WriteUnprotects(s, sys.m, a, b);
    FewerFrames(sys.m.frames, 1);
    AfterFirstFork(s, a);
    WriteRefines(sys1, p, a, b);
    var v := WriteVm(t, sys.m, a, b);
    var sys2 := Sys(sys1.procs[p := v.s], v.m);
    ByteWritten(t, sys.m, a, b);
    FramesAfterCopy(t, sys.m, a, b);
    ForkThenWrite(sys2, p, a, b');
    ForkTranslates(v.s, a);
  }

  lemma ForkPrivateAreas(s: Space)
    requires ForkOK(s)
    ensures forall x :: x in s.areas && x.prot == RW ==> x.flags == PRIVATE
  {
  }

  lemma AfterFirstFork(s: Space, a: int)
    requires Mapped(s, PageOf(a)) && InAnArea(s.areas, a) && ProtAt(s.areas, a) == RW
    requires forall x :: x in s.areas && x.prot == RW ==> x.flags == PRIVATE
    ensures var t := ForkSpace(s); Mapped(t, PageOf(a)) && InAnArea(t.areas, a) && ProtAt(t.areas, a) == COPY_ON_WRITE
  {
    hide PageOf, ProtAt, MarkAreas;
    MarkAreasPte(s, s.valid, s.areas, PageOf(a));
    ForkProt(s.areas, a);
    ForkInAnArea(s.areas, a);
  }

  lemma ByteWritten(t: Space, m: Phys, a: int, b: Byte)
    requires InAnArea(t.areas, a) && Mapped(t, PageOf(a))
    ensures var v := WriteVm(t, m, a, b);
      && Content(v.m, PhyAddr(v.s, a)) == b && v.s.areas == t.areas && Mapped(v.s, PageOf(a))
  {
    hide PageOf, Offset, FirstFree, CopyFrame, InAnArea, MustCopy;
  }

  lemma FramesAfterCopy(t: Space, m: Phys, a: int, b: Byte)
    requires InAnArea(t.areas, a) && MustCopy(t, a) && Available(m.frames, 1)
    requires Available(m.frames + {FirstFree(m.frames, 0)}, 1) && !LastPage(PageOf(a))
    ensures Available(WriteVm(t, m, a, b).m.frames, 1)
  {
    hide PageOf, PhyAddr, FirstFree, CopyFrame, InAnArea, MustCopy, LastPage;
    CopyPageFields(t, m, PageOf(a));
  }

  lemma ForkTranslates(s: Space, a: int)
    ensures PhyAddr(ForkSpace(s), a) == PhyAddr(s, a)
  {
    hide PageOf, Offset, ForkAreas, MarkAreas;
  }

  /** After exec and a fork, a write to the read-only text reports no error and shows in the other process. */
  lemma TextWriteLeaks(sys: Sys, p: int, elf: Elf, a: int, b: Byte)
    requires Inv(sys) && ExecOK(sys, p, elf) && 0 <= a < |elf.text| && b != elf.text[a]
    ensures var v := ExecSpace(sys.procs[p], sys.m, elf);
      var t := ForkSpace(v.s); var w := WriteVm(t, v.m, a, b);
      && a in View(t, v.m) && View(t, v.m)[a] == elf.text[a]
      && WriteError(t, a) == 0
      && a in View(t, w.m) && View(t, w.m)[a] == b
  {
    hide PageOf, Offset, ProtAt, MarkAreas, ForkAreas, Inv, Content, CopyPage, InAnArea, PhyAddr, Views, View,
         ExecSpace, ExecOK, ExecFlat, Mapped, RoundUp;
    ImageSize(sys, p, elf);
    var s := sys.procs[p];
    var v := ExecSpace(s, sys.m, elf);
    ExecRefines(sys, p, elf);
    var sys1 := Sys(sys.procs[p := v.s], v.m);
    ViewsAt(sys1, p);
    TextInImage(View(s, sys.m), elf, a);
    ExecProtections(s, sys.m, elf, a);
    ForkReadOnly(v.s.areas, a);
    var t := ForkSpace(v.s);
    ViewAt(v.s, v.m, a);
    StillMapped(v.s, PageOf(a));
    ForkTranslates(v.s, a);
    ViewAt(t, v.m, a);
    var w := WriteVm(t, v.m, a, b);
    ReadOnlyWrite(t, v.m, a, b);
    ViewAt(t, w.m, a);
  }

  lemma TextInImage(f: Flat, elf: Elf, a: int)
    requires 0 <= a < |elf.text| < TWO_32
    ensures a in ExecFlat(f, elf) && ExecFlat(f, elf)[a] == elf.text[a]
  {
    RoundUps(DataStart(elf), ImageEnd(elf));
    hide RoundUp;
  }

  lemma ImageSize(sys: Sys, p: int, elf: Elf)
    requires ExecOK(sys, p, elf)
    ensures p in sys.procs && KeptArgs(ArgsArea(sys.procs[p].areas)) && ImageEnd(elf) <= STACK_LOW
  {
    RoundUpLeast(ImageEnd(elf));
    hide RoundUp, PagesIn, Available, Fits;
  }

  lemma {:induction false} ForkReadOnly(areas: seq<Area>, a: int)
    requires ProtAt(areas, a) == RONLY
    ensures ProtAt(ForkAreas(areas), a) == RONLY && InAnArea(ForkAreas(areas), a)
    decreases areas
  {
    if areas != [] && !Covers(areas[0], a) {
      assert ForkAreas(areas)[1..] == ForkAreas(areas[1..]);
      ForkReadOnly(areas[1..], a);
      var i :| 0 <= i < |areas| - 1 && Covers(ForkAreas(areas[1..])[i], a);
      assert Covers(ForkAreas(areas)[i + 1], a);
    } else {
      assert Covers(ForkAreas(areas)[0], a);
    }
  }

  lemma StillMapped(s: Space, x: int)
    requires Mapped(s, x)
    ensures Mapped(ForkSpace(s), x)
  {
    hide PageOf, MarkAreas, ForkAreas, Marked;
    MarkAreasPte(s, s.valid, s.areas, x);
  }

  lemma ReadOnlyWrite(t: Space, m: Phys, a: int, b: Byte)
    requires ProtAt(t.areas, a) == RONLY && InAnArea(t.areas, a)
    ensures WriteError(t, a) == 0 && Content(WriteVm(t, m, a, b).m, PhyAddr(t, a)) == b
  {
    hide PageOf, Offset, InAnArea, ProtAt;
  }
}
