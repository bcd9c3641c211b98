/** Bytes and words as the core reads and writes them through the page table, against the memory its process sees. */
module PagedAccess {
  import opened Words
  import opened Paging
  import opened Isolation
  import opened ExecImage
  import opened Y86
  import WordAccess

  // ---------- what a core can access ----------

  ghost function Restrict(f: Flat, areas: seq<Area>): (r: Memory)
    ensures forall a :: a in r <==> a in f && MayRead(areas, a)
    ensures forall a :: a in r ==> r[a] == f[a]
  {
    map a | a in f && MayRead(areas, a) :: f[a]
  }

  /** The memory of a process as its core is meant to see it: the mapped bytes that lie in a readable area. */
  ghost function Visible(s: Space, m: Phys): Memory {
    Restrict(View(s, m), s.areas)
  }

  // ---------- reading a byte ----------

  /** A readable address whose page has a valid entry but no frame. Fork makes such entries: it marks the page of an
      area's closed end, whether there is one or not. */
  predicate Hole(s: Space, a: int) {
    Pte(s, PageOf(a)) != PTE_INVALID && PageOf(a) !in s.pgd && MayRead(s.areas, a)
  }

  /** A read agrees with the visible memory, in success and in value, if and only if it does not hit a hole: there it
      succeeds and returns a byte of frame 0. */
  lemma ReadExact(s: Space, m: Phys, a: int)
    requires 0 <= a < TWO_32
    ensures var r := ReadVm(s, m, a, 0);
      (r.val == ReadByte(Visible(s, m), a) && (r.error == 0 <==> a in Visible(s, m))) <==> !Hole(s, a)
    ensures Hole(s, a) ==> ReadVm(s, m, a, 0) == ReadResult(Content(m, Offset(a)), 0)
  {
    hide PageOf, InAnArea, ProtAt, Content, Offset;
    assert ToWord(a) == a;
  }

  /** Away from holes a read leaves the page table as it is. */
  lemma ReadKeepsSpace(s: Space, a: int)
    requires !Hole(s, a)
    ensures ReadSpace(s, a) == s
  {
    hide PageOf, MayRead;
  }

  /** Fork makes a hole at the closed end of every readable private area that ends on a page that is not there. */
  lemma ForkMakesHole(s: Space, x: Area)
    requires x in s.areas && Splits(x) && x.start <= x.end && PageOf(x.end) !in s.pgd
    requires forall y :: y in s.areas && y.prot == RW ==> y.flags == PRIVATE
    requires ProtAt(s.areas, x.end) in {RONLY, RW, COPY_ON_WRITE}
    ensures Hole(ForkSpace(s), x.end)
  {
    hide PageOf, ProtAt, MarkAreas, ForkAreas;
    MarkAreasPte(s, s.valid, s.areas, PageOf(x.end));
    assert Marked(s.areas, PageOf(x.end)) by { EndTouched(x); }
    ForkProt(s.areas, x.end);
    var i :| 0 <= i < |s.areas| && s.areas[i] == x;
    assert Covers(ForkAreas(s.areas)[i], x.end);
  }

  lemma EndTouched(x: Area)
    requires x.start <= x.end
    ensures Touches(x, PageOf(x.end))
  {
  }

  /** A page given up faults on every read; no other page is affected, and neither is a process that shares its frame.
  */
  lemma FreedPageFaults(s: Space, m: Phys, page: int, a: int)
    requires Aligned(page)
    ensures var t := s.(valid := s.valid[page := PTE_INVALID]);
      && (PageOf(a) == page ==> ReadVm(t, m, a, 0) == ReadResult(0, 1) && a !in Visible(t, m))
      && (PageOf(a) != page ==>
            ReadVm(t, m, a, 0) == ReadVm(s, m, a, 0) && (a in Visible(t, m) <==> a in Visible(s, m)))
  {
    hide PageOf, InAnArea, ProtAt, Content, Offset;
  }

  // ---------- reading words ----------

  datatype VmRead = VmRead(val: int, err: bool, s: Space)

  /** A byte read at a core's address; 0 on an error. */
  function ReadByteVm(s: Space, m: Phys, addr: int): VmRead {
    var a := ToWord(addr);
    var r := ReadVm(s, m, a, 0);
    VmRead(r.val, r.error != 0, ReadSpace(s, a))
  }

  /** The byte loop of readmem: an error ends it, and the value is lost. */
  function ReadBytesVm(s: Space, m: Phys, addr: int, n: nat): VmRead
    decreases n
  {
    if n == 0 then VmRead(0, false, s) else
    var r := ReadByteVm(s, m, addr);
    if r.err then VmRead(0, true, r.s) else
    var rest := ReadBytesVm(r.s, m, addr + 1, n - 1);
    VmRead(if rest.err then 0 else r.val + 256 * rest.val, rest.err, rest.s)
  }

  /** The byte loop of the fetch stage: a byte that cannot be read counts as 0. */
  function ConstantVm(s: Space, m: Phys, addr: int, n: nat): VmRead
    decreases n
  {
    if n == 0 then VmRead(0, false, s) else
    var r := ReadByteVm(s, m, addr);
    var rest := ConstantVm(r.s, m, addr + 1, n - 1);
    VmRead(r.val + 256 * rest.val, false, rest.s)
  }

  /** No byte that the loop of readmem gets to is a hole. */
  ghost predicate NoHoles(s: Space, m: Phys, addr: int, n: nat)
    decreases n
  {
    n == 0 || (!Hole(s, ToWord(addr)) && (ToWord(addr) in Visible(s, m) ==> NoHoles(s, m, addr + 1, n - 1)))
  }

  lemma ByteRead(s: Space, m: Phys, addr: int)
    requires !Hole(s, ToWord(addr))
    ensures ReadByteVm(s, m, addr) == VmRead(ReadByte(Visible(s, m), addr), ToWord(addr) !in Visible(s, m), s)
  {
    hide Visible, Hole, ReadVm, ReadSpace;
    ReadExact(s, m, ToWord(addr));
    ReadKeepsSpace(s, ToWord(addr));
    assert ToWord(ToWord(addr)) == ToWord(addr);
  }

  /** Away from holes the word loop reads the word of the visible memory, with its error. */
  lemma {:induction false} WordRead(s: Space, m: Phys, addr: int, n: nat)
    requires NoHoles(s, m, addr, n)
    ensures var r := ReadBytesVm(s, m, addr, n);
      && r.s == s && (r.err <==> !AllReadable(Visible(s, m), addr, n))
      && r.val == if r.err then 0 else ReadBytes(Visible(s, m), addr, n)
    decreases n
  {
    hide Visible, Hole, ReadByteVm, ReadByte;
    if n > 0 {
      ByteRead(s, m, addr);
      if ToWord(addr) in Visible(s, m) {
        WordRead(s, m, addr + 1, n - 1);
      }
    }
  }

  lemma {:induction false} ConstantRead(s: Space, m: Phys, addr: int, n: nat)
    requires forall i :: addr <= i < addr + n ==> !Hole(s, ToWord(i))
    ensures ConstantVm(s, m, addr, n) == VmRead(ReadBytes(Visible(s, m), addr, n), false, s)
    decreases n
  {
    hide Visible, Hole, ReadByteVm, ReadByte;
    if n > 0 {
      ByteRead(s, m, addr);
      ConstantRead(s, m, addr + 1, n - 1);
    }
  }

  // ---------- writing words ----------

  datatype VmWrite = VmWrite(s: Space, m: Phys, err: bool)

  /** The byte loop of writemem: the first error ends it. */
  function WriteBytesVm(s: Space, m: Phys, addr: int, val: int, n: nat): VmWrite
    decreases n
  {
    if n == 0 then VmWrite(s, m, false) else
    var v := WriteVm(s, m, ToWord(addr), val % 256);
    if WriteError(s, ToWord(addr)) != 0 then VmWrite(v.s, v.m, true)
    else WriteBytesVm(v.s, v.m, addr + 1, val / 256, n - 1)
  }

  /** A mapped byte in an area that may be written, and not on a last page that would have to be copied. */
  predicate Writable(s: Space, a: int) {
    && 0 <= a < TWO_32 && Mapped(s, PageOf(a)) && InAnArea(s.areas, a)
    && ProtAt(s.areas, a) in {RW, COPY_ON_WRITE}
    && (MustCopy(s, a) ==> !LastPage(PageOf(a)))
  }

  /** Every byte that the loop of writemem gets to is writable, or lies in no area, which ends the loop. */
  predicate MayStore(s: Space, addr: int, n: nat)
    decreases n
  {
    n == 0 || (InAnArea(s.areas, ToWord(addr)) ==> Writable(s, ToWord(addr)) && MayStore(s, addr + 1, n - 1))
  }

  /** A word stored through the page table, over as many copied pages as it takes, and up to the first byte that is in
      no area, is the word stored to flat memory; the store is seen by no other process. */
  lemma {:induction false} WordWriteRefines(sys: Sys, p: int, addr: int, val: int, n: nat)
    requires Inv(sys) && p in sys.procs && MayStore(sys.procs[p], addr, n) && Available(sys.m.frames, n)
    ensures var v := WriteBytesVm(sys.procs[p], sys.m, addr, val, n); var sys' := Sys(sys.procs[p := v.s], v.m);
      && Inv(sys') && v.s.areas == sys.procs[p].areas
      && Written(Visible(v.s, v.m), v.err) == WriteBytes(Visible(sys.procs[p], sys.m), addr, val, n)
      && (forall q :: q in sys.procs && q != p ==> View(sys'.procs[q], v.m) == View(sys.procs[q], sys.m))
      && (forall a :: Writable(sys.procs[p], a) ==> Writable(v.s, a))
      && (forall a :: a in View(v.s, v.m) <==> a in View(sys.procs[p], sys.m))
    decreases n
  {
    hide Inv, Views, View, WriteVm, Available, Private, Mapped, PageOf, InAnArea, ProtAt, Writable, Visible;
    var s := sys.procs[p];
    SameProcs(sys, p);
    if n > 0 {
      var a := ToWord(addr);
      var b: Byte := val % 256;
      if InAnArea(s.areas, a) {
        FewerFrames(sys.m.frames, n - 1);
        ByteWrite(sys, p, a, b);
        WriteKeeps(s, sys.m, a, b, n);
        var v := WriteVm(s, sys.m, a, b);
        var sys1 := Sys(sys.procs[p := v.s], v.m);
        MayStoreAgain(s, v.s, addr + 1, n - 1);
        WordWriteRefines(sys1, p, addr + 1, val / 256, n - 1);
        UpdateTwice(sys.procs, p, v.s, WriteBytesVm(v.s, v.m, addr + 1, val / 256, n - 1).s);
      } else {
        OutsideAreas(s, sys.m, a, b);
      }
    }
  }

  /** One byte of the loop. */
  lemma ByteWrite(sys: Sys, p: int, a: int, b: Byte)
    requires Inv(sys) && p in sys.procs && Writable(sys.procs[p], a) && Available(sys.m.frames, 1)
    ensures var s := sys.procs[p]; var v := WriteVm(s, sys.m, a, b); var sys' := Sys(sys.procs[p := v.s], v.m);
      && Inv(sys') && v.s.areas == s.areas
      && a in Visible(s, sys.m) && Visible(v.s, v.m) == Visible(s, sys.m)[a := b]
      && (forall q :: q in sys.procs && q != p ==> View(sys'.procs[q], v.m) == View(sys.procs[q], sys.m))
      && (forall c :: c in View(v.s, v.m) <==> c in View(s, sys.m))
  {
    hide Inv, Views, View, WriteVm, InAnArea, ProtAt, Restrict, Available, PageOf, MustCopy, Mapped;
    WriteRefines(sys, p, a, b);
    var s := sys.procs[p];
    var v := WriteVm(s, sys.m, a, b);
    var sys' := Sys(sys.procs[p := v.s], v.m);
    ViewsAt(sys, p);
    ViewsAt(sys', p);
    MappedInView(s, sys.m, a);
    forall q | q in sys.procs && q != p ensures View(sys'.procs[q], v.m) == View(sys.procs[q], sys.m) {
      ViewsAt(sys, q);
      ViewsAt(sys', q);
    }
    assert MayRead(s.areas, a);
    hide MayRead;
    assert View(v.s, v.m) == View(s, sys.m)[a := b];
    var l, r := Visible(v.s, v.m), Visible(s, sys.m)[a := b];
    forall c ensures (c in l <==> c in r) && (c in l ==> l[c] == r[c]) {
    }
  }

  lemma MappedInView(s: Space, m: Phys, a: int)
    requires 0 <= a < TWO_32 && Mapped(s, PageOf(a))
    ensures a in View(s, m)
  {
  }

  lemma OutsideAreas(s: Space, m: Phys, a: int, b: Byte)
    requires !InAnArea(s.areas, a)
    ensures WriteVm(s, m, a, b) == VmState(s, m) && WriteError(s, a) == 1 && a !in Visible(s, m)
  {
    hide View;
  }

  lemma {:induction false} MayStoreAgain(s: Space, t: Space, addr: int, n: nat)
    requires MayStore(s, addr, n) && t.areas == s.areas && forall a :: Writable(s, a) ==> Writable(t, a)
    ensures MayStore(t, addr, n)
    decreases n
  {
    hide Writable, InAnArea;
    if n > 0 && InAnArea(s.areas, ToWord(addr)) {
      MayStoreAgain(s, t, addr + 1, n - 1);
    }
  }

  /** A write hides nothing, and takes at most one frame. */
  lemma WriteKeeps(s: Space, m: Phys, a: int, b: Byte, n: nat)
    requires Writable(s, a) && Available(m.frames, n) && n > 0
    ensures var v := WriteVm(s, m, a, b);
      && (forall c :: Writable(s, c) ==> Writable(v.s, c))
      && Available(v.m.frames, n - 1)
  {
    hide PageOf, InAnArea, ProtAt, FirstFree, CopyFrame, PhyAddr, Available;
    FewerFrames(m.frames, n - 1);
    var v := WriteVm(s, m, a, b);
    if MustCopy(s, a) {
      CopyPageFields(s, m, PageOf(a));
    }
    assert forall x :: Mapped(s, x) ==> Mapped(v.s, x);
    assert forall c :: MustCopy(v.s, c) ==> MustCopy(s, c);
    assert v.s.areas == s.areas;
    hide WriteVm, Mapped;
  }

  /** Written and read back through the page tables: the word is there, and no other visible byte of any process has
      changed, also when it straddles two pages and both are copied. */
  lemma PagedWordRoundTrip(sys: Sys, p: int, addr: int, val: int)
    requires Inv(sys) && p in sys.procs && Available(sys.m.frames, 4)
    requires forall i :: addr <= i < addr + 4 ==> Writable(sys.procs[p], ToWord(i))
    ensures var s := sys.procs[p];
      var v := WriteBytesVm(s, sys.m, addr, val, 4);
      var r := ReadBytesVm(v.s, v.m, addr, 4);
      var before, after := Visible(s, sys.m), Visible(v.s, v.m);
      && !v.err && !r.err && Wrap(r.val) == Wrap(val)
      && after.Keys == before.Keys
      && (forall a :: a in before && a !in {ToWord(addr), ToWord(addr + 1), ToWord(addr + 2), ToWord(addr + 3)} ==>
            after[a] == before[a])
      && (forall q :: q in sys.procs && q != p ==>
            View(Sys(sys.procs[p := v.s], v.m).procs[q], v.m) == View(sys.procs[q], sys.m))
  {
    hide Inv, View, Available, InAnArea, Visible, Writable, WriteBytesVm, ReadBytesVm, WriteBytes, ReadBytes;
    var s := sys.procs[p];
    var before := Visible(s, sys.m);
    AllStored(s, addr, 4);
    WordWriteRefines(sys, p, addr, val, 4);
    var v := WriteBytesVm(s, sys.m, addr, val, 4);
    forall i | addr <= i < addr + 4
      ensures ToWord(i) in before && ToWord(i) in Visible(v.s, v.m) && !Hole(v.s, ToWord(i))
    {
      WritableVisible(s, sys.m, ToWord(i));
      WritableVisible(v.s, v.m, ToWord(i));
    }
    AllClear(v.s, v.m, addr, 4);
    WordRead(v.s, v.m, addr, 4);
    WordAccess.WordRoundTrip(before, addr, val);
  }

  lemma {:induction false} AllStored(s: Space, addr: int, n: nat)
    requires forall i :: addr <= i < addr + n ==> Writable(s, ToWord(i))
    ensures MayStore(s, addr, n)
    decreases n
  {
    hide Writable, InAnArea;
    if n > 0 {
      AllStored(s, addr + 1, n - 1);
    }
  }

  lemma {:induction false} AllClear(s: Space, m: Phys, addr: int, n: nat)
    requires forall i :: addr <= i < addr + n ==> !Hole(s, ToWord(i))
    ensures NoHoles(s, m, addr, n)
    decreases n
  {
    hide Hole, Visible;
    if n > 0 {
      AllClear(s, m, addr + 1, n - 1);
    }
  }

  lemma WritableVisible(s: Space, m: Phys, a: int)
    requires Writable(s, a)
    ensures a in Visible(s, m) && !Hole(s, a)
  {
    hide PageOf, InAnArea, ProtAt, MustCopy, Content, PhyAddr;
  }
}
