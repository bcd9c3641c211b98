/** From power-on: the first process executes a file, forks, and runs a program for as long as one likes. No guard of
    the runs and machines stands in the way. */
module FirstRun {
  import opened Words
  import opened Paging
  import opened Isolation
  import opened ExecImage
  import opened Leaks
  import opened ExecLeaks
  import opened PagedAccess
  import opened Y86
  import Runs
  import opened Machine
  import P = Pipeline
  import S = Sequential
  import PipelineProof
  import G = ProgramGuards

  // ---------- frames of a new machine ----------

  ghost function FirstFrames(k: nat): set<int> {
    set i | 0 <= i < k :: i * PAGE_SIZE
  }

  lemma {:induction false} NextFrame(k: nat, i: nat)
    requires i <= k && k * PAGE_SIZE < FRAME_LIMIT
    ensures FirstFree(FirstFrames(k), i * PAGE_SIZE) == k * PAGE_SIZE
    decreases k - i
  {
    assert forall j :: j * PAGE_SIZE == i * PAGE_SIZE ==> j == i;
    assert i < k ==> i * PAGE_SIZE in FirstFrames(k);
    assert k * PAGE_SIZE !in FirstFrames(k);
    if i < k {
      NextFrame(k, i + 1);
    }
  }

  lemma {:induction false} FramesForAll(k: nat, n: nat)
    requires (k + n) * PAGE_SIZE <= FRAME_LIMIT
    ensures Available(FirstFrames(k), n)
    decreases n
  {
    if n > 0 {
      NextFrame(k, 0);
      assert FirstFrames(k) + {k * PAGE_SIZE} == FirstFrames(k + 1);
      FramesForAll(k + 1, n - 1);
    }
  }

  lemma {:induction false} PageCount(addr: int, end: int)
    requires addr <= end
    ensures PAGE_SIZE * PagesIn(addr, end) < end - addr + PAGE_SIZE
    decreases end - addr
  {
    if addr + PAGE_SIZE < end {
      PageCount(addr + PAGE_SIZE, end);
    } else if addr < end {
      assert PagesIn(addr + PAGE_SIZE, end) == 0;
    }
  }

  // ---------- the first image ----------

  const NEW: Space := Space(map[], map[], [])

  function NewMemory(): Phys {
    Phys(map[], {})
  }

  /** A file whose sections fit, of a size that leaves memory. */
  predicate Loadable(elf: Elf) {
    Fits(elf) && ImageEnd(elf) <= STACK_LOW / 2
  }

  lemma FramesOfNew(n: nat)
    requires n * PAGE_SIZE <= FRAME_LIMIT
    ensures Available(NewMemory().frames, n)
  {
    assert FirstFrames(0) == {};
    FramesForAll(0, n);
  }

  lemma FirstExecFits(elf: Elf, rest: nat)
    requires Loadable(elf) && rest <= 0x1_0000
    ensures ExecOK(Runs.Boot(), 1, elf) && ExecFits(NEW, NewMemory(), elf, rest)
  {
    var t, d, e := DataStart(elf), BssStart(elf), ImageEnd(elf);
    PageCount(0, t);
    PageCount(t, d);
    PageCount(d, e);
    PageCount(0, e);
    PageCount(STACK_LOW, STACK_HIGH);
    PageCount(STACK_HIGH, ARGS_HIGH);
    RoundUpLeast(e);
    hide PagesIn, RoundUp, Fits, Available;
    FramesOfNew(ImageNeeds(NEW, elf) + rest);
    FramesOfNew(PagesIn(0, e) + (PagesIn(STACK_LOW, STACK_HIGH) + PagesIn(STACK_HIGH, ARGS_HIGH)));
  }

  ghost function FirstSpace(elf: Elf): Space {
    ExecSpace(NEW, NewMemory(), elf).s
  }

  ghost function FirstMemory(elf: Elf): Phys {
    ExecSpace(NEW, NewMemory(), elf).m
  }

  /** No entry without frame, and none for the page behind the arguments. */
  lemma FirstPages(elf: Elf, rest: nat)
    requires Loadable(elf) && rest <= 0x1_0000
    ensures forall x :: x in FirstSpace(elf).pgd <==> Pte(FirstSpace(elf), x) != PTE_INVALID
    ensures ARGS_HIGH !in FirstSpace(elf).pgd
    ensures forall x :: PageIn(x, 0, ImageEnd(elf)) || PageIn(x, STACK_LOW, STACK_HIGH) ==> x in FirstSpace(elf).pgd
    ensures Available(FirstMemory(elf).frames, rest)
  {
    FirstExecFits(elf, rest);
    hide ExecSpace, Available, Fits, Covered, PagesGiven, Loadable, ExecFits;
    ExecTold(NEW, elf, NewMemory(), 0, rest);
    var t := FirstSpace(elf);
    FitsCovers(elf) by { assert Fits(elf) by { LoadableFits(elf); } }
    forall x ensures x in t.pgd <==> Pte(t, x) != PTE_INVALID {
      assert !KeepPage([], x) && !LeftOver(NEW, x);
      assert !Stray(NEW, elf, x);
    }
    forall x | PageIn(x, 0, ImageEnd(elf)) || PageIn(x, STACK_LOW, STACK_HIGH)
      ensures x in LowGiven(elf) + HighGiven(NEW)
    {
      GivenPages(elf, x);
    }
    assert ARGS_HIGH !in LowGiven(elf) + HighGiven(NEW) by { BehindArguments(elf); }
  }

  lemma GivenPages(elf: Elf, x: int)
    requires (PageIn(x, 0, ImageEnd(elf)) && Covered(elf, x)) || PageIn(x, STACK_LOW, STACK_HIGH)
    ensures x in LowGiven(elf) + HighGiven(NEW)
  {
  }

  lemma LoadableFits(elf: Elf)
    requires Loadable(elf)
    ensures Fits(elf)
  {
    hide Fits;
  }

  lemma BehindArguments(elf: Elf)
    requires Loadable(elf)
    ensures ARGS_HIGH !in LowGiven(elf) + HighGiven(NEW)
  {
    hide Fits;
  }

  function FirstAreas(elf: Elf): seq<Area> {
    var t, d, e := DataStart(elf), BssStart(elf), ImageEnd(elf);
    [Area(0, t, RONLY, PRIVATE, "text"), Area(t, d, RW, PRIVATE, "data"), Area(d, e, RW, PRIVATE, "bss"),
     Area(STACK_LOW, STACK_HIGH, RW, PRIVATE, "stack"), Area(STACK_HIGH, ARGS_HIGH, RW, PRIVATE, ARGS_NAME)]
  }

  lemma FirstAreasAre(elf: Elf)
    ensures FirstSpace(elf).areas == FirstAreas(elf)
  {
    hide ExecSpace;
    ExecAreas(NEW, NewMemory(), elf, 0);
  }

  // ---------- its first fork ----------

  lemma {:induction false} NoSuchProt(areas: seq<Area>, prot: int, a: int)
    requires prot != 0 && forall x :: x in areas ==> x.prot != prot
    ensures ProtAt(areas, a) != prot
    decreases areas
  {
    if areas != [] {
      NoSuchProt(areas[1..], prot, a);
    }
  }

  /** The first process may fork. */
  lemma FirstForkOK(elf: Elf)
    requires Loadable(elf)
    ensures ForkOK(FirstSpace(elf))
  {
    hide ExecSpace, Fits, PageOf, Touches, FirstSpace;
    FirstPages(elf, 4);
    FirstAreasAre(elf);
    var s := FirstSpace(elf);
    forall a ensures ProtAt(s.areas, a) != COPY_ON_WRITE {
      NoSuchProt(s.areas, COPY_ON_WRITE, a);
    }
    hide ProtAt, Pte;
    forall x | x in s.areas ensures x.flags == PRIVATE && 0 <= x.start && x.end < TWO_32 - PAGE_SIZE {
      InFirstAreas(elf, x);
    }
    hide FirstAreas;
  }

  lemma InFirstAreas(elf: Elf, x: Area)
    requires Loadable(elf) && x in FirstAreas(elf)
    ensures x.flags == PRIVATE && 0 <= x.start && x.end < TWO_32 - PAGE_SIZE
  {
    hide Fits;
  }

  /** Whatever file the first process executes: when it forks, fork marks the page behind the argument area, which is
      not there. Both processes then read bytes of frame 0 at an address where they have no memory. */
  lemma HoleAfterFork(elf: Elf, m: Phys)
    requires Loadable(elf)
    ensures var s := FirstSpace(elf); var t := ForkSpace(s);
      && ForkOK(s) && Hole(t, ARGS_HIGH)
      && ReadVm(t, m, ARGS_HIGH, 0) == ReadResult(Content(m, 0), 0) && ARGS_HIGH !in Visible(t, m)
  {
    hide ExecSpace, Fits;
    var s := FirstSpace(elf);
    FirstForkOK(elf);
    FirstPages(elf, 4);
    FirstAreasAre(elf);
    assert PageOf(ARGS_HIGH) == ARGS_HIGH && Offset(ARGS_HIGH) == 0;
    var x := s.areas[4];
    hide PageOf, ForkSpace, ForkOK, Hole, ReadVm;
    ForkMakesHole(s, x) by { ArgumentsProt(elf); }
    ReadExact(ForkSpace(s), m, ARGS_HIGH);
    HoleIsInvisible(ForkSpace(s), m);
  }

  lemma ArgumentsProt(elf: Elf)
    requires Loadable(elf)
    ensures ProtAt(FirstAreas(elf), ARGS_HIGH) == RW
  {
    hide Fits;
    var l := FirstAreas(elf);
    assert l == [l[0], l[1], l[2], l[3]] + [l[4]];
    FourAreas(l[0], l[1], l[2], l[3], [l[4]], ARGS_HIGH);
  }

  lemma HoleIsInvisible(t: Space, m: Phys)
    requires Hole(t, ARGS_HIGH)
    ensures ARGS_HIGH !in Visible(t, m)
  {
    assert PageOf(ARGS_HIGH) == ARGS_HIGH;
    hide PageOf;
  }

  // ---------- an exec by its child ----------

  /** A file whose data starts inside a page and goes on to the next one. */
  lemma StrayFile(elf: Elf, a: int)
    requires |elf.text| == 100 && |elf.data| == 5000 && elf.bssLen == 0 && 4096 <= a < 5100
    ensures PageOf(a) == 4096 && EndsStray(elf, a)
  {
  }

  /** The byte is on the last page of the image, which gets no frame. */
  predicate EndsStray(elf: Elf, a: int) {
    0 <= a < ImageEnd(elf) <= PageOf(a) + PAGE_SIZE && !Covered(elf, PageOf(a)) && ImageEnd(elf) <= STACK_LOW / 8
  }

  /** From power-on: process 1 executes a file and forks, and the child executes another, with a byte on a page that
      gets no frame. Where the parent's file has that page, the parent finds the child's byte in place of its own. */
  lemma ChildSpoilsParent(first: Elf, second: Elf, a: int)
    requires Loadable(first) && PageIn(PageOf(a), 0, ImageEnd(first)) && EndsStray(second, a)
    ensures var s, m := FirstSpace(first), FirstMemory(first);
      var t := ForkSpace(s);
      var m' := ExecSpace(t, m, second).m;
      && ForkOK(s) && a in View(t, m) && View(t, m)[a] == LoadByte(first, a)
      && a in View(t, m') && View(t, m')[a] == LoadByte(second, a)
  {
    hide ExecSpace, Fits, ForkSpace, ForkOK, View, ExecFits, ExecOK, Covered, Views, Isolation.Inv, Loadable, PageOf,
         LoadByte, ExecFlat;
    var s, m := FirstSpace(first), FirstMemory(first);
    var sys := Sys(map[1 := s], m);
    FirstExecFits(first, 0x1_0000);
    FirstPages(first, 0x1_0000);
    FirstForkOK(first);
    Runs.BootInv();
    ExecRefines(Runs.Boot(), 1, first);
    assert Runs.Boot().procs[1 := s] == sys.procs;
    ViewsAt(Runs.Boot(), 1);
    ViewsAt(sys, 1);
    ImageByteIsLoaded(first, a);
    SecondFits(first, second, a);
    MappedPage(s, PageOf(a));
    ForkThenExecSpoils(sys, 1, 2, second, a);
  }

  lemma MappedPage(s: Space, x: int)
    requires x in s.pgd && (x in s.pgd <==> Pte(s, x) != PTE_INVALID)
    ensures Mapped(s, x)
  {
  }

  lemma ImageByteIsLoaded(elf: Elf, a: int)
    requires Loadable(elf) && PageIn(PageOf(a), 0, ImageEnd(elf))
    ensures a in ExecFlat(map[], elf) && ExecFlat(map[], elf)[a] == LoadByte(elf, a)
  {
    hide Fits;
    RoundUps(PageOf(a), ImageEnd(elf));
    assert RoundUp(ImageEnd(elf)) >= PageOf(a) + PAGE_SIZE;
  }

  lemma SecondFits(first: Elf, second: Elf, a: int)
    requires EndsStray(second, a) && Available(FirstMemory(first).frames, 0x1_0000)
    ensures var t := ForkSpace(FirstSpace(first)); ExecFits(t, FirstMemory(first), second) && !Boots(t)
  {
    hide ExecSpace, Available, Covered, PageOf, ImageNeeds, FirstSpace, FirstMemory, MarkAreas, ForkAreas, ArgsArea;
    var t := ForkSpace(FirstSpace(first));
    FirstAreasAre(first);
    ArgumentsKept(first);
    FewNeeds(t, second);
    LessFrames(FirstMemory(first).frames, ImageNeeds(t, second), 0x1_0000);
  }

  lemma FewNeeds(t: Space, elf: Elf)
    requires ImageEnd(elf) <= STACK_LOW / 8 && !Boots(t)
    ensures ImageNeeds(t, elf) <= 0x1_0000
  {
    hide PagesIn, ArgsArea;
    var x, d, e := DataStart(elf), BssStart(elf), ImageEnd(elf);
    PageCount(0, x);
    PageCount(x, d);
    PageCount(d, e);
    PageCount(STACK_LOW, STACK_HIGH);
  }

  lemma ArgumentsKept(elf: Elf)
    ensures ArgsArea(ForkAreas(FirstAreas(elf))) == [Area(STACK_HIGH, ARGS_HIGH, COPY_ON_WRITE, PRIVATE, ARGS_NAME)]
  {
    var l := ForkAreas(FirstAreas(elf));
    SkipArea(l);
    SkipArea(l[1..]);
    SkipArea(l[2..]);
    SkipArea(l[3..]);
    assert l[4..] == [l[4]];
  }

  lemma SkipArea(areas: seq<Area>)
    requires areas != [] && areas[0].name != ARGS_NAME
    ensures ArgsArea(areas) == ArgsArea(areas[1..])
  {
  }

  lemma {:induction false} LessFrames(frames: set<int>, k: nat, n: nat)
    requires Available(frames, n) && k <= n
    ensures Available(frames, k)
    decreases n
  {
    hide Available;
    if k < n {
      FewerFrames(frames, n - 1);
      LessFrames(frames, k, n - 1);
    }
  }

  // ---------- its program ----------

  /** A file with an endless loop that adds and stores. */
  function LoopFile(): Elf {
    Elf(G.LOOP, [], 0)
  }

  lemma LoopLoads()
    ensures Loadable(LoopFile())
  {
  }

  /** The program is in its loop, and %esp is the end of the stack. */
  ghost predicate Looping(a: S.Isa) {
    G.InLoop(a) && a.reg[RESP] == STACK_HIGH
  }

  /** The process as it runs, over memory that changes. */
  ghost predicate Running(k: Cores, a: S.Isa) {
    && Good(k) && 1 in k.sys.procs && k.sys.procs[1] == FirstSpace(LoopFile())
    && Available(k.sys.m.frames, 4)
    && 1 in k.pipes && PipelineProof.Inv(k.pipes[1], a) && Looping(a)
  }

  /** The stack of the first process can be written, and no page of it has to be copied. */
  lemma StackWritable(a: int)
    requires STACK_LOW <= a < STACK_HIGH
    ensures var s := FirstSpace(LoopFile());
      && InAnArea(s.areas, a) && ProtAt(s.areas, a) == RW && Mapped(s, PageOf(a)) && ToWord(a) == a
      && s.pgd[PageOf(a) := Frame(s, PageOf(a))] == s.pgd
  {
    hide ExecSpace, Fits, ExecFits, ExecOK, PagesGiven, Covered;
    var elf := LoopFile();
    var s := FirstSpace(elf);
    LoopLoads();
    FirstPages(elf, 4);
    FirstAreasAre(elf);
    FirstExecFits(elf, 4);
    ExecTold(NEW, elf, NewMemory(), 0, 4);
    StackPage(a);
    assert Covers(s.areas[3], a);
    ExecProtections(NEW, NewMemory(), elf, a);
  }

  lemma {:induction false} StoresInPlace(m: Phys, addr: int, val: int, n: nat)
    requires STACK_LOW <= addr && addr + n <= STACK_HIGH
    ensures var s := FirstSpace(LoopFile()); var v := WriteBytesVm(s, m, addr, val, n);
      MayStore(s, addr, n) && v.s == s && v.m.frames == m.frames
    decreases n
  {
    hide ExecSpace, InAnArea, ProtAt, Mapped, PageOf, FirstSpace;
    if n > 0 {
      StackWritable(addr);
      var s := FirstSpace(LoopFile());
      var v := WriteVm(s, m, ToWord(addr), val % 256);
      assert v == VmState(s, Put(m, PhyAddr(s, addr), val % 256));
      StoresInPlace(v.m, addr + 1, val / 256, n - 1);
    }
  }

  lemma NoHole(a: int)
    ensures !Hole(FirstSpace(LoopFile()), a)
  {
    hide ExecSpace, PageOf;
    LoopLoads();
    FirstPages(LoopFile(), 4);
  }

  /** What E may do to memory in the loop. */
  lemma LoopAccess(pipe: P.Pipe, a: S.Isa)
    requires PipelineProof.Inv(pipe, a) && Looping(a)
    ensures !MemReads(pipe.e.icode)
    ensures MemWrites(pipe.e.icode) ==> MemAddr(pipe.e.icode, pipe.e.valE, pipe.e.valA) == STACK_HIGH - 4
    ensures Looping(PipelineProof.AfterM(pipe, a))
  {
    hide S.Execute, S.Step, FetchWith, G.InLoop, PipelineProof.MemorySlot, PipelineProof.BehindE;
    var a1 := PipelineProof.AfterM(pipe, a);
    InLoopFacts(a);
    G.LoopStep(a);
    InLoopFacts(a1);
    G.LoopStep(a1);
    G.LoopCode(a1);
    if !PipelineProof.Empty(pipe.e.stat, pipe.e.icode) {
      PipelineProof.EffectPC(a1);
    }
  }

  lemma InLoopFacts(a: S.Isa)
    requires G.InLoop(a)
    ensures a.stat == SAOK && a.pc in {4, 6, 12} && |a.reg| == 8
  {
  }

  /** A cycle meets its guard and leaves the page table alone. */
  lemma LoopClock(k: Cores, a: S.Isa)
    requires Running(k, a)
    ensures EventOK(k, Clock(1)) && Running(Step(k, Clock(1)), PipelineProof.AfterM(k.pipes[1], a))
  {
    hide Isolation.Inv, P.Cycle, PipelineProof.Inv, G.InLoop, FirstSpace, AccessVm, FetchVm, BeforeFetch, FetchOK,
         Available, Visible, PagedCycle, View, Looping;
    var p := k.pipes[1];
    LoopAccess(p, a);
    LoopCycleOK(p, k.sys.m, a);
    ClockIsPrivate(k, 1);
    LoopingIsSafe(a);
    PipelineProof.CycleKeepsInv(p, a);
  }

  lemma LoopingIsSafe(a: S.Isa)
    requires Looping(a)
    ensures S.SafeFrom(a) && a.stat == SAOK
  {
    hide G.InLoop;
    G.LoopIsSafe(a);
    InLoopFacts(a);
  }

  lemma LoopCycleOK(p: P.Pipe, m: Phys, a: S.Isa)
    requires PipelineProof.Inv(p, a) && Looping(a) && Available(m.frames, 4)
    ensures var s := FirstSpace(LoopFile());
      CycleOK(p, s, m) && PagedCycle(p, s, m).s == s && PagedCycle(p, s, m).m.frames == m.frames
  {
    hide PipelineProof.Inv, G.InLoop, FirstSpace, BeforeFetch, Available, P.PipeLogic, MayStore, WriteBytesVm, Hole,
         Visible, P.LatchF, P.SelectPC, FetchVm;
    var s := FirstSpace(LoopFile());
    LoopAccess(p, a);
    StoresInPlace(m, STACK_HIGH - 4, p.e.valA, 4);
    forall b ensures !Hole(s, b) {
      NoHole(b);
    }
    var acc := AccessVm(P.PipeLogic(p), p.e, s, m);
    assert acc.s == s && acc.m.frames == m.frames;
    var q := BeforeFetch(p, acc);
    FetchIsPrivate(s, acc.m, FetchPC(p, q), FetchFault(q, FetchPC(p, q)));
  }

  // ---------- the run ----------

  function Ticking(n: nat): seq<Event>
    decreases n
  {
    if n == 0 then [] else [Clock(1)] + Ticking(n - 1)
  }

  /** Clocks never meet a broken guard, and the program never stops. */
  lemma {:induction false} LoopTicks(k: Cores, a: S.Isa, n: nat) returns (b: S.Isa)
    requires Running(k, a)
    ensures EventsOK(k, Ticking(n)) && Clocks(Ticking(n), 1) == n && StaysOn(Ticking(n), 1)
    ensures Running(Run(k, Ticking(n)), b)
    decreases n
  {
    hide Running, Step, EventOK, PipelineProof.AfterM;
    if n == 0 {
      b := a;
    } else {
      assert 1 in k.pipes by { OnCore(k, a); }
      var a' := PipelineProof.AfterM(k.pipes[1], a);
      var events := Ticking(n);
      assert events[0] == Clock(1) && events[1..] == Ticking(n - 1);
      LoopClock(k, a);
      b := LoopTicks(Step(k, Clock(1)), a', n - 1);
    }
  }

  lemma OnCore(k: Cores, a: S.Isa)
    requires Running(k, a)
    ensures 1 in k.pipes && !IsStop(k.pipes[1].stat)
  {
    hide Good, Looping, PipelineProof.BehindM, PipelineProof.MemorySlot, PipelineProof.AfterM, Available, FirstSpace;
    LoopingIsSafe(a);
  }

  /** What the process sees once its file is loaded. */
  ghost function LoopMemory(): Memory {
    Visible(FirstSpace(LoopFile()), FirstMemory(LoopFile()))
  }

  lemma LoopByte(a: int)
    requires 0 <= a < |G.LOOP| || STACK_LOW <= a < STACK_HIGH
    ensures a in LoopMemory() && (a < |G.LOOP| ==> LoopMemory()[a] == G.LOOP[a])
  {
    hide ExecSpace, ExecOK, ExecFits, Views, View, MayRead;
    var elf := LoopFile();
    LoopLoads();
    FirstExecFits(elf, 4);
    Runs.BootInv();
    ExecRefines(Runs.Boot(), 1, elf);
    var sys := Sys(Runs.Boot().procs[1 := FirstSpace(elf)], FirstMemory(elf));
    ViewsAt(Runs.Boot(), 1);
    ViewsAt(sys, 1);
    if a < STACK_LOW {
      TextInImage(map[], elf, a);
    } else {
      StackInImage(elf, a);
    }
    ExecProtections(NEW, NewMemory(), elf, a);
    MayReadProt(FirstSpace(elf).areas, a);
  }

  lemma StackInImage(elf: Elf, a: int)
    requires STACK_LOW <= a < STACK_HIGH
    ensures a in ExecFlat(map[], elf)
  {
  }

  lemma MayReadProt(areas: seq<Area>, a: int)
    requires ProtAt(areas, a) in {RONLY, RW}
    ensures MayRead(areas, a)
  {
    InSomeArea(areas, a);
  }

  lemma {:induction false} InSomeArea(areas: seq<Area>, a: int)
    requires ProtAt(areas, a) != 0
    ensures InAnArea(areas, a)
    decreases areas
  {
    if Covers(areas[0], a) {
    } else {
      InSomeArea(areas[1..], a);
      var i :| 0 <= i < |areas| - 1 && Covers(areas[1..][i], a);
      assert Covers(areas[i + 1], a);
    }
  }

  /** The program and its pipeline as context_switch starts a process that has not run yet. */
  ghost function FirstState(): S.Isa {
    PipelineProof.Initial(P.FIRST_PC, P.FirstRegisters(STACK_HIGH), LoopMemory())
  }

  ghost function FirstPipe(): P.Pipe {
    P.Reset(P.FIRST_PC, P.FirstRegisters(STACK_HIGH), LoopMemory())
  }

  lemma LoopStarts()
    ensures Looping(FirstState()) && PipelineProof.Inv(FirstPipe(), FirstState())
  {
    hide LoopMemory, PipelineProof.Inv, P.Reset;
    var mem := LoopMemory();
    forall i | 0 <= i < |G.LOOP| ensures ReadByte(mem, i) == G.LOOP[i] {
      LoopByte(i);
    }
    forall i | STACK_HIGH - 4 <= i < STACK_HIGH ensures ToWord(i) in mem {
      LoopByte(i);
    }
    PipelineProof.ResetInv(P.FIRST_PC, P.FirstRegisters(STACK_HIGH), mem);
  }

  const StartFirst := Start(1, P.FIRST_PC, P.FirstRegisters(STACK_HIGH))

  function FirstEvents(n: nat): seq<Event> {
    [Exec(1, LoopFile()), StartFirst] + Ticking(n)
  }

  /** The machine with process 1 on its core. */
  ghost function Started(): Cores {
    Cores(Sys(map[1 := FirstSpace(LoopFile())], FirstMemory(LoopFile())), map[1 := FirstPipe()])
  }

  lemma StartsUp(events: seq<Event>)
    ensures var k := Cores(Runs.Boot(), map[]); var all := [Exec(1, LoopFile()), StartFirst] + events;
      && Good(k) && Running(Started(), FirstState())
      && (EventsOK(Started(), events) ==> EventsOK(k, all) && Run(k, all) == Run(Started(), events))
  {
    hide ExecSpace, ExecOK, Isolation.Inv, P.Reset, Visible, Looping, PipelineProof.Inv, Loadable, Available,
         FirstState;
    var k := Cores(Runs.Boot(), map[]);
    Runs.BootInv();
    LoopLoads();
    FirstExecFits(LoopFile(), 4);
    FirstPages(LoopFile(), 4);
    StepIsPrivate(k, Exec(1, LoopFile()));
    var k1 := Step(k, Exec(1, LoopFile()));
    StepIsPrivate(k1, StartFirst);
    var all := [Exec(1, LoopFile()), StartFirst] + events;
    assert Step(k1, StartFirst) == Started();
    assert all[0] == Exec(1, LoopFile()) && all[1..][0] == StartFirst && all[1..][1..] == events;
    LoopStarts();
  }

  /** From power-on: process 1 executes its file, is put on a core as context_switch does, and is clocked as often as
      one likes. No event meets a broken guard, and its pipeline runs over the page table as it does alone on private
      memory, and does not stop. */
  lemma FirstProgram(n: nat)
    ensures var k := Cores(Runs.Boot(), map[]);
      && Good(k) && EventsOK(k, FirstEvents(n)) && 1 in Run(k, FirstEvents(n)).pipes
      && Run(k, FirstEvents(n)).pipes[1] == P.Run(FirstPipe(), n)
      && !IsStop(Run(k, FirstEvents(n)).pipes[1].stat)
  {
    hide LoopMemory, FirstPipe, P.Run, Run, EventsOK, Running, FirstState, FirstSpace, FirstMemory, Good, StaysOn;
    var k := Started();
    StartsUp(Ticking(n));
    var b := LoopTicks(k, FirstState(), n);
    OnCore(Run(k, Ticking(n)), b);
    CoresAreIndependent(k, Ticking(n), 1) by { RunningIsGood(k, FirstState()); }
  }

  lemma RunningIsGood(k: Cores, a: S.Isa)
    requires Running(k, a)
    ensures Good(k) && 1 in k.pipes
  {
    hide Good, Looping, PipelineProof.Inv, Available, FirstSpace;
  }

  /** What it retires, for ever, is what the sequential machine executes, and that is a quarter instruction a cycle or
      more. */
  lemma FirstProgramRetires(n: nat)
    ensures var trace := PipelineProof.Trace(FirstPipe(), n);
      4 * |trace| >= n - 4 && trace == S.Trace(FirstState(), |trace|)
  {
    hide LoopMemory, P.Reset, P.Run, Run, PipelineProof.Initial, PipelineProof.Trace, S.Trace, Looping;
    LoopStarts();
    LoopingIsSafe(FirstState());
    PipelineProof.PipelineRefinesSequential(P.FIRST_PC, P.FirstRegisters(STACK_HIGH), LoopMemory(), n);
    PipelineProof.LinearProgress(P.FIRST_PC, P.FirstRegisters(STACK_HIGH), LoopMemory(), n);
    NotStopped(n);
  }

  lemma NotStopped(n: nat)
    ensures !IsStop(P.Run(FirstPipe(), n).stat)
  {
    hide FirstPipe, P.Run, Run, EventsOK, Good, FirstEvents;
    FirstProgram(n);
  }
}
