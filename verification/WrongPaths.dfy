/** Fetches down a wrong path. The flag they set when they go out of range is never cleared, so the next instruction on
    the right path is a fault. This says exactly when that makes a difference, for one cycle and for whole programs. */
module WrongPaths {
  import opened Words
  import opened Y86
  import S = Sequential
  import opened Pipeline
  import opened PipelineProof
  import opened PipelineLimits

  /** The instructions in M and E complete, and everything in flight meets the other guards. */
  predicate Steady(p: Pipe, a: Isa) {
    && Inv(p, a) && a.stat == SAOK && AfterM(p, a).stat == SAOK && AfterE(p, a).stat == SAOK
    && PlainAhead(p, a) && !BehindLeave(p)
  }

  // ---------- one cycle ----------

  /** When F is redirected, the flag says whether the fetches down the wrong path went out of range. */
  lemma FlagTellsWrongPath(p: Pipe, a: Isa)
    requires Steady(p, a) && Redirects(p)
    ensures var src := Source(p, a);
      && src.stat == SAOK && S.Step(src) == AfterE(p, a)
      && (p.f.imemError <==> !S.WrongPathOK(src.mem, src))
  {
    hide S.Execute, S.Step, FetchWith, MemorySlot, PlainAhead, S.WrongPathOK;
  }

  /** F holds the fault, nothing is in E and D, and what is in M completes. */
  predicate FaultInF(p: Pipe) {
    && Calm(p) && p.m.icode != IRET
    && Empty(p.e.stat, p.e.icode) && p.e.dstM == RNONE
    && EmptyD(p.d)
    && p.f.imemError && p.f.icode == INOP && p.f.stat == SADR
  }

  lemma RedirectEmpties(p: Pipe, a: Isa)
    requires Steady(p, a) && Redirects(p)
    ensures var p' := Cycle(p);
      && Empty(p'.e.stat, p'.e.icode) && p'.e.dstM == RNONE && EmptyD(p'.d)
  {
    hide S.Execute, S.Step, FetchWith, MemorySlot, PlainAhead, S.WrongPathOK, StageW, StageM, StageE, StageD, StageF,
         Cycle;
    Frames(p);
    BackEnd(p, a);
    var c := PipeLogic(p);
    assert c.dBubble && !c.dStall;
    BubbleD(c, AfterStageE(p));
    if Mispredicted(p.e) {
      BubbleE(c, AfterStageM(p));
    } else {
      EmptyEntersE(c, AfterStageM(p));
    }
  }

  /** The cycle that redirects F with the flag set fetches a fault. */
  lemma FaultFetched(p: Pipe, a: Isa)
    requires Steady(p, a) && Redirects(p) && p.f.imemError
    ensures FaultInF(Cycle(p)) && MemorySlot(Cycle(p).m, AfterM(p, a)) && AfterM(Cycle(p), AfterM(p, a)) == AfterE(p, a)
  {
    hide S.Execute, S.Step, FetchWith, MemorySlot, PlainAhead, S.WrongPathOK, StageW, StageM, StageE, StageD, StageF,
         Cycle;
    BackEnd(p, a);
    Frames(p);
    StickyStep(p);
    RedirectEmpties(p, a);
  }

  /** At an address in range that is not what the invariant asks for. */
  lemma FaultBreaksInv(p: Pipe, a: Isa)
    requires FaultInF(p) && a.stat == SAOK && AfterM(p, a).stat == SAOK && InRange(AfterM(p, a).pc)
    ensures !Inv(p, a)
  {
    hide S.Execute, S.Step, FetchWith, MemorySlot;
  }

  /** Where nothing in flight stops or breaks another guard, a cycle keeps the pipeline in step with the sequential
      machine if and only if it does not come back from a wrong path that went out of range to an address in range. */
  lemma RedirectExact(p: Pipe, a: Isa)
    requires Steady(p, a)
    ensures Inv(Cycle(p), AfterM(p, a)) <==> (Redirects(p) && InRange(AfterE(p, a).pc) ==> !p.f.imemError)
  {
    hide Inv, S.Execute, S.Step, Cycle, FetchWith, PlainAhead, S.WrongPathOK;
    if Redirects(p) {
      FlagTellsWrongPath(p, a);
    }
    if Redirects(p) && InRange(AfterE(p, a).pc) && p.f.imemError {
      FaultFetched(p, a);
      FaultBreaksInv(Cycle(p), AfterM(p, a));
    } else {
      RunningCycle(p, a);
    }
  }

  // ---------- the fault retires ----------

  /** The instruction in M shows in W what the sequential machine computes. */
  lemma SlotRetires(p: Pipe, a: Isa)
    requires Calm(p) && MemorySlot(p.m, a) && !Empty(p.m.stat, p.m.icode)
    ensures RetiredOf(Cycle(p).w) == S.Retire(a) && !Empty(Cycle(p).w.stat, Cycle(p).w.icode)
  {
    Frames(p);
    EffectLoads(a);
    EffectStat(a);
    hide S.Execute, StageM, StageE, StageD, StageF, SetReg, PipeLogic, Cycle;
  }

  /** Behind what is in M the fault takes its turn and stops the core. */
  lemma FaultRetires(p: Pipe, a: Isa, n: nat)
    requires FaultInF(p) && MemorySlot(p.m, a) && n >= 4
    ensures var t := Trace(p, n); var rest := if Empty(p.m.stat, p.m.icode) then [] else [S.Retire(a)];
      |t| == |rest| + 1 && t[..|rest|] == rest && t[|rest|].icode == INOP && t[|rest|].stat == SADR
  {
    hide Cycle, Total, S.Execute, S.AccessMem;
    var p1, p2 := Cycle(p), Cycle(Cycle(p));
    var p3, p4 := Cycle(p2), Cycle(Cycle(p2));
    BackFlow(p);
    EnterD(p);
    EnterE(p);
    if !Empty(p.m.stat, p.m.icode) {
      SlotRetires(p, a);
    }
    BackFlow(p1);
    EnterE(p1);
    BackFlow(p2);
    StopFlow(p3);
    TraceStep(p, n);
    TraceStep(p1, n - 1);
    TraceStep(p2, n - 2);
    TraceStep(p3, n - 3);
    assert Trace(p4, n - 4) == [];
  }

  /** A stopping instruction in M moves to W. */
  lemma StopFlow(p: Pipe)
    requires !p.suspend && !IsStop(p.w.stat)
    ensures Cycle(p).w.stat == p.m.mStat && Cycle(p).w.icode == p.m.icode
  {
    Frames(p);
    hide S.AccessMem, StageM, StageE, StageD, StageF, SetReg, PipeLogic;
  }

  /** An instruction fetched in range is no such fault. */
  lemma NoFaultInRange(a: Isa)
    requires InRange(a.pc)
    ensures !(S.Retire(a).icode == INOP && S.Retire(a).stat == SADR)
  {
    hide ReadByte, ReadBytes, AluCalc, AluCC, GetCnd, ReadWord, WriteWord;
  }

  /** Whatever the number of cycles, what retires is what the sequential machine executes first. */
  ghost predicate Agrees(p: Pipe, a: Isa) {
    forall n: nat :: Trace(p, n) == S.Trace(a, |Trace(p, n)|)
  }

  lemma CycleTrace(p: Pipe, a: Isa, n: nat)
    requires Inv(p, a) && a.stat == SAOK
    ensures Trace(p, n + 1) == (if Empty(p.m.stat, p.m.icode) then [] else [S.Retire(a)]) + Trace(Cycle(p), n)
  {
    hide S.Execute, Cycle, MemorySlot, BehindM;
    BackEnd(p, a);
  }

  /** Back on the right path with the flag set and an address in range, the pipeline retires what is left in E and M and
      then a fault, where the sequential machine goes on. */
  lemma WrongPathFaults(p: Pipe, a: Isa, n: nat)
    requires Steady(p, a) && Redirects(p) && InRange(AfterE(p, a).pc) && p.f.imemError && n >= 5
    ensures var t := Trace(p, n); var k := |t| - 1;
      && k >= 0 && t[..k] == S.Trace(a, k) && S.Run(a, k) == AfterE(p, a)
      && t[k].icode == INOP && t[k].stat == SADR && t[k] != S.Retire(AfterE(p, a))
  {
    hide Inv, S.Execute, S.Step, Cycle, FetchWith, PlainAhead, S.WrongPathOK, MemorySlot;
    FaultFetched(p, a);
    var a1 := AfterM(p, a);
    FaultRetires(Cycle(p), a1, n - 1);
    CycleTrace(p, a, n - 1);
    NoFaultInRange(AfterE(p, a));
    assert S.Trace(a1, 0) == [] && S.Run(a1, 0) == a1;
  }

  // ---------- whole programs ----------

  lemma AgreesStep(p: Pipe, a: Isa)
    requires Inv(p, a) && a.stat == SAOK
    ensures Agrees(p, a) <==> Agrees(Cycle(p), AfterM(p, a))
  {
    hide Inv, Trace, S.Execute, S.Step, Cycle;
    var p', a' := Cycle(p), AfterM(p, a);
    var first := if Empty(p.m.stat, p.m.icode) then [] else [S.Retire(a)];
    forall n: nat
      ensures Trace(p, n + 1) == S.Trace(a, |Trace(p, n + 1)|) <==> Trace(p', n) == S.Trace(a', |Trace(p', n)|)
    {
      CycleTrace(p, a, n);
      TraceAfter(p, a, |Trace(p', n)|);
      SamePrefix(first, Trace(p', n), S.Trace(a', |Trace(p', n)|));
    }
    assert Trace(p, 0) == S.Trace(a, 0) by { EmptyTraces(p, a); }
    if Agrees(p', a') {
      forall n: nat ensures Trace(p, n) == S.Trace(a, |Trace(p, n)|) {
        assert n > 0 ==> Trace(p', n - 1) == S.Trace(a', |Trace(p', n - 1)|);
      }
    }
  }

  lemma SamePrefix<T>(x: seq<T>, y: seq<T>, z: seq<T>)
    ensures x + y == x + z <==> y == z
  {
    assert y == (x + y)[|x|..] && z == (x + z)[|x|..];
  }

  lemma TraceAfter(p: Pipe, a: Isa, k: nat)
    requires a.stat == SAOK
    ensures var first := if Empty(p.m.stat, p.m.icode) then [] else [S.Retire(a)];
      S.Trace(a, |first| + k) == first + S.Trace(AfterM(p, a), k)
  {
    hide S.Execute, S.Step;
  }

  lemma EmptyTraces(p: Pipe, a: Isa)
    ensures Trace(p, 0) == [] && S.Trace(a, 0) == []
  {
  }

  lemma {:induction false} StoppedBefore(a: Isa, d: nat)
    requires S.Run(a, d).stat == SAOK
    ensures a.stat == SAOK
    decreases d
  {
    hide S.Execute;
    if d > 0 {
      StoppedBefore(S.Step(a), d - 1);
    }
  }

  lemma {:induction false} RunStep(a: Isa, d: nat)
    ensures S.Run(a, d + 1) == S.Step(S.Run(a, d))
    decreases d
  {
    hide S.Step;
    if d > 0 {
      RunStep(S.Step(a), d - 1);
    }
    assert d == 0 ==> S.Run(a, 1) == S.Run(S.Step(a), 0);
  }

  lemma TameFromStep(a: Isa)
    requires S.TameFrom(a)
    ensures a.stat == SAOK ==> S.Tame(a)
    ensures S.TameFrom(S.Step(a))
  {
    hide S.Tame, S.Step;
    assert S.Run(a, 0) == a;
    forall k: nat | S.Run(S.Step(a), k).stat == SAOK ensures S.Tame(S.Run(S.Step(a), k)) {
      assert S.Run(a, k + 1) == S.Run(S.Step(a), k);
    }
  }

  lemma TameFlight(p: Pipe, a: Isa)
    requires S.TameFrom(a)
    ensures S.TameFrom(AfterM(p, a)) && PlainAhead(p, a)
    ensures AfterM(p, a).stat == SAOK ==> S.LeaveOK(AfterM(p, a))
  {
    hide S.Plain, S.LeaveOK, S.Step, S.TameFrom;
    TameFromStep(a);
    TameFromStep(AfterM(p, a));
    TameFromStep(AfterE(p, a));
    TameFromStep(AfterD(p, a));
  }

  /** The instruction that breaks the guard is not past the point where F comes back from its wrong path. */
  predicate NotPast(p: Pipe, d: nat) {
    Empty(p.m.stat, p.m.icode) || d > 0 || (p.m.icode == IRET && Empty(p.e.stat, p.e.icode))
  }

  /** An instruction with a harmful wrong path is a `ret`, or a branch that redirects F from E. */
  lemma HarmfulInE(p: Pipe, a: Isa)
    requires Inv(p, a) && a.stat == SAOK && AfterM(p, a).stat == SAOK && AfterE(p, a).stat == SAOK
    requires !Empty(p.e.stat, p.e.icode) && !S.PathOK(AfterM(p, a))
    ensures p.e.icode == IRET || (Redirects(p) && Source(p, a) == AfterM(p, a))
  {
    EffectPC(AfterM(p, a));
    hide S.Execute, S.Step, FetchWith, MemorySlot;
  }

  /** Behind a `ret` that moves to M, E becomes empty. */
  lemma ReturnMoves(p: Pipe, a: Isa)
    requires Steady(p, a) && p.e.icode == IRET
    ensures Empty(Cycle(p).e.stat, Cycle(p).e.icode)
  {
    hide S.Execute, S.Step, FetchWith, MemorySlot, PlainAhead, S.WrongPathOK, StageW, StageM, StageE, StageD, StageF,
         Cycle;
    Frames(p);
    EmptyEntersE(PipeLogic(p), AfterStageM(p));
  }

  /** What stands before the harmful instruction completes. */
  lemma OnTheWay(p: Pipe, a: Isa, d: nat)
    requires Inv(p, a) && S.Run(a, d).stat == SAOK && !S.PathOK(S.Run(a, d)) && NotPast(p, d)
    ensures AfterM(p, a).stat == SAOK && AfterE(p, a).stat == SAOK
  {
    hide S.Execute, S.Step, FetchWith, MemorySlot;
    RunStep(a, d);
    StoppedBefore(AfterM(p, a), if Empty(p.m.stat, p.m.icode) then d + 1 else d);
    StoppedBefore(a, d);
    if Empty(p.e.stat, p.e.icode) {
    } else if Empty(p.m.stat, p.m.icode) {
      StoppedBefore(S.Step(a), d);
    } else if d > 0 {
      StoppedBefore(S.Step(S.Step(a)), d - 1);
    }
  }

  lemma HarmfulNow(p: Pipe, a: Isa)
    requires Steady(p, a) && Redirects(p) && !S.PathOK(Source(p, a))
    ensures !Agrees(p, a)
  {
    hide Inv, S.Execute, S.Step, FetchWith, PlainAhead, S.WrongPathOK, Trace, S.Trace;
    FlagTellsWrongPath(p, a);
    WrongPathFaults(p, a, 5);
    var t := Trace(p, 5);
    TraceSplit(a, |t| - 1);
    assert t[|t| - 1] != S.Trace(a, |t|)[|t| - 1];
  }

  lemma {:induction false} TraceSplit(a: Isa, k: nat)
    requires S.Run(a, k).stat == SAOK
    ensures S.Trace(a, k + 1) == S.Trace(a, k) + [S.Retire(S.Run(a, k))]
    ensures |S.Trace(a, k)| == k
    decreases k
  {
    hide S.Step, S.Execute;
    StoppedBefore(a, k);
    if k > 0 {
      TraceSplit(S.Step(a), k - 1);
    } else {
      assert S.Trace(a, 1) == [S.Retire(a)] + S.Trace(S.Step(a), 0);
    }
  }

  lemma StillAhead(p: Pipe, a: Isa, d': nat)
    requires Steady(p, a) && !S.PathOK(S.Run(AfterM(p, a), d'))
    requires Redirects(p) ==> S.PathOK(Source(p, a))
    ensures NotPast(Cycle(p), d')
  {
    hide S.Execute, S.Step, FetchWith, MemorySlot, BehindE, Cycle, S.PathOK, PlainAhead;
    BackEnd(p, a);
    if d' == 0 && !Empty(p.e.stat, p.e.icode) {
      HarmfulInE(p, a);
      ReturnMoves(p, a);
    }
  }

  /** A run on which the guard is broken departs from the sequential machine. */
  lemma {:induction false} HarmShows(p: Pipe, a: Isa, d: nat)
    requires Inv(p, a) && S.TameFrom(a) && S.Run(a, d).stat == SAOK && !S.PathOK(S.Run(a, d)) && NotPast(p, d)
    ensures !Agrees(p, a)
    decreases d, Distance(p)
  {
    hide S.Execute, S.Step, Cycle, FetchWith, MemorySlot, BehindE, S.TameFrom, S.Tame, S.PathOK, Agrees;
    StoppedBefore(a, d);
    TameFlight(p, a);
    OnTheWay(p, a, d);
    NotBehindLeave(p, a);
    if Redirects(p) && !S.PathOK(Source(p, a)) {
      HarmfulNow(p, a);
    } else {
      RunningCycle(p, a);
      AgreesStep(p, a);
      BackEnd(p, a);
      DistanceFalls(p, a);
      var d' := if Empty(p.m.stat, p.m.icode) then d else d - 1;
      StillAhead(p, a, d');
      HarmShows(Cycle(p), AfterM(p, a), d');
    }
  }

  /** Whole programs that meet the other guards: the pipeline retires, for ever, what the sequential machine executes
      if and only if no instruction leaves a wrong path that went out of range for an address in range. */
  lemma PipelineExact(pc: int, reg: Registers, mem: Memory)
    requires |reg| == 8 && S.TameFrom(Initial(pc, reg, mem))
    ensures Agrees(Reset(pc, reg, mem), Initial(pc, reg, mem)) <==> S.PathOKFrom(Initial(pc, reg, mem))
  {
    hide S.Execute, FetchAt, Cycle, MemorySlot, BehindM, S.Tame, S.PathOK, S.Run, Trace, S.Trace;
    ResetInv(pc, reg, mem);
    var p, a := Reset(pc, reg, mem), Initial(pc, reg, mem);
    if S.PathOKFrom(a) {
      forall n: nat ensures Trace(p, n) == S.Trace(a, |Trace(p, n)|) {
        RunRefines(p, a, n);
      }
    } else {
      var d: nat :| S.Run(a, d).stat == SAOK && !S.PathOK(S.Run(a, d));
      HarmShows(p, a, d);
    }
  }

  // ---------- a program ----------

  /** jne -1; nop; halt. A core starts with ZF set, so the branch is not taken. */
  ghost function BranchProgram(): Memory {
    Loaded([0x74, 0xFF, 0xFF, 0xFF, 0xFF, 0x10, 0x00])
  }

  lemma BranchProgramCode()
    ensures var i, j, k := FetchAt(BranchProgram(), 0), FetchAt(BranchProgram(), 5), FetchAt(BranchProgram(), 6);
      && i.icode == IJXX && i.ifun == 4 && i.stat == SAOK && i.valP == 5 && i.valC == -1
      && j.icode == INOP && j.stat == SAOK && j.valP == 6
      && k.icode == IHALT && k.stat == SHLT
  {
    var mem := BranchProgram();
    assert ReadByte(mem, 0) == 0x74 && ReadByte(mem, 5) == 0x10 && ReadByte(mem, 6) == 0x00;
    assert ReadByte(mem, 1) == 0xFF && ReadByte(mem, 2) == 0xFF && ReadByte(mem, 3) == 0xFF && ReadByte(mem, 4) == 0xFF;
    hide ReadByte;
    assert ReadBytes(mem, 5, 0) == 0 && ReadBytes(mem, 4, 1) == 0xFF && ReadBytes(mem, 3, 2) == 0xFFFF;
    assert ReadBytes(mem, 2, 3) == 0xFFFFFF && ReadBytes(mem, 1, 4) == 0xFFFF_FFFF;
    hide ReadBytes;
  }

  /** Instructions that only move the PC. */
  lemma QuietStep(a: Isa)
    requires a.stat == SAOK && FetchAt(a.mem, a.pc).icode in {IJXX, INOP, IHALT}
    ensures var b := S.Step(a); var ins := FetchAt(a.mem, a.pc);
      && b.mem == a.mem && b.cc == a.cc && b.stat == ins.stat && S.Retire(a).icode == ins.icode
      && b.pc == (if ins.icode == IJXX && GetCnd(ins.ifun, a.cc) then ins.valC else ins.valP)
  {
    hide FetchAt, GetCnd, AluCalc, AluCC;
  }

  lemma QuietIsTame(a: Isa)
    requires a.stat == SAOK && FetchAt(a.mem, a.pc).icode in {IJXX, INOP, IHALT}
    requires S.Step(a).stat == SAOK ==> S.Step(S.Step(a)).mem == a.mem
    ensures S.Tame(a)
  {
    QuietStep(a);
    hide FetchAt, S.Step, S.WrongPathOK;
  }

  /** The wrong path is never executed, but its fetch faults: the pipeline does not execute nop and halt, as the
      sequential machine does. */
  lemma BranchProgramDiverges(reg: Registers)
    requires |reg| == 8
    ensures var p, a := Reset(0, reg, BranchProgram()), Initial(0, reg, BranchProgram());
      && !Agrees(p, a) && S.TameFrom(a)
      && |S.Trace(a, 3)| == 3 && S.Trace(a, 3)[1].icode == INOP && S.Trace(a, 3)[2].icode == IHALT
  {
    hide BranchProgram, FetchAt, S.Step, S.Execute, Agrees, S.Tame, Reset;
    var a := Initial(0, reg, BranchProgram());
    var b, c := S.Step(a), S.Step(S.Step(a));
    BranchProgramCode();
    QuietStep(a);
    QuietStep(b);
    QuietStep(c);
    QuietIsTame(a);
    QuietIsTame(b);
    QuietIsTame(c);
    ThreeSteps(a);
    forall k: nat | S.Run(a, k).stat == SAOK ensures S.Tame(S.Run(a, k)) {
      ThreeStates(a, k);
    }
    assert S.Run(a, 0) == a && !S.PathOK(a);
    PipelineExact(0, reg, BranchProgram());
  }

  /** A machine that stops with its third step. */
  lemma ThreeStates(a: Isa, k: nat)
    requires S.Step(S.Step(S.Step(a))).stat != SAOK && S.Run(a, k).stat == SAOK
    ensures S.Run(a, k) in {a, S.Step(a), S.Step(S.Step(a))}
  {
    hide S.Step;
    var d := S.Step(S.Step(S.Step(a)));
    if k >= 3 {
      assert S.Run(a, k) == S.Run(S.Step(a), k - 1) == S.Run(S.Step(S.Step(a)), k - 2) == S.Run(d, k - 3);
      StoppedBefore(d, k - 3);
    }
  }
}
