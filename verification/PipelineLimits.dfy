/** Why the pipeline asks for its guard on `leave`: where it is broken it runs another program. */
module PipelineLimits {
  import opened Words
  import opened Y86
  import S = Sequential
  import opened Pipeline
  import opened PipelineProof
  import WordAccess

  // ---------- the hazard behind leave ----------

  /** An instruction waits in D for the load in E; the load and everything older completes, and so does the waiting
      instruction. */
  predicate Waiting(p: Pipe, a: Isa) {
    && Inv(p, a) && a.stat == SAOK && AfterM(p, a).stat == SAOK && AfterE(p, a).stat == SAOK
    && LoadUse(p.e, p.d) && !Empty(p.d.stat, p.d.icode) && p.m.icode != IRET
    && S.Plain(AfterM(p, a)) && S.Plain(AfterE(p, a))
    && S.Step(AfterE(p, a)).stat == SAOK
  }

  lemma OtherLoadsKeepInv(p: Pipe, a: Isa)
    requires Waiting(p, a) && p.e.icode != ILEAVE
    ensures Inv(Cycle(p), AfterM(p, a))
  {
    hide FetchWith, S.Execute, S.Step, S.Plain, MemorySlot, BehindM, Cycle, PipeLogic;
    BackEnd(p, a);
    Frames(p);
    FetchFields(PipeLogic(p), AfterStageD(p));
    LoadUseCase(p, a);
  }

  /** The instruction that waits for a `leave` reads %ebp, so it is no jump, and the next one lies behind it. */
  lemma WaitsForLeave(p: Pipe, a: Isa)
    requires Waiting(p, a) && p.e.icode == ILEAVE
    ensures var a2 := AfterE(p, a);
      && p.d.icode !in {INOP, IJXX, IRET, ICALL} && S.Step(a2).pc == p.d.valP
      && p.d.icode == FetchAt(a2.mem, a2.pc).icode
  {
    EffectPC(AfterE(p, a));
    EffectLoads(AfterM(p, a));
    EffectStat(AfterM(p, a));
    hide S.Execute, FetchWith, S.Plain, MemorySlot, BehindD;
  }

  lemma NextIsBehind(mem: Memory, pc: int)
    ensures FetchAt(mem, pc).valP > pc
  {
    hide ReadByte, ReadBytes;
  }

  /** It enters E although it has to wait, and stays in D as well. */
  lemma LeaveBreaksInv(p: Pipe, a: Isa)
    requires Waiting(p, a) && p.e.icode == ILEAVE
    ensures !Inv(Cycle(p), AfterM(p, a))
  {
    hide FetchWith, S.Execute, S.Plain, MemorySlot, BehindD, FetchAt;
    var p' := Cycle(p);
    var a2 := AfterE(p, a);
    var a3 := S.Step(a2);
    BackEnd(p, a);
    WaitsForLeave(p, a);
    NextIsBehind(a3.mem, a3.pc);
    LeaveHazard(p);
    hide Cycle, S.Step;
    assert AfterE(p', AfterM(p, a)) == a3;
  }

  /** In a load/use hazard whose waiting instruction completes, the pipeline stays in step with the sequential machine
      if and only if the load is not `leave`. */
  lemma LeaveHazardExact(p: Pipe, a: Isa)
    requires Waiting(p, a)
    ensures Inv(Cycle(p), AfterM(p, a)) <==> p.e.icode != ILEAVE
  {
    hide Waiting, Inv, Cycle;
    if p.e.icode == ILEAVE {
      LeaveBreaksInv(p, a);
    } else {
      OtherLoadsKeepInv(p, a);
    }
  }

  // ---------- two programs ----------

  /** Memory that is accessible everywhere. */
  ghost predicate Total(mem: Memory) {
    forall a :: 0 <= a < TWO_32 ==> a in mem
  }

  /** A program at 0, and zeros everywhere else. */
  ghost function Loaded(code: seq<Byte>): (mem: Memory)
    ensures Total(mem)
    ensures forall i :: 0 <= i < |code| && i < TWO_32 ==> ReadByte(mem, i) == code[i]
  {
    map a: int | 0 <= a < TWO_32 && InWord(a) :: ByteOr0(code, a)
  }

  predicate InWord(a: int) {
    0 <= a < TWO_32
  }

  function ByteOr0(code: seq<Byte>, a: int): Byte {
    if 0 <= a < |code| then code[a] else 0
  }

  /** Nothing has stopped, faulted or asked for a suspension. */
  predicate Calm(p: Pipe) {
    && !p.suspend && !IsStop(p.m.mStat) && !IsStop(p.w.stat) && !p.m.err
  }

  predicate Accesses(icode: int) {
    MemReads(icode) || MemWrites(icode)
  }

  /** The back end passes instructions on. */
  lemma BackFlow(p: Pipe)
    requires Calm(p) && (Accesses(p.e.icode) ==> Total(p.mem))
    ensures var p' := Cycle(p);
      && !p'.suspend && !p'.m.err && (Total(p.mem) ==> Total(p'.mem))
      && p'.w.stat == p.m.mStat && p'.w.icode == p.m.icode
      && p'.m.stat == p'.m.mStat == p.e.stat && p'.m.icode == p.e.icode && p'.m.valA == p.e.valA && p'.m.cnd == p.e.cnd
      && (!MemWrites(p.e.icode) ==> p'.mem == p.mem)
  {
    Frames(p);
    if Total(p.mem) {
      AccessTotal(p.e.icode, p.e.valE, p.e.valA, p.mem);
    }
    hide S.AccessMem, StageE, StageD, StageF, SetReg, LoadUse, RetInFlight, Mispredicted;
  }

  lemma AccessTotal(icode: int, valE: int, valA: int, mem: Memory)
    requires Total(mem)
    ensures var x := S.AccessMem(icode, valE, valA, mem); !x.err && Total(x.mem) && (!MemWrites(icode) ==> x.mem == mem)
  {
    hide ReadBytes;
    WriteTotal(mem, MemAddr(icode, valE, valA), valA, 4);
    hide WriteBytes;
  }

  lemma {:induction false} WriteTotal(mem: Memory, addr: int, val: int, n: nat)
    requires Total(mem)
    ensures !WriteBytes(mem, addr, val, n).err && Total(WriteBytes(mem, addr, val, n).mem)
    decreases n
  {
    if n > 0 {
      WriteTotal(mem[ToWord(addr) := val % 256], addr + 1, val / 256, n - 1);
    }
  }

  /** The instruction in D enters E, unless E is bubbled. */
  lemma EnterE(p: Pipe)
    requires Calm(p) && !Mispredicted(p.e) && (LoadUse(p.e, p.d) ==> p.e.icode == ILEAVE)
    ensures var p' := Cycle(p);
      && p'.e.stat == p.d.stat && p'.e.icode == p.d.icode && p'.e.dstM == p.d.dstM && p'.e.valA == p.d.valA
      && (p.d.icode == IJXX ==> p'.cc == p.cc && p'.e.cnd == GetCnd(p.d.ifun, p.cc))
  {
    Frames(p);
    hide S.AccessMem, StageW, StageM, StageD, StageF, AluCalc, AluCC, GetCnd, RetInFlight, IsStop;
  }

  /** The instruction in F enters D. */
  lemma EnterD(p: Pipe)
    requires Calm(p) && !Mispredicted(p.e) && !LoadUse(p.e, p.d) && !RetInFlight(p.d, p.e, p.m)
    ensures var d := Cycle(p).d; var f := p.f;
      && d.stat == f.stat && d.icode == f.icode && d.ifun == f.ifun && d.valP == f.valP
      && d.srcA == SrcA(f.icode, f.rA) && d.srcB == SrcB(f.icode, f.rB) && d.dstM == DstM(f.icode, f.rA)
      && (f.icode == IJXX ==> d.valA == f.valP)
  {
    Frames(p);
    hide S.AccessMem, StageW, StageM, StageE, StageF, Forward, GetReg;
  }

  /** The next fetch is at the predicted PC. */
  lemma EnterF(p: Pipe)
    requires Calm(p) && !LoadUse(p.e, p.d) && !RetInFlight(p.d, p.e, p.m) && p.f.stat != SSPD
    requires p.e.icode != IJXX && p.m.icode != IRET && !p.f.imemError && !MemWrites(p.e.icode) && Total(p.mem)
    ensures var f := Cycle(p).f; var pc := p.f.nextPC; var ins := FetchAt(p.mem, pc);
      && f.stat == ins.stat && f.icode == ins.icode && f.ifun == ins.ifun && f.valP == ins.valP
      && f.nextPC == PredPC(ins) && f.stat != SSPD && f.imemError == !InRange(pc)
      && (NeedRegids(ins.icode) ==> f.rA == ins.rA && f.rB == ins.rB)
  {
    BackFlow(p);
    Frames(p);
    FetchRegs(p.mem, p.f.nextPC, !InRange(p.f.nextPC));
    hide StageW, StageM, StageE, StageD, FetchWith;
  }

  lemma TraceStep(p: Pipe, n: nat)
    requires n > 0 && !IsStop(p.w.stat)
    ensures var p' := Cycle(p);
      Trace(p, n) == (if Empty(p'.w.stat, p'.w.icode) then [] else [RetiredOf(p'.w)]) + Trace(p', n - 1)
  {
    hide Cycle;
  }

  /** leave; pushl %ebp; halt */
  ghost function LeaveProgram(): Memory {
    Loaded([0xD0, 0xA0, 0x5F, 0x00])
  }

  lemma LeaveProgramCode()
    ensures Total(LeaveProgram())
    ensures var i, j, k := FetchAt(LeaveProgram(), 0), FetchAt(LeaveProgram(), 1), FetchAt(LeaveProgram(), 3);
      && i.icode == ILEAVE && i.stat == SAOK && PredPC(i) == i.valP == 1
      && j.icode == IPUSHL && j.stat == SAOK && j.rA == REBP && PredPC(j) == j.valP == 3
      && k.icode == IHALT
  {
    var mem := LeaveProgram();
    assert ReadByte(mem, 0) == 0xD0 && ReadByte(mem, 1) == 0xA0 && ReadByte(mem, 2) == 0x5F && ReadByte(mem, 3) == 0x00;
    hide ReadBytes, ReadByte;
  }

  predicate NothingYet(p: Pipe) {
    Empty(p.m.stat, p.m.icode) && Empty(p.e.stat, p.e.icode)
  }

  /** The pipeline on that program up to the cycle in which leave is in E and pushl waits in D. */
  lemma LeaveEntersE(reg: Registers)
    requires |reg| == 8
    ensures var p := Run(Reset(0, reg, LeaveProgram()), 3);
      && Calm(p) && Total(p.mem) && LoadUse(p.e, p.d)
      && p.e.icode == ILEAVE && p.e.stat == SAOK && p.d.icode == IPUSHL && p.d.stat == SAOK
      && Empty(p.m.stat, p.m.icode) && p.m.mStat == p.m.stat
    ensures var p0 := Reset(0, reg, LeaveProgram());
      && Run(p0, 3) == Cycle(Cycle(Cycle(p0)))
      && NothingYet(p0) && NothingYet(Cycle(p0)) && NothingYet(Cycle(Cycle(p0)))
      && Empty(Cycle(p0).d.stat, Cycle(p0).d.icode)
    ensures forall n: nat ::
      Trace(Reset(0, reg, LeaveProgram()), 3 + n) == Trace(Run(Reset(0, reg, LeaveProgram()), 3), n)
  {
    hide Cycle, FetchAt, LeaveProgram, Total, S.AccessMem;
    var p0 := Reset(0, reg, LeaveProgram());
    LeaveProgramCode();
    var p1, p2, p3 := Cycle(p0), Cycle(Cycle(p0)), Cycle(Cycle(Cycle(p0)));
    BackFlow(p0);
    EnterE(p0);
    EnterD(p0);
    EnterF(p0);
    BackFlow(p1);
    EnterE(p1);
    EnterD(p1);
    EnterF(p1);
    BackFlow(p2);
    EnterE(p2);
    EnterD(p2);
    assert Run(p0, 3) == p3 by { RunThree(p0); }
    forall n: nat ensures Trace(p0, 3 + n) == Trace(p3, n) {
      TraceStep(p0, 3 + n);
      TraceStep(p1, 2 + n);
      TraceStep(p2, 1 + n);
    }
  }

  lemma RunThree(p: Pipe)
    ensures Run(p, 3) == Cycle(Cycle(Cycle(p)))
  {
    hide Cycle;
    assert Run(p, 3) == Run(Cycle(p), 2) == Run(Cycle(Cycle(p)), 1) == Run(Cycle(Cycle(Cycle(p))), 0);
  }

  /** From there the waiting instruction goes through E, M and W twice. */
  lemma RetiresTwice(p: Pipe)
    requires Calm(p) && Total(p.mem) && LoadUse(p.e, p.d) && p.e.icode == ILEAVE && p.e.stat == SAOK
    requires Empty(p.m.stat, p.m.icode) && p.m.mStat == p.m.stat
    requires p.d.stat == SAOK && p.d.icode !in {IHALT, INOP, IJXX, IMRMOVL, IPOPL, ILEAVE}
    ensures var t := Trace(p, 4);
      |t| == 3 && t[0].icode == ILEAVE && t[1].icode == p.d.icode && t[2].icode == p.d.icode
  {
    hide Cycle, Total, S.AccessMem;
    var p4, p5, p6, p7 := Cycle(p), Cycle(Cycle(p)), Cycle(Cycle(Cycle(p))), Cycle(Cycle(Cycle(Cycle(p))));
    BackFlow(p);
    LeaveHazard(p);
    BackFlow(p4);
    EnterE(p4);
    BackFlow(p5);
    BackFlow(p6);
    TraceStep(p, 4);
    TraceStep(p4, 3);
    TraceStep(p5, 2);
    TraceStep(p6, 1);
    assert Trace(p7, 0) == [];
  }

  /** The sequential machine executes leave, pushl and halt, once each. */
  lemma LeaveProgramSequential(reg: Registers)
    requires |reg| == 8 && 4 <= reg[REBP] < TWO_31 - 4
    ensures var t := S.Trace(Initial(0, reg, LeaveProgram()), 3);
      |t| == 3 && t[0].icode == ILEAVE && t[1].icode == IPUSHL && t[2].icode == IHALT
    ensures !S.LeaveOK(Initial(0, reg, LeaveProgram()))
  {
    var mem := LeaveProgram();
    var a0 := Initial(0, reg, mem);
    var a1 := S.Step(a0);
    var a2 := S.Step(a1);
    LeaveProgramCode();
    hide LeaveProgram, Total, FetchAt, S.Step, S.Execute;
    LeaveStep(a0);
    PushStep(a1);
    ThreeSteps(a0);
    NotLeaveOK(a0);
  }

  /** In that cycle the pipeline is in step, and the hazard breaks it. */
  lemma LeaveProgramWaits(reg: Registers)
    requires |reg| == 8 && 4 <= reg[REBP] < TWO_31 - 4
    ensures var p, a := Run(Reset(0, reg, LeaveProgram()), 3), Initial(0, reg, LeaveProgram());
      Waiting(p, a) && p.e.icode == ILEAVE && !Inv(Cycle(p), a)
  {
    hide LeaveProgram, Total, FetchAt, S.Step, S.Execute, Cycle, S.Plain, MemorySlot, BehindM;
    var p0, a := Reset(0, reg, LeaveProgram()), Initial(0, reg, LeaveProgram());
    LeaveEntersE(reg);
    LeaveProgramPlain(reg);
    ResetInv(0, reg, LeaveProgram());
    RunningCycle(p0, a);
    RunningCycle(Cycle(p0), a);
    RunningCycle(Cycle(Cycle(p0)), a);
    LeaveHazardExact(Run(p0, 3), a);
  }

  lemma LeaveProgramPlain(reg: Registers)
    requires |reg| == 8 && 4 <= reg[REBP] < TWO_31 - 4
    ensures var a := Initial(0, reg, LeaveProgram());
      && S.Plain(a) && S.Plain(S.Step(a)) && S.Step(a).stat == SAOK && S.Step(S.Step(a)).stat == SAOK
  {
    hide LeaveProgram, Total, FetchAt, S.Step, S.Execute, S.Plain;
    var a0 := Initial(0, reg, LeaveProgram());
    var a1 := S.Step(a0);
    LeaveProgramCode();
    LeaveStep(a0);
    PushStep(a1);
    HaltStops(S.Step(a1));
    FirstIsPlain(a0);
    SecondIsPlain(a1);
  }

  /** leave, before an instruction that keeps what comes next. */
  lemma FirstIsPlain(a: Isa)
    requires FetchAt(a.mem, a.pc).icode == ILEAVE && S.Step(a).mem == a.mem
    requires var b := S.Step(a); var c := S.Step(b);
      && FetchAt(b.mem, b.pc).icode == IPUSHL && FetchAt(c.mem, c.pc) == FetchAt(b.mem, c.pc)
    ensures S.Plain(a)
  {
    hide FetchAt, S.Step;
  }

  lemma SecondIsPlain(a: Isa)
    requires FetchAt(a.mem, a.pc).icode == IPUSHL && FetchAt(a.mem, a.pc).rA < 8
    requires var b := S.Step(a);
      FetchAt(b.mem, b.pc) == FetchAt(a.mem, b.pc) && FetchAt(b.mem, b.pc).icode == IHALT && S.Step(b).stat != SAOK
    ensures S.Plain(a)
  {
    hide FetchAt, S.Step;
  }

  lemma HaltStops(a: Isa)
    requires FetchAt(a.mem, a.pc).icode == IHALT
    ensures S.Step(a).stat != SAOK
  {
    hide ReadBytes, ReadByte, AluCalc, AluCC, GetCnd;
  }

  lemma NotLeaveOK(a: Isa)
    requires S.Step(a).stat == SAOK && FetchAt(a.mem, a.pc).icode == ILEAVE
    requires FetchAt(S.Step(a).mem, S.Step(a).pc).icode == IPUSHL && FetchAt(S.Step(a).mem, S.Step(a).pc).rA == REBP
    ensures !S.LeaveOK(a)
  {
    hide FetchAt, S.Step;
  }

  lemma ThreeSteps(a: Isa)
    requires a.stat == SAOK && S.Step(a).stat == SAOK && S.Step(S.Step(a)).stat == SAOK
    ensures var b := S.Step(a); var c := S.Step(b); var t := S.Trace(a, 3);
      && |t| == 3 && t[0].icode == FetchAt(a.mem, a.pc).icode && t[1].icode == FetchAt(b.mem, b.pc).icode
      && t[2].icode == FetchAt(c.mem, c.pc).icode
      && t == [S.Retire(a), S.Retire(b), S.Retire(c)]
  {
    hide FetchAt, S.Step;
    var b := S.Step(a);
    var c := S.Step(b);
    assert S.Trace(c, 1) == [S.Retire(c)] + S.Trace(S.Step(c), 0);
    assert S.Trace(b, 2) == [S.Retire(b)] + S.Trace(c, 1);
    EffectPC(a);
    EffectPC(b);
    EffectPC(c);
    hide S.Execute;
  }

  lemma LeaveStep(a: Isa)
    requires Total(a.mem) && a.stat == SAOK && |a.reg| == 8 && 4 <= a.reg[REBP] < TWO_31 - 4
    requires var i := FetchAt(a.mem, a.pc); i.icode == ILEAVE && i.stat == SAOK
    ensures var b := S.Step(a);
      && b.stat == SAOK && b.pc == FetchAt(a.mem, a.pc).valP && b.mem == a.mem && |b.reg| == 8
      && b.reg[RESP] == a.reg[REBP] + 4
  {
    hide FetchAt, ReadBytes, Total;
    AccessTotal(ILEAVE, a.reg[REBP] + 4, a.reg[REBP], a.mem);
    hide ReadWord;
  }

  lemma PushStep(a: Isa)
    requires Total(a.mem) && a.stat == SAOK && |a.reg| == 8 && 8 <= a.reg[RESP] < TWO_31
    requires var i := FetchAt(a.mem, a.pc); i.icode == IPUSHL && i.stat == SAOK && i.rA < 8 && i.valP == 3
    requires FetchAt(a.mem, 3).icode == IHALT
    ensures var b := S.Step(a); b.stat == SAOK && b.pc == 3 && FetchAt(b.mem, 3) == FetchAt(a.mem, 3)
  {
    var x := S.Execute(a);
    assert x.valE == a.reg[RESP] - 4 by { hide FetchAt, ReadBytes, WriteBytes; }
    AccessTotal(IPUSHL, x.valE, x.valA, a.mem);
    FirstByteKept(a.mem, x.valE, x.valA, 3);
    hide FetchAt, ReadBytes, WriteBytes, Total;
  }

  lemma FirstByteKept(mem: Memory, addr: int, val: int, pc: int)
    requires 0 <= pc < addr < TWO_31 - 4 && FetchAt(mem, pc).icode == IHALT
    ensures FetchAt(WriteWord(mem, addr, val).mem, pc) == FetchAt(mem, pc)
  {
    hide FetchAt, WriteBytes, ReadBytes;
    forall i | addr <= i < addr + 4 ensures ToWord(i) != pc {
      WordAccess.DistinctWords(i, pc);
    }
    WordAccess.WriteBytesFrame(mem, addr, val, 4, pc);
    FirstByte(mem, pc);
    FirstByte(WriteWord(mem, addr, val).mem, pc);
  }

  /** A one-byte instruction is its first byte. */
  lemma FirstByte(mem: Memory, pc: int)
    ensures var icode := IcodeOf(ReadByte(mem, pc), !InRange(pc)); FetchAt(mem, pc).icode == icode
    ensures var icode := IcodeOf(ReadByte(mem, pc), !InRange(pc));
      !NeedRegids(icode) && !NeedValC(icode) ==> FetchAt(mem, pc) == InstrOf(pc, ReadByte(mem, pc), 0, 0, !InRange(pc))
  {
    hide ReadByte, ReadBytes;
  }

  /** The program whose waiting instruction retires twice: the pipeline retires leave, pushl, pushl where the sequential
      machine executes leave, pushl, halt. */
  lemma LeaveProgramDiverges(reg: Registers)
    requires |reg| == 8 && 4 <= reg[REBP] < TWO_31 - 4
    ensures var p, a := Reset(0, reg, LeaveProgram()), Initial(0, reg, LeaveProgram());
      && |Trace(p, 7)| == 3 && Trace(p, 7)[2].icode == IPUSHL
      && |S.Trace(a, 3)| == 3 && S.Trace(a, 3)[2].icode == IHALT
      && Trace(p, 7) != S.Trace(a, |Trace(p, 7)|)
  {
    hide Run, Cycle, S.Trace, LeaveProgram, Total, Reset;
    LeaveEntersE(reg);
    RetiresTwice(Run(Reset(0, reg, LeaveProgram()), 3));
    LeaveProgramSequential(reg);
    assert Trace(Reset(0, reg, LeaveProgram()), 3 + 4) == Trace(Run(Reset(0, reg, LeaveProgram()), 3), 4);
  }
}
