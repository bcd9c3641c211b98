/** The pipeline refines the sequential machine.

    The invariant follows the program state through the pipeline: `a` is the state after the instruction that
    retired last, `a1` the state after the instruction in M, `a2` after the one in E, `a3` after the one in D. */
module PipelineProof {
  import opened Words
  import opened Y86
  import S = Sequential
  import opened Pipeline

  type Isa = S.Isa

  /** A slot without an instruction: a bubble, or the cleared latch left by init(). */
  predicate Empty(stat: int, icode: int) {
    (stat == SBUB && icode == INOP) || (stat == SAOK && icode == IHALT)
  }

  function After(empty: bool, a: Isa): Isa {
    if empty then a else S.Step(a)
  }

  predicate UsesA(icode: int) {
    icode in {ICALL, IJXX} || SrcA(icode, 0) != RNONE
  }

  predicate UsesB(icode: int) {
    SrcB(icode, 0) != RNONE
  }

  predicate MemorySlot(m: MemoryReg, a: Isa) {
    if Empty(m.stat, m.icode) then m.dstE == RNONE && m.dstM == RNONE && m.mStat == m.stat
    else
      var x := S.Execute(a);
      && m.icode == x.ins.icode && m.stat == x.ins.stat && m.mStat == x.stat
      && m.valE == x.valE && m.dstE == x.dstE && m.dstM == x.dstM
      && (MemReads(m.icode) ==> m.valM == x.valM)
      && (m.icode == IJXX ==> m.cnd == x.cnd && m.valA == x.valA)
  }

  predicate ExecuteSlot(e: ExecuteReg, a: Isa) {
    if Empty(e.stat, e.icode) then e.eDstE == RNONE && e.dstM == RNONE
    else
      var x := S.Execute(a);
      && e.icode == x.ins.icode && e.ifun == x.ins.ifun && e.stat == x.ins.stat
      && e.valE == x.valE && e.eDstE == x.dstE && e.dstM == x.dstM && e.cnd == x.cnd
      && (UsesA(e.icode) ==> e.valA == x.valA)
  }

  predicate EmptyD(d: DecodeReg) {
    && Empty(d.stat, d.icode)
    && d.srcA == RNONE && d.srcB == RNONE && d.dstE == RNONE && d.dstM == RNONE
  }

  /** D holds the instruction at a, decoded; its operand values are stated by Operands. */
  predicate Decoded(d: DecodeReg, a: Isa) {
    var ins := FetchAt(a.mem, a.pc);
    && d.icode == ins.icode && d.ifun == ins.ifun && d.stat == ins.stat && d.valP == ins.valP
    && (NeedRegids(ins.icode) ==> d.rA == ins.rA && d.rB == ins.rB)
    && (NeedValC(ins.icode) ==> d.valC == ins.valC)
    && d.srcA == SrcA(ins.icode, ins.rA) && d.srcB == SrcB(ins.icode, ins.rB)
    && d.dstE == DstE(ins.icode, ins.rB) && d.dstM == DstM(ins.icode, ins.rA)
  }

  predicate Operands(d: DecodeReg, a: Isa) {
    var ins := FetchAt(a.mem, a.pc);
    && (UsesA(ins.icode) ==> d.valA == S.SrcValA(a, ins))
    && (UsesB(ins.icode) ==> d.valB == S.SrcValB(a, ins))
  }

  predicate DecodeSlot(e: ExecuteReg, d: DecodeReg, a: Isa) {
    if Empty(d.stat, d.icode) then EmptyD(d)
    else Decoded(d, a) && (!LoadUse(e, d) ==> Operands(d, a))
  }

  predicate Fetched(f: FetchReg, a: Isa) {
    var ins := FetchAt(a.mem, a.pc);
    && f.pc == a.pc && f.nextPC == PredPC(ins)
    && f.icode == ins.icode && f.ifun == ins.ifun && f.stat == ins.stat && f.valP == ins.valP
    && (NeedRegids(ins.icode) ==> f.rA == ins.rA && f.rB == ins.rB)
    && (NeedValC(ins.icode) ==> f.valC == ins.valC)
    && f.imemError == !InRange(a.pc)
  }

  predicate FetchSlot(p: Pipe, a: Isa) {
    var emptyED := Empty(p.e.stat, p.e.icode) && Empty(p.d.stat, p.d.icode);
    if Empty(p.f.stat, p.f.icode) then p.f.nextPC == a.pc && !p.f.imemError && emptyED
    else Fetched(p.f, a) && (p.f.pc == p.f.predPC || emptyED)
  }

  /** What F holds when D holds the instruction at a (or nothing) and is on the right path. */
  predicate BehindD(p: Pipe, a: Isa) {
    var empty := Empty(p.d.stat, p.d.icode);
    var a3 := After(empty, a);
    a3.stat == SAOK ==>
      if !empty && p.d.icode == IRET then HeldBehind(p.f, a)
      else if !empty && S.NotTaken(a) then
        && (!p.f.imemError && InRange(p.f.nextPC) <==> S.WrongPathOK(a.mem, a))
        && (!p.f.imemError ==> InRange(p.f.predPC))
      else FetchSlot(p, a3)
  }

  /** F repeats the fetch behind the `ret` at a, and the flag says whether that is in range. */
  predicate HeldBehind(f: FetchReg, a: Isa) {
    && (!f.imemError <==> S.WrongPathOK(a.mem, a))
    && (InRange(f.predPC) <==> S.WrongPathOK(a.mem, a))
  }

  /** The state before the instruction that redirects F next: a `ret` in M, or what is in E. */
  function Source(p: Pipe, a: Isa): Isa {
    if p.m.icode == IRET then a else AfterM(p, a)
  }

  /** What D and F hold behind the instruction in E, which leads from src to a. */
  predicate BehindE(p: Pipe, src: Isa, a: Isa) {
    if p.e.icode == IRET || p.m.icode == IRET then
      && EmptyD(p.d) && HeldBehind(p.f, src)
      && (p.m.icode == IRET ==> Empty(p.e.stat, p.e.icode))
    else if Mispredicted(p.e) then !p.f.imemError <==> S.WrongPathOK(src.mem, src)
    else DecodeSlot(p.e, p.d, a) && BehindD(p, a)
  }

  function AfterM(p: Pipe, a: Isa): Isa {
    After(Empty(p.m.stat, p.m.icode), a)
  }

  function AfterE(p: Pipe, a: Isa): Isa {
    After(Empty(p.e.stat, p.e.icode), AfterM(p, a))
  }

  predicate BehindM(p: Pipe, a: Isa) {
    var a1 := AfterM(p, a);
    var a2 := AfterE(p, a);
    && !p.m.err
    && ExecuteSlot(p.e, a1)
    && p.cc == a2.cc
    && (a2.stat == SAOK ==> BehindE(p, Source(p, a), a2))
  }

  predicate Running(p: Pipe, a: Isa) {
    var a1 := AfterM(p, a);
    && !IsStop(p.w.stat)
    && MemorySlot(p.m, a)
    && p.mem == a1.mem
    && (if a1.stat == SAOK then BehindM(p, a) else p.cc == a1.cc)
  }

  predicate Stopped(p: Pipe, a: Isa) {
    && p.w.stat == a.stat && IsStop(a.stat) && a.stat != SSPD && p.m.mStat == a.stat
    && p.m.dstE == RNONE && p.m.dstM == RNONE
    && p.mem == a.mem && p.cc == a.cc
  }

  predicate Inv(p: Pipe, a: Isa) {
    && |p.reg| == 8 && p.reg == a.reg
    && !p.suspend && p.f.stat != SSPD
    && p.stat == (if p.w.stat == SBUB then SAOK else p.w.stat)
    && if a.stat == SAOK then Running(p, a) else Stopped(p, a)
  }

  // ---------- facts about single instructions ----------

  lemma FetchRegs(mem: Memory, pc: int, err: bool)
    ensures var ins := FetchWith(mem, pc, err);
      && (NeedRegids(ins.icode) ==> 0 <= ins.rA < 16 && 0 <= ins.rB < 16)
      && !Empty(ins.stat, ins.icode) && ins.stat != SSPD && (ins.stat == SAOK || IsStop(ins.stat))
  {
  }

  /** Only a load has a memory destination. */
  lemma EffectLoads(a: Isa)
    ensures var x := S.Execute(a);
      && x.ins == FetchAt(a.mem, a.pc)
      && x.dstM == DstM(x.ins.icode, x.ins.rA)
      && (x.dstM != RNONE ==> x.ins.icode in {IMRMOVL, IPOPL, ILEAVE})
  {
    hide FetchWith, AluCalc, AluCC, GetCnd, S.AccessMem;
  }

  /** A fault is a stop, and an instruction never looks like an empty slot. */
  lemma EffectStat(a: Isa)
    ensures var x := S.Execute(a);
      && !Empty(x.ins.stat, x.ins.icode) && x.ins.stat != SSPD
      && !Empty(x.stat, x.ins.icode) && x.stat != SSPD
      && (x.stat == SAOK || IsStop(x.stat))
  {
    FetchRegs(a.mem, a.pc, !InRange(a.pc));
    hide FetchWith, AluCalc, AluCC, GetCnd, S.AccessMem;
  }

  /** Where an instruction goes next. */
  lemma EffectPC(a: Isa)
    ensures var x := S.Execute(a);
      && x.ins == FetchAt(a.mem, a.pc)
      && (x.ins.icode == IRET ==> x.pc == x.valM)
      && (x.ins.icode == IJXX ==>
            && x.pc == (if x.cnd then x.ins.valC else x.ins.valP)
            && x.valA == x.ins.valP && x.cc == a.cc && x.cnd == GetCnd(x.ins.ifun, a.cc))
      && (x.ins.icode !in {IRET, IJXX} ==> x.pc == PredPC(x.ins))
  {
    hide FetchWith, AluCalc, AluCC, GetCnd, S.AccessMem;
  }

  /** The instruction in W, as it shows when it retires. */
  function RetiredOf(w: WriteReg): S.Retired {
    S.Retired(w.icode, w.stat, w.dstE, w.valE, w.dstM, if w.dstM == RNONE then 0 else w.valM)
  }

  // ---------- one lemma for each stage ----------

  /** Write-back brings the register file to the state after the instruction that was in M. */
  lemma WriteBack(p: Pipe, a: Isa)
    requires Inv(p, a) && a.stat == SAOK
    ensures var q := StageW(p); var a1 := AfterM(p, a);
      && q.reg == a1.reg && |q.reg| == 8
      && q.w.stat == p.m.mStat && q.w.icode == p.m.icode
      && q.stat == (if q.w.stat == SBUB then SAOK else q.w.stat)
      && (!Empty(p.m.stat, p.m.icode) ==> RetiredOf(q.w) == S.Retire(a) && !Empty(q.w.stat, q.w.icode))
      && (Empty(p.m.stat, p.m.icode) ==> Empty(q.w.stat, q.w.icode))
      && (q.w.icode == IRET && !Empty(p.m.stat, p.m.icode) ==> q.w.valM == a1.pc || a1.stat != SAOK)
      && forall r :: 0 <= r < 8 ==> Forwarded(q.w, q.reg, r)
  {
    EffectLoads(a);
    EffectStat(a);
    EffectPC(a);
    hide S.Execute, FetchWith, BehindM;
  }

  /** A register that W writes holds the value W would forward. */
  predicate Forwarded(w: WriteReg, reg: Registers, r: int) {
    && (r == w.dstM ==> GetReg(reg, r) == w.valM)
    && (r == w.dstE && r != w.dstM ==> GetReg(reg, r) == w.valE)
  }

  /** The instruction that leaves E performs its memory access and becomes the one in M. */
  lemma MemoryStage(p: Pipe, q: Pipe, a: Isa)
    requires Inv(p, a) && a.stat == SAOK && AfterM(p, a).stat == SAOK
    requires q.e == p.e && q.mem == p.mem && q.m == p.m
    ensures var c := PipeLogic(p); var r := StageM(c, q); var a1 := AfterM(p, a); var a2 := AfterE(p, a);
      && !c.mBubble
      && MemorySlot(r.m, a1) && After(Empty(r.m.stat, r.m.icode), a1) == a2
      && r.mem == a2.mem
      && r.m.stat == p.e.stat && r.m.icode == p.e.icode && r.m.cnd == p.e.cnd && r.m.valA == p.e.valA
      && (a2.stat == SAOK ==> !r.m.err && !IsStop(r.m.mStat))
      && (a2.stat != SAOK ==> r.m.mStat == a2.stat && IsStop(a2.stat))
  {
    EffectStat(a);
    EffectStat(AfterM(p, a));
    hide FetchWith, AluCalc, AluCC, GetCnd, ReadWord, WriteWord, BehindE;
  }

  /** The instruction that leaves D with correct operands is executed as the sequential machine does. */
  lemma ExecuteStage(c: Control, q: Pipe, b: Isa)
    requires DecodeSlot(q.e, q.d, b) && !LoadUse(q.e, q.d) && !c.eBubble && b.stat == SAOK
    requires q.cc == b.cc && !IsStop(q.m.mStat) && !IsStop(q.w.stat)
    ensures var r := StageE(c, q); var b1 := After(Empty(q.d.stat, q.d.icode), b);
      && ExecuteSlot(r.e, b) && After(Empty(r.e.stat, r.e.icode), b) == b1
      && Empty(r.e.stat, r.e.icode) == Empty(q.d.stat, q.d.icode)
      && r.cc == b1.cc
  {
    hide FetchWith, AluCalc, AluCC, GetCnd, ReadWord, WriteWord;
  }

  /** The part of the forwarding network that looks at M and W. */
  lemma ForwardingM(q: Pipe, b: Isa, r: int)
    requires b.stat == SAOK && |q.reg| == 8 && q.reg == b.reg
    requires MemorySlot(q.m, b)
    requires 0 <= r < 8 && Forwarded(q.w, q.reg, r)
    ensures r != q.e.eDstE ==> Forward(q.e, q.m, q.w, r, GetReg(q.reg, r)) == GetReg(AfterM(q, b).reg, r)
    ensures |AfterM(q, b).reg| == 8
  {
    EffectLoads(b);
    hide S.Execute, FetchWith;
  }

  /** Forwarding: what D picks for a register is its value once every older instruction has completed,
      unless the instruction in E is still to load it. */
  lemma Forwarding(q: Pipe, b: Isa, r: int)
    requires b.stat == SAOK && |q.reg| == 8 && q.reg == b.reg
    requires MemorySlot(q.m, b)
    requires AfterM(q, b).stat == SAOK && ExecuteSlot(q.e, AfterM(q, b))
    requires 0 <= r < 8 && Forwarded(q.w, q.reg, r) && r != q.e.dstM
    ensures Forward(q.e, q.m, q.w, r, GetReg(q.reg, r)) == GetReg(AfterE(q, b).reg, r)
  {
    hide MemorySlot, Forwarded;
    ForwardingM(q, b, r);
    assert r == q.e.eDstE ==> Forward(q.e, q.m, q.w, r, GetReg(q.reg, r)) == q.e.valE;
    hide S.Execute, FetchWith, Forward;
  }

  /** The D_ fields hold the instruction at a. */
  predicate Latched(d: DecodeReg, a: Isa) {
    var ins := FetchAt(a.mem, a.pc);
    && d.icode == ins.icode && d.ifun == ins.ifun && d.stat == ins.stat && d.valP == ins.valP
    && (NeedRegids(ins.icode) ==> d.rA == ins.rA && d.rB == ins.rB)
    && (NeedValC(ins.icode) ==> d.valC == ins.valC)
  }

  /** The operand selection of D, spelled out for an instruction with good register numbers. */
  lemma DecodeFields(q: Pipe, a: Isa)
    requires Latched(q.d, a) && S.RegsOK(FetchAt(a.mem, a.pc))
    ensures var d := Decode(q); var ins := FetchAt(a.mem, a.pc);
      && Decoded(d, a)
      && (ins.icode in {ICALL, IJXX} ==> d.valA == ins.valP)
      && (UsesA(ins.icode) && ins.icode !in {ICALL, IJXX} ==>
            0 <= d.srcA < 8 && d.valA == Forward(q.e, q.m, q.w, d.srcA, GetReg(q.reg, d.srcA)))
      && (UsesB(ins.icode) ==> 0 <= d.srcB < 8 && d.valB == Forward(q.e, q.m, q.w, d.srcB, GetReg(q.reg, d.srcB)))
  {
    FetchRegs(a.mem, a.pc, !InRange(a.pc));
    hide FetchWith, Forward, GetReg;
  }

  /** What the latched instruction depends on is forwarded correctly. */
  lemma DecodeStage(q: Pipe, b: Isa)
    requires b.stat == SAOK && |q.reg| == 8 && q.reg == b.reg
    requires MemorySlot(q.m, b)
    requires AfterM(q, b).stat == SAOK && ExecuteSlot(q.e, AfterM(q, b))
    requires forall r :: 0 <= r < 8 ==> Forwarded(q.w, q.reg, r)
    requires AfterE(q, b).stat == SAOK && Latched(q.d, AfterE(q, b))
    requires S.RegsOK(FetchAt(AfterE(q, b).mem, AfterE(q, b).pc))
    ensures Decoded(Decode(q), AfterE(q, b))
    ensures !LoadUse(q.e, Decode(q)) ==> Operands(Decode(q), AfterE(q, b))
  {
    hide FetchWith, Forward, S.Execute, S.Step, Decode, MemorySlot, Forwarded, GetReg, S.RegsOK, Latched;
    var a2 := AfterE(q, b);
    var ins := FetchAt(a2.mem, a2.pc);
    DecodeFields(q, a2);
    var d := Decode(q);
    if !LoadUse(q.e, d) {
      EffectLoads(AfterM(q, b));
      if UsesA(ins.icode) && ins.icode !in {ICALL, IJXX} { Forwarding(q, b, d.srcA); }
      if UsesB(ins.icode) { Forwarding(q, b, d.srcB); }
    }
  }

  /** A fetch at the right PC, from memory in which the instruction's bytes are already final. */
  lemma FetchStage(c: Control, q: Pipe, a: Isa)
    requires q.f.stat != SSPD
    requires SelectPC(q.m, q.w, if c.fStall then q.f.predPC else q.f.nextPC) == a.pc
    requires q.f.imemError ==> !InRange(a.pc)
    requires FetchAt(q.mem, a.pc) == FetchAt(a.mem, a.pc)
    ensures var f := StageF(c, q).f; Fetched(f, a) && !Empty(f.stat, f.icode)
  {
    FetchRegs(q.mem, a.pc, !InRange(a.pc));
    hide FetchWith;
  }

  /** The control signals neither lose nor repeat an instruction: what is held in D is held in F too and is not
      squashed, E gets an empty slot exactly when D keeps or squashes its instruction, except behind `leave`, and F is
      repeated only if D is held or gets an empty slot, or the process is to be suspended. */
  lemma ControlDiscipline(d: DecodeReg, e: ExecuteReg, m: MemoryReg, w: WriteReg, suspend: bool)
    ensures var c := ControlOf(d, e, m, w, suspend);
      && (c.dStall ==> c.fStall && !c.dBubble)
      && (c.eBubble <==> Mispredicted(e) || (c.dStall && e.icode != ILEAVE))
      && (c.dBubble && !c.fStall ==> Mispredicted(e))
      && (c.fStall ==> c.dStall || c.dBubble || suspend)
      && (Mispredicted(e) ==> c.dBubble && c.eBubble && !c.dStall)
  {
  }

  // ---------- one cycle ----------

  /** The pipeline after W, M, E, D and F of one cycle. */
  function AfterStageW(p: Pipe): Pipe { StageW(TakeSuspend(p)) }
  function AfterStageM(p: Pipe): Pipe { StageM(PipeLogic(p), AfterStageW(p)) }
  function AfterStageE(p: Pipe): Pipe { StageE(PipeLogic(p), AfterStageM(p)) }
  function AfterStageD(p: Pipe): Pipe { StageD(PipeLogic(p), AfterStageE(p)) }

  /** Each stage writes its own registers only, so later stages see what earlier ones left. */
  lemma Frames(p: Pipe)
    requires !p.suspend
    ensures var q1, q2, q3, q4, p' := AfterStageW(p), AfterStageM(p), AfterStageE(p), AfterStageD(p), Cycle(p);
      && q1 == StageW(p) && q2 == StageM(PipeLogic(p), q1) && q3 == StageE(PipeLogic(p), q2)
      && q4 == StageD(PipeLogic(p), q3) && p' == StageF(PipeLogic(p), q4)
      && q1.w == q2.w == q3.w == q4.w == p'.w && q1.reg == q2.reg == q3.reg == q4.reg == p'.reg
      && p.m == q1.m && q2.m == q3.m == q4.m == p'.m
      && p.mem == q1.mem && q2.mem == q3.mem == q4.mem == p'.mem
      && p.e == q1.e == q2.e && q3.e == q4.e == p'.e
      && p.cc == q1.cc == q2.cc && q3.cc == q4.cc == p'.cc
      && p.d == q1.d == q2.d == q3.d && q4.d == p'.d
      && p.f == q1.f == q2.f == q3.f == q4.f
      && q1.stat == p'.stat && !p'.suspend
  {
    var c := PipeLogic(p);
    FrameW(p);
    FrameM(c, AfterStageW(p));
    FrameE(c, AfterStageM(p));
    FrameD(c, AfterStageE(p));
    FrameF(c, AfterStageD(p));
    hide PipeLogic, StageW, StageM, StageE, StageD, StageF;
  }

  /** The back end: W, M and the architectural state advance by the instruction that was in M. */
  lemma BackEnd(p: Pipe, a: Isa)
    requires Inv(p, a) && a.stat == SAOK
    ensures var p' := Cycle(p); var a1 := AfterM(p, a);
      && p'.reg == a1.reg && |p'.reg| == 8 && !p'.suspend
      && p'.stat == (if p'.w.stat == SBUB then SAOK else p'.w.stat)
      && p'.w.stat == p.m.mStat && p'.w.icode == p.m.icode
      && (!Empty(p.m.stat, p.m.icode) ==> RetiredOf(p'.w) == S.Retire(a) && !Empty(p'.w.stat, p'.w.icode))
      && (Empty(p.m.stat, p.m.icode) ==> Empty(p'.w.stat, p'.w.icode))
      && (p.m.icode == IRET && a1.stat == SAOK ==> p'.w.valM == a1.pc)
      && (forall r :: 0 <= r < 8 ==> Forwarded(p'.w, p'.reg, r))
      && (a1.stat == SAOK ==>
            && !PipeLogic(p).mBubble && !IsStop(p'.w.stat) && !IsStop(p.m.mStat)
            && p'.m.stat == p.e.stat && p'.m.icode == p.e.icode && p'.m.cnd == p.e.cnd && p'.m.valA == p.e.valA
            && MemorySlot(p'.m, a1) && AfterM(p', a1) == AfterE(p, a) && p'.mem == AfterE(p, a).mem
            && (AfterE(p, a).stat == SAOK ==> !p'.m.err && !IsStop(p'.m.mStat))
            && (AfterE(p, a).stat != SAOK ==> IsStop(p'.m.mStat)))
      && (a1.stat != SAOK ==>
            && PipeLogic(p).mBubble && IsStop(p'.w.stat) && p'.w.stat == a1.stat && a1.stat != SSPD
            && p'.m.mStat == p.m.mStat && p'.m.dstE == RNONE && p'.m.dstM == RNONE && p'.mem == p.mem)
  {
    Frames(p);
    WriteBack(p, a);
    if AfterM(p, a).stat == SAOK {
      MemoryStage(p, StageW(p), a);
    } else {
      StopReachesW(p, a);
    }
    hide PipeLogic, S.AccessMem, S.Execute, StageW, StageM, StageE, StageD, StageF, FetchWith, BehindM, MemorySlot;
  }

  /** A stopping instruction in M moves on to W; nothing takes its place. */
  lemma StopReachesW(p: Pipe, a: Isa)
    requires Inv(p, a) && a.stat == SAOK && AfterM(p, a).stat != SAOK
    ensures PipeLogic(p).mBubble && IsStop(p.m.mStat) && p.m.mStat == AfterM(p, a).stat && p.m.mStat != SSPD
    ensures forall q :: var r := StageM(PipeLogic(p), q);
      r.mem == q.mem && r.m.mStat == q.m.mStat && r.m.dstE == RNONE && r.m.dstM == RNONE
  {
    EffectStat(a);
    hide S.Execute, S.AccessMem, FetchWith, AluCalc, AluCC, GetCnd, LoadUse, RetInFlight;
  }

  /** The front end of one cycle, where the instruction in E has not stopped the machine. */
  predicate Advancing(p: Pipe, a: Isa) {
    && Inv(p, a) && a.stat == SAOK
    && AfterM(p, a).stat == SAOK && AfterE(p, a).stat == SAOK
    && S.Plain(AfterM(p, a)) && S.Plain(AfterE(p, a)) && !BehindLeave(p)
  }

  /** The instruction in D waits for a `leave`. */
  predicate BehindLeave(p: Pipe) {
    p.e.icode == ILEAVE && LoadUse(p.e, p.d)
  }

  /** F is about to be redirected: by a branch in E that is not taken, or by a `ret` in M. */
  predicate Redirects(p: Pipe) {
    Mispredicted(p.e) || p.m.icode == IRET
  }

  lemma BubbleE(c: Control, q: Pipe)
    requires c.eBubble
    ensures var r := StageE(c, q);
      && Empty(r.e.stat, r.e.icode) && r.e.icode == INOP
      && r.e.eDstE == RNONE && r.e.dstM == RNONE && r.cc == q.cc
  {
  }

  lemma BubbleD(c: Control, q: Pipe)
    requires c.dBubble && !c.dStall
    ensures EmptyD(StageD(c, q).d) && StageD(c, q).d.icode == INOP
  {
  }

  /** The PC that F uses, and what a fetch does to the fetch registers. */
  lemma FetchFields(c: Control, q: Pipe)
    ensures var predPC := if c.fStall then q.f.predPC else q.f.nextPC;
      var pc := SelectPC(q.m, q.w, predPC);
      var f := StageF(c, q).f;
      && f.predPC == predPC && f.pc == pc && f.imemError == (q.f.imemError || !InRange(pc))
      && (!f.imemError ==> f.nextPC == PredPC(FetchAt(q.mem, pc)))
      && (q.f.stat != SSPD ==> f.stat != SSPD)
  {
    FetchRegs(q.mem, SelectPC(q.m, q.w, if c.fStall then q.f.predPC else q.f.nextPC), true);
    FetchRegs(q.mem, SelectPC(q.m, q.w, if c.fStall then q.f.predPC else q.f.nextPC), false);
    hide FetchWith, SelectPC;
  }

  /** How M and W redirect F, in terms of the instructions that were in E and M. */
  lemma Redirection(p: Pipe, a: Isa, predPC: int)
    requires Advancing(p, a)
    ensures var pc := SelectPC(AfterStageD(p).m, AfterStageD(p).w, predPC);
      && (Mispredicted(p.e) ==> pc == AfterE(p, a).pc)
      && (!Mispredicted(p.e) && p.m.icode == IRET ==> pc == AfterM(p, a).pc)
      && (!Mispredicted(p.e) && p.m.icode != IRET ==> pc == predPC)
  {
    hide FetchWith, S.Execute, BehindE, S.Plain, StageW, StageM, StageE, StageD, StageF, PipeLogic;
    Frames(p);
    BackEnd(p, a);
    EffectPC(AfterM(p, a));
  }

  /** A branch mispredicted in E squashes D and F and restarts at the fall-through address. */
  lemma MispredictCase(p: Pipe, a: Isa)
    requires Advancing(p, a) && Mispredicted(p.e) && S.PathOK(AfterM(p, a))
    ensures BehindM(Cycle(p), AfterM(p, a))
  {
    hide FetchWith, S.Execute, S.Step, S.Plain, StageW, StageM, StageE, StageD, StageF, MemorySlot, FetchAt;
    var c := PipeLogic(p);
    assert c.eBubble && c.dBubble && !c.dStall;
    Frames(p);
    BackEnd(p, a);
    Redirection(p, a, if c.fStall then p.f.predPC else p.f.nextPC);
    BubbleE(c, AfterStageM(p));
    BubbleD(c, AfterStageE(p));
    FetchStage(c, AfterStageD(p), AfterE(p, a));
  }

  /** While a `ret` is in E or M nothing new enters; when it retires, its target is fetched. */
  lemma ReturnCase(p: Pipe, a: Isa)
    requires Advancing(p, a) && !Mispredicted(p.e) && (p.e.icode == IRET || p.m.icode == IRET)
    requires p.m.icode == IRET ==> S.PathOK(a)
    ensures BehindM(Cycle(p), AfterM(p, a))
  {
    hide FetchWith, S.Execute, S.Step, S.Plain, StageW, StageM, StageE, StageD, StageF, MemorySlot, FetchAt;
    var c := PipeLogic(p);
    assert !c.eBubble && c.dBubble && !c.dStall && c.fStall;
    Frames(p);
    BackEnd(p, a);
    Redirection(p, a, p.f.predPC);
    EmptyEntersE(c, AfterStageM(p));
    BubbleD(c, AfterStageE(p));
    FetchFields(c, AfterStageD(p));
    if p.m.icode == IRET {
      FetchStage(c, AfterStageD(p), AfterE(p, a));
    }
  }

  lemma EmptyEntersE(c: Control, q: Pipe)
    requires EmptyD(q.d) && !c.eBubble
    ensures var r := StageE(c, q);
      && Empty(r.e.stat, r.e.icode) && r.e.icode == q.d.icode
      && r.e.eDstE == RNONE && r.e.dstM == RNONE && r.cc == q.cc
  {
    hide AluCalc, AluCC, GetCnd;
  }

  /** A load/use hazard bubbles E for one cycle, while D and F repeat. */
  lemma LoadUseCase(p: Pipe, a: Isa)
    requires Advancing(p, a) && !Mispredicted(p.e) && p.e.icode != IRET && p.m.icode != IRET
    requires LoadUse(p.e, p.d)
    ensures BehindM(Cycle(p), AfterM(p, a))
  {
    hide FetchWith, S.Execute, S.Step, StageW, StageM, StageE, StageD, StageF, MemorySlot, FetchAt, S.RegsOK, Decode;
    var a2 := AfterE(p, a);
    LoadUseFacts(p, a);
    var c := PipeLogic(p);
    assert c.eBubble && c.dStall && c.fStall;
    Frames(p);
    BackEnd(p, a);
    Redirection(p, a, p.f.predPC);
    BubbleE(c, AfterStageM(p));
    DecodeStage(AfterStageE(p), AfterM(p, a));
    StalledD(c, AfterStageE(p));
    FetchFields(c, AfterStageD(p));
    if S.Step(a2).stat == SAOK && p.d.icode != IRET {
      FetchStage(c, AfterStageD(p), S.Step(a2));
    }
  }

  lemma StalledD(c: Control, q: Pipe)
    requires c.dStall
    ensures StageD(c, q).d == Decode(q) && Decode(q).icode == q.d.icode && Decode(q).stat == q.d.stat
  {
  }

  lemma LoadUseFacts(p: Pipe, a: Isa)
    requires Advancing(p, a) && !Mispredicted(p.e) && p.e.icode != IRET && p.m.icode != IRET
    requires LoadUse(p.e, p.d)
    ensures !Empty(p.e.stat, p.e.icode) && !Empty(p.d.stat, p.d.icode)
    ensures p.e.icode != ILEAVE && p.d.icode != IJXX && Latched(p.d, AfterE(p, a))
    ensures S.RegsOK(FetchAt(AfterE(p, a).mem, AfterE(p, a).pc))
    ensures !S.NotTaken(AfterE(p, a))
    ensures BehindD(p, AfterE(p, a))
  {
    EffectLoads(AfterM(p, a));
    FetchRegs(AfterM(p, a).mem, AfterM(p, a).pc, !InRange(AfterM(p, a).pc));
    hide FetchWith, S.AccessMem, AluCalc, AluCC, GetCnd, S.Execute, BehindD;
  }

  /** No hazard stands between D and E. */
  predicate Flowing(p: Pipe, a: Isa) {
    && Advancing(p, a) && !Mispredicted(p.e) && p.e.icode != IRET && p.m.icode != IRET && !LoadUse(p.e, p.d)
  }

  /** The state after the instruction in D. */
  function AfterD(p: Pipe, a: Isa): Isa {
    After(Empty(p.d.stat, p.d.icode), AfterE(p, a))
  }

  /** D hands its instruction to E, where it is executed. */
  lemma NormalE(p: Pipe, a: Isa)
    requires Flowing(p, a)
    ensures var p' := Cycle(p); var a2 := AfterE(p, a);
      && ExecuteSlot(p'.e, a2) && AfterE(p', AfterM(p, a)) == AfterD(p, a) && p'.cc == AfterD(p, a).cc
      && Empty(p'.e.stat, p'.e.icode) == Empty(p.d.stat, p.d.icode)
      && p'.e.icode == p.d.icode
      && (Mispredicted(p'.e) <==> !Empty(p.d.stat, p.d.icode) && S.NotTaken(a2))
      && PipeLogic(p).fStall == PipeLogic(p).dBubble == (p.d.icode == IRET) && !PipeLogic(p).dStall
  {
    hide FetchWith, S.Execute, S.Step, S.Plain, StageW, StageM, StageE, StageD, StageF, MemorySlot, FetchAt;
    Frames(p);
    BackEnd(p, a);
    var c := PipeLogic(p);
    assert !c.eBubble;
    ExecuteStage(c, AfterStageM(p), AfterE(p, a));
    PassesE(c, AfterStageM(p));
    EffectPC(AfterE(p, a));
  }

  lemma PassesE(c: Control, q: Pipe)
    requires !c.eBubble
    ensures StageE(c, q).e.icode == q.d.icode
  {
  }

  /** A `ret` leaves D: nothing follows it. */
  lemma ReturnLeavesD(p: Pipe, a: Isa)
    requires Flowing(p, a) && AfterD(p, a).stat == SAOK && p.d.icode == IRET
    ensures BehindE(Cycle(p), AfterE(p, a), AfterD(p, a))
  {
    hide FetchWith, S.Execute, S.Step, S.Plain, StageW, StageM, StageE, StageD, StageF, MemorySlot, FetchAt;
    NormalE(p, a);
    Frames(p);
    BackEnd(p, a);
    Redirection(p, a, p.f.predPC);
    BubbleD(PipeLogic(p), AfterStageE(p));
    FetchFields(PipeLogic(p), AfterStageD(p));
  }

  /** A branch that will not be taken leaves D: what follows is the wrong path. */
  lemma BranchLeavesD(p: Pipe, a: Isa)
    requires Flowing(p, a) && AfterD(p, a).stat == SAOK
    requires !Empty(p.d.stat, p.d.icode) && S.NotTaken(AfterE(p, a))
    ensures BehindE(Cycle(p), AfterE(p, a), AfterD(p, a))
  {
    hide FetchWith, S.Execute, S.Step, S.Plain, StageW, StageM, StageE, StageD, StageF, MemorySlot, FetchAt;
    NormalE(p, a);
    Frames(p);
    BackEnd(p, a);
    Redirection(p, a, p.f.nextPC);
    FetchFields(PipeLogic(p), AfterStageD(p));
  }

  /** The instruction in F enters D, and F fetches behind it. */
  lemma RightPath(p: Pipe, a: Isa)
    requires Flowing(p, a) && AfterD(p, a).stat == SAOK && S.Plain(AfterD(p, a))
    requires Empty(p.d.stat, p.d.icode) || !S.NotTaken(AfterE(p, a))
    requires p.d.icode != IRET
    ensures BehindE(Cycle(p), AfterE(p, a), AfterD(p, a))
  {
    hide FetchWith, S.Execute, S.Step, StageW, StageM, StageE, StageD, StageF, MemorySlot, FetchAt, Decode;
    var c := PipeLogic(p);
    var a3 := AfterD(p, a);
    NormalE(p, a);
    Frames(p);
    BackEnd(p, a);
    Redirection(p, a, p.f.nextPC);
    LatchedD(c, AfterStageE(p));
    FetchFields(c, AfterStageD(p));
    if Empty(p.f.stat, p.f.icode) {
      FetchStage(c, AfterStageD(p), a3);
    } else {
      DecodeStage(AfterStageE(p).(d := LatchD(p.f, p.d)), AfterM(p, a));
      if S.Step(a3).stat == SAOK {
        NextFetch(a3);
        if Cycle(p).d.icode != IRET && !S.NotTaken(a3) {
          FetchStage(c, AfterStageD(p), S.Step(a3));
        }
      }
    }
  }

  lemma LatchedD(c: Control, q: Pipe)
    requires !c.dStall && !c.dBubble
    ensures var r := q.(d := LatchD(q.f, q.d));
      && StageD(c, q).d == Decode(r)
      && Decode(r).icode == q.f.icode && Decode(r).stat == q.f.stat
      && (Empty(q.f.stat, q.f.icode) ==> EmptyD(Decode(r)))
  {
  }

  /** Unless a `ret` or an untaken branch intervenes, the predicted PC is the next one. */
  lemma NextFetch(a: Isa)
    requires a.stat == SAOK && S.Step(a).stat == SAOK
    ensures InRange(a.pc)
    ensures var ins := FetchAt(a.mem, a.pc);
      ins.icode != IRET && !S.NotTaken(a) ==> PredPC(ins) == S.Step(a).pc
  {
    EffectPC(a);
    hide AluCalc, AluCC, GetCnd, S.AccessMem;
  }

  lemma NormalCase(p: Pipe, a: Isa)
    requires Flowing(p, a) && (AfterD(p, a).stat == SAOK ==> S.Plain(AfterD(p, a)))
    ensures BehindM(Cycle(p), AfterM(p, a))
  {
    hide FetchWith, S.Execute, S.Step, S.Plain, StageW, StageM, StageE, StageD, StageF, MemorySlot, FetchAt, Cycle,
         BehindE;
    NormalE(p, a);
    BackEnd(p, a);
    if AfterD(p, a).stat == SAOK {
      if p.d.icode == IRET {
        ReturnLeavesD(p, a);
      } else if !Empty(p.d.stat, p.d.icode) && S.NotTaken(AfterE(p, a)) {
        BranchLeavesD(p, a);
      } else {
        RightPath(p, a);
      }
    }
  }

  /** Once the machine has stopped, no cycle changes a register, a condition code or a byte of memory. */
  lemma StoppedCycle(p: Pipe, a: Isa)
    requires Inv(p, a) && a.stat != SAOK
    ensures Inv(Cycle(p), a)
  {
    hide FetchWith, S.AccessMem, Decode, AluCalc, AluCC, GetCnd;
    Frames(p);
    FetchFields(PipeLogic(p), AfterStageD(p));
  }

  /** An instruction that stops in M: the one behind it changes nothing. */
  lemma StopInM(p: Pipe, a: Isa)
    requires Inv(p, a) && a.stat == SAOK && AfterM(p, a).stat != SAOK
    ensures Inv(Cycle(p), AfterM(p, a))
  {
    hide FetchWith, S.Execute, S.Step, StageW, StageM, StageF, StageD, MemorySlot, BehindM, AluCalc, AluCC, GetCnd;
    Frames(p);
    BackEnd(p, a);
    FetchFields(PipeLogic(p), AfterStageD(p));
  }

  /** An instruction that stops in E: the one behind it does not set the condition codes. */
  lemma StopInE(p: Pipe, a: Isa)
    requires Inv(p, a) && a.stat == SAOK && AfterM(p, a).stat == SAOK && AfterE(p, a).stat != SAOK
    ensures Inv(Cycle(p), AfterM(p, a))
  {
    hide FetchWith, S.Execute, S.Step, StageW, StageM, StageF, StageD, MemorySlot, AluCalc, AluCC, GetCnd, Cycle,
         PipeLogic;
    Frames(p);
    BackEnd(p, a);
    FetchFields(PipeLogic(p), AfterStageD(p));
  }

  /** One cycle keeps the invariant, moving on by the instruction in M if there is one. */
  lemma CycleKeepsInv(p: Pipe, a: Isa)
    requires Inv(p, a) && S.SafeFrom(a)
    ensures a.stat == SAOK ==> Inv(Cycle(p), AfterM(p, a))
    ensures a.stat != SAOK ==> Inv(Cycle(p), a)
  {
    hide FetchWith, S.Execute, S.Step, S.Plain, MemorySlot, BehindM, BehindE, Cycle, PipeLogic;
    if a.stat != SAOK {
      StoppedCycle(p, a);
    } else if AfterM(p, a).stat != SAOK {
      StopInM(p, a);
    } else if AfterE(p, a).stat != SAOK {
      StopInE(p, a);
    } else {
      SafeAhead(p, a);
      NotBehindLeave(p, a);
      RunningCycle(p, a);
    }
  }

  predicate PlainAhead(p: Pipe, a: Isa) {
    && (AfterM(p, a).stat == SAOK ==> S.Plain(AfterM(p, a)))
    && (AfterE(p, a).stat == SAOK ==> S.Plain(AfterE(p, a)))
    && (AfterD(p, a).stat == SAOK ==> S.Plain(AfterD(p, a)))
  }

  lemma RunningCycle(p: Pipe, a: Isa)
    requires Inv(p, a) && a.stat == SAOK && AfterM(p, a).stat == SAOK && AfterE(p, a).stat == SAOK
    requires PlainAhead(p, a) && !BehindLeave(p) && (Redirects(p) ==> S.PathOK(Source(p, a)))
    ensures Inv(Cycle(p), AfterM(p, a))
  {
    hide FetchWith, S.Execute, S.Step, S.Plain, S.PathOK, MemorySlot, DecodeSlot, BehindD, Cycle, PipeLogic;
    BackEnd(p, a);
    Frames(p);
    FetchFields(PipeLogic(p), AfterStageD(p));
    if Mispredicted(p.e) {
      MispredictCase(p, a);
    } else if p.e.icode == IRET || p.m.icode == IRET {
      ReturnCase(p, a);
    } else if LoadUse(p.e, p.d) {
      LoadUseCase(p, a);
    } else {
      NormalCase(p, a);
    }
  }

  lemma SafeAhead(p: Pipe, a: Isa)
    requires S.SafeFrom(a)
    ensures S.SafeFrom(AfterM(p, a)) && PlainAhead(p, a)
    ensures AfterM(p, a).stat == SAOK ==> S.PathOK(AfterM(p, a)) && S.LeaveOK(AfterM(p, a))
    ensures a.stat == SAOK ==> S.PathOK(a)
  {
    hide S.Plain, S.LeaveOK, S.PathOK, S.Step, S.SafeFrom;
    S.SafeFromStep(a);
    S.SafeFromStep(AfterM(p, a));
    S.SafeFromStep(AfterE(p, a));
    S.SafeFromStep(AfterD(p, a));
  }

  /** The guard on `leave` keeps the hazard out. */
  lemma NotBehindLeave(p: Pipe, a: Isa)
    requires Inv(p, a) && a.stat == SAOK && AfterM(p, a).stat == SAOK && AfterE(p, a).stat == SAOK
    requires S.LeaveOK(AfterM(p, a))
    ensures !BehindLeave(p)
  {
    EffectLoads(AfterM(p, a));
    EffectStat(AfterM(p, a));
    hide FetchWith, S.Execute, S.Step, MemorySlot, BehindD;
  }

  // ---------- whole runs ----------

  /** The instructions passing stage W in n cycles, oldest first, up to and including the one that stops the core. */
  function Trace(p: Pipe, n: nat): seq<S.Retired>
    decreases n
  {
    if n == 0 || IsStop(p.w.stat) then [] else
    var p' := Cycle(p);
    (if Empty(p'.w.stat, p'.w.icode) then [] else [RetiredOf(p'.w)]) + Trace(p', n - 1)
  }

  function Initial(pc: int, reg: Registers, mem: Memory): Isa {
    S.Isa(pc, reg, CC(true, false, false), mem, SAOK)
  }

  lemma ResetInv(pc: int, reg: Registers, mem: Memory)
    requires |reg| == 8
    ensures Inv(Reset(pc, reg, mem), Initial(pc, reg, mem))
  {
    hide S.Execute, FetchAt;
  }

  /** Every run: what retires is what the sequential machine executes, in order, and the invariant holds throughout. */
  lemma {:induction false} RunRefines(p: Pipe, a: Isa, n: nat)
    requires Inv(p, a) && S.SafeFrom(a)
    ensures var k := |Trace(p, n)|; Trace(p, n) == S.Trace(a, k) && Inv(Run(p, n), S.Run(a, k))
    decreases n
  {
    hide S.Execute, FetchAt, Cycle, MemorySlot, BehindM, S.SafeFrom;
    if n == 0 {
    } else {
      CycleKeepsInv(p, a);
      var p' := Cycle(p);
      if a.stat != SAOK {
        RunRefines(p', a, n - 1);
        StoppedRun(p', a, n - 1);
      } else {
        BackEnd(p, a);
        S.SafeFromStep(a);
        RunRefines(p', AfterM(p, a), n - 1);
      }
    }
  }

  lemma {:induction false} StoppedRun(p: Pipe, a: Isa, n: nat)
    requires Inv(p, a) && a.stat != SAOK
    ensures Trace(p, n) == []
  {
  }

  /** The main theorem. From a reset, after any number of cycles, the instructions that have retired are those the
      sequential machine executes first, in order, and the registers are those of the sequential machine at that point.
      The core stops exactly when the sequential machine does, and then memory and condition codes agree as well. */
  lemma PipelineRefinesSequential(pc: int, reg: Registers, mem: Memory, n: nat)
    requires |reg| == 8 && S.SafeFrom(Initial(pc, reg, mem))
    ensures var p := Run(Reset(pc, reg, mem), n);
      var trace := Trace(Reset(pc, reg, mem), n);
      var a := S.Run(Initial(pc, reg, mem), |trace|);
      && trace == S.Trace(Initial(pc, reg, mem), |trace|)
      && p.reg == a.reg
      && (IsStop(p.stat) <==> a.stat != SAOK)
      && (IsStop(p.stat) ==> p.stat == a.stat && p.mem == a.mem && p.cc == a.cc)
  {
    hide S.Execute, FetchAt, Cycle, MemorySlot, BehindM, S.SafeFrom;
    ResetInv(pc, reg, mem);
    RunRefines(Reset(pc, reg, mem), Initial(pc, reg, mem), n);
  }

  /** Cycles until the oldest instruction in flight retires. */
  function Distance(p: Pipe): nat {
    if !Empty(p.m.stat, p.m.icode) then 1
    else if !Empty(p.e.stat, p.e.icode) then 2
    else if !Empty(p.d.stat, p.d.icode) then 3
    else if !Empty(p.f.stat, p.f.icode) then 4
    else 5
  }

  /** The oldest instruction in flight is never held up, and F is never left empty. */
  lemma DistanceFalls(p: Pipe, a: Isa)
    requires Inv(p, a) && a.stat == SAOK
    ensures Empty(p.m.stat, p.m.icode) ==> Distance(Cycle(p)) < Distance(p)
    ensures Distance(Cycle(p)) <= 4
  {
    hide FetchWith, S.Execute, S.Step, S.AccessMem, Decode, AluCalc, AluCC, GetCnd, SelectPC;
    Frames(p);
    BackEnd(p, a);
    NeverEmptyF(PipeLogic(p), AfterStageD(p));
    if Distance(p) == 4 {
      LatchedD(PipeLogic(p), AfterStageE(p));
    }
  }

  lemma NeverEmptyF(c: Control, q: Pipe)
    ensures !Empty(StageF(c, q).f.stat, StageF(c, q).f.icode)
  {
    FetchRegs(q.mem, SelectPC(q.m, q.w, if c.fStall then q.f.predPC else q.f.nextPC), true);
    FetchRegs(q.mem, SelectPC(q.m, q.w, if c.fStall then q.f.predPC else q.f.nextPC), false);
    hide FetchWith, SelectPC;
  }

  /** Some instruction retires within Distance(p) cycles; after the first cycle of a run that is at most four. */
  lemma {:induction false} RetiresWithin(p: Pipe, a: Isa, n: nat)
    requires Inv(p, a) && S.SafeFrom(a) && a.stat == SAOK && n >= Distance(p)
    ensures |Trace(p, n)| >= 1
    decreases n
  {
    hide S.Execute, FetchAt, Cycle, MemorySlot, BehindM, S.SafeFrom;
    BackEnd(p, a);
    if Empty(p.m.stat, p.m.icode) {
      CycleKeepsInv(p, a);
      DistanceFalls(p, a);
      RetiresWithin(Cycle(p), a, n - 1);
    }
  }

  /** After the first cycle of a run, at most three cycles in a row retire nothing. */
  lemma BubbleBound(pc: int, reg: Registers, mem: Memory, n: nat)
    requires |reg| == 8 && S.SafeFrom(Initial(pc, reg, mem)) && n >= 1
    ensures var p := Run(Reset(pc, reg, mem), n); IsStop(p.stat) || |Trace(p, 4)| >= 1
  {
    hide S.Execute, FetchAt, Cycle, MemorySlot, BehindM, S.SafeFrom, Distance;
    ResetInv(pc, reg, mem);
    var p0, a0 := Reset(pc, reg, mem), Initial(pc, reg, mem);
    RunLast(p0, n - 1);
    RunRefines(p0, a0, n - 1);
    RunRefines(p0, a0, n);
    SafeFromRun(a0, |Trace(p0, n - 1)|);
    SafeFromRun(a0, |Trace(p0, n)|);
    var q, b := Run(p0, n - 1), S.Run(a0, |Trace(p0, n - 1)|);
    if b.stat != SAOK {
      StoppedStays(q, b, 1);
      assert Run(q, 1) == Cycle(q);
    } else {
      DistanceFalls(q, b);
      if S.Run(a0, |Trace(p0, n)|).stat == SAOK {
        RetiresWithin(Run(p0, n), S.Run(a0, |Trace(p0, n)|), 4);
      }
    }
  }

  lemma {:induction false} RunLast(p: Pipe, n: nat)
    ensures Run(p, n + 1) == Cycle(Run(p, n))
    decreases n
  {
    hide Cycle;
    if n > 0 {
      RunLast(Cycle(p), n - 1);
    }
    assert n == 0 ==> Run(p, 1) == Run(Cycle(p), 0);
  }

  lemma {:induction false} SafeFromRun(a: Isa, n: nat)
    requires S.SafeFrom(a)
    ensures S.SafeFrom(S.Run(a, n))
    decreases n
  {
    hide S.Step, S.Plain, S.SafeFrom;
    if n > 0 {
      S.SafeFromStep(a);
      SafeFromRun(S.Step(a), n - 1);
    }
  }

  lemma {:induction false} StoppedStays(p: Pipe, a: Isa, n: nat)
    requires Inv(p, a) && a.stat != SAOK
    ensures Inv(Run(p, n), a)
    decreases n
  {
    hide S.Execute, FetchAt, Cycle, Running;
    if n > 0 {
      StoppedCycle(p, a);
      StoppedStays(Cycle(p), a, n - 1);
    }
  }

  /** Behind an instruction that stops the core nothing enters M: it is a bubble that writes nothing, and memory
      stays. */
  lemma NothingEntersM(p: Pipe)
    requires !p.suspend && (IsStop(p.m.mStat) || IsStop(p.w.stat))
    ensures var p' := Cycle(p); var m := p'.m;
      && m.stat == 0 && m.icode == 1 && m.dstE == 15 && m.dstM == 15 && m.valM == 0 && m.mStat == p.m.mStat
      && m.err == p.m.err && p'.mem == p.mem
  {
    Frames(p);
    hide StageW, StageE, StageD, StageF, S.AccessMem, LoadUse, RetInFlight, Mispredicted;
  }

  /** The fault flag of the memory stage is that of the last access: other instructions leave it alone. */
  lemma FaultFlag(p: Pipe)
    requires !p.suspend && !IsStop(p.m.mStat) && !IsStop(p.w.stat)
    ensures var m := Cycle(p).m; var e := p.e;
      && (e.icode in {4, 5, 8, 9, 0xA, 0xB, 0xD} ==> m.err == S.AccessMem(e.icode, e.valE, e.valA, p.mem).err)
      && (e.icode !in {4, 5, 8, 9, 0xA, 0xB, 0xD} ==> m.err == p.m.err && m.valM == p.m.valM)
  {
    Frames(p);
    hide StageE, StageD, StageF, S.AccessMem, LoadUse, RetInFlight, Mispredicted;
  }

  /** A bubble in E writes no register, computes 0 and leaves the codes alone. */
  lemma BubbleInE(p: Pipe)
    requires !p.suspend && PipeLogic(p).eBubble
    ensures var p' := Cycle(p); var e := p'.e;
      && e.stat == 0 && e.icode == 1 && e.ifun == 0 && e.valA == 0 && e.valE == 0
      && e.dstE == 15 && e.eDstE == 15 && e.dstM == 15 && p'.cc == p.cc
  {
    Frames(p);
    hide StageW, StageM, StageD, StageF, PipeLogic;
  }

  /** A bubble in D reads and writes no register. */
  lemma BubbleInD(p: Pipe)
    requires !p.suspend && PipeLogic(p).dBubble && !PipeLogic(p).dStall
    ensures var d := Cycle(p).d;
      && d.stat == 0 && d.icode == 1 && d.ifun == 0 && d.rA == 0 && d.rB == 0 && d.valC == 0 && d.valP == 0
      && d.srcA == 15 && d.srcB == 15 && d.dstE == 15 && d.dstM == 15
  {
    Frames(p);
    hide StageW, StageM, StageE, StageF, PipeLogic;
  }

  /** D reads the registers the instruction names, after the writes of this cycle, and keeps what it read last where the
      instruction names none. */
  lemma DecodeReads(p: Pipe)
    requires !p.suspend && !PipeLogic(p).dBubble
    ensures var p' := Cycle(p); var d := p'.d;
      && (d.srcA != 15 ==> d.rvalA == GetReg(p'.reg, d.srcA)) && (d.srcA == 15 ==> d.rvalA == p.d.rvalA)
      && (d.srcB != 15 ==> d.rvalB == GetReg(p'.reg, d.srcB)) && (d.srcB == 15 ==> d.rvalB == p.d.rvalB)
  {
    Frames(p);
    hide StageW, StageM, StageE, StageF, PipeLogic, Forward;
  }

  /** F keeps the registers and the constant it read last where an instruction has none. */
  lemma FetchReads(p: Pipe)
    requires !p.suspend
    ensures var f := Cycle(p).f; var ins := FetchWith(Cycle(p).mem, f.pc, f.imemError);
      && (if f.icode in {2, 3, 4, 5, 6, 0xA, 0xB, 0xC} then f.rA == ins.rA && f.rB == ins.rB
          else f.rA == p.f.rA && f.rB == p.f.rB)
      && f.valC == (if f.icode in {3, 4, 5, 7, 8, 0xE} then ins.valC else p.f.valC)
  {
    Frames(p);
    hide StageW, StageM, StageE, StageD, PipeLogic, FetchWith, SelectPC;
  }

  /** A core that has halted or faulted keeps its last instruction in W, however many cycles follow. */
  lemma {:induction false} LastStays(p: Pipe, n: nat)
    requires p.w.stat in {2, 3, 4}
    ensures Run(p, n).w == p.w && Run(p, n).reg == p.reg && Run(p, n).stat == p.stat
    decreases n
  {
    hide Cycle;
    if n > 0 {
      HeldW(p);
      LastStays(Cycle(p), n - 1);
    }
  }

  lemma HeldW(p: Pipe)
    requires p.w.stat in {2, 3, 4}
    ensures Cycle(p).w == p.w && Cycle(p).reg == p.reg && Cycle(p).stat == p.stat
  {
    var t := TakeSuspend(p);
    FrameM(PipeLogic(p), t);
    FrameE(PipeLogic(p), StageM(PipeLogic(p), t));
    FrameD(PipeLogic(p), StageE(PipeLogic(p), StageM(PipeLogic(p), t)));
    FrameF(PipeLogic(p), StageD(PipeLogic(p), StageE(PipeLogic(p), StageM(PipeLogic(p), t))));
    hide PipeLogic, StageM, StageE, StageD, StageF;
  }

  /** Precise stop: once a stopping instruction is in M, the registers, memory and condition codes it leaves are final,
      however many cycles follow and whatever is in flight behind it. */
  lemma PreciseStop(p: Pipe, a: Isa, n: nat)
    requires Inv(p, a) && a.stat == SAOK && AfterM(p, a).stat != SAOK && n >= 1
    ensures var q := Run(p, n); var a1 := AfterM(p, a);
      q.reg == a1.reg && q.mem == a1.mem && q.cc == a1.cc && q.stat == a1.stat
  {
    hide S.Execute, FetchAt, Cycle, Running, AfterM;
    StopInM(p, a);
    StoppedStays(Cycle(p), AfterM(p, a), n - 1);
  }

  /** Every run makes linear progress: four cycles per instruction are enough, after four to fill the pipeline. */
  lemma LinearProgress(pc: int, reg: Registers, mem: Memory, n: nat)
    requires |reg| == 8 && S.SafeFrom(Initial(pc, reg, mem))
    ensures IsStop(Run(Reset(pc, reg, mem), n).stat) || 4 * |Trace(Reset(pc, reg, mem), n)| >= n - 4
  {
    ResetInv(pc, reg, mem);
    Progress(Reset(pc, reg, mem), Initial(pc, reg, mem), n);
  }

  lemma {:induction false} Progress(p: Pipe, a: Isa, n: nat)
    requires Inv(p, a) && S.SafeFrom(a)
    ensures IsStop(Run(p, n).stat) || 4 * |Trace(p, n)| >= n - Distance(p) + 1
    decreases n
  {
    hide S.Execute, FetchAt, Cycle, MemorySlot, BehindM, S.SafeFrom, S.Step;
    if a.stat != SAOK {
      StoppedStays(p, a, n);
    } else if n > 0 {
      CycleKeepsInv(p, a);
      BackEnd(p, a);
      DistanceFalls(p, a);
      SafeAhead(p, a);
      Progress(Cycle(p), AfterM(p, a), n - 1);
    }
  }

  // ---------- where the guards come from ----------

  /** The hazard behind `leave`: D is held but E is not bubbled, so the waiting instruction enters E, with the
      operands it already had, and also stays in D. Any other load bubbles E instead. */
  lemma LeaveHazard(p: Pipe)
    requires !p.suspend && LoadUse(p.e, p.d) && p.d.icode != INOP
    ensures var p' := Cycle(p);
      && p'.d.icode == p.d.icode && p'.d.stat == p.d.stat && p'.d.valP == p.d.valP
      && (p'.e.icode == p.d.icode <==> p.e.icode == ILEAVE)
      && (p.e.icode == ILEAVE ==> p'.e.stat == p.d.stat && p'.e.valA == p.d.valA && p'.e.valB == p.d.valB)
  {
    hide FetchWith, S.AccessMem, AluCalc, AluCC, GetCnd, SelectPC, Forward, LatchF;
    Frames(p);
  }

  /** The flag set by one fetch out of range turns every later fetch into a nop with an address fault. */
  lemma {:induction false} ImemErrorSticks(p: Pipe, n: nat)
    requires p.f.imemError
    ensures Run(p, n).f.imemError
    ensures n > 0 ==> Run(p, n).f.icode == INOP && Run(p, n).f.stat == SADR
    decreases n
  {
    hide Cycle;
    if n > 0 {
      StickyStep(p);
      ImemErrorSticks(Cycle(p), n - 1);
      assert n == 1 ==> Run(p, n) == Run(Cycle(p), 0);
    }
  }

  lemma StickyStep(p: Pipe)
    requires p.f.imemError
    ensures var f := Cycle(p).f; f.imemError && f.icode == INOP && f.stat == SADR
  {
    hide PipeLogic, S.AccessMem, Decode, AluCalc, AluCC, GetCnd, SelectPC, ReadBytes;
  }
}
