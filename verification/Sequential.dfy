/** The specification of the pipeline: a machine that runs one whole instruction at a time. */
module Sequential {
  import opened Words
  import opened Y86

  /** The programmer-visible state. A stopped machine has a status other than SAOK. */
  datatype Isa = Isa(pc: int, reg: Registers, cc: CC, mem: Memory, stat: int)

  /** Everything one instruction computes. */
  datatype Effect = Effect(
    ins: Instr, dstE: int, dstM: int, valA: int, valB: int, valE: int, cnd: bool,
    valM: int, mem: Memory, cc: CC, stat: int, pc: int)

  function SrcValA(a: Isa, ins: Instr): int {
    if ins.icode in {ICALL, IJXX} then ins.valP else GetReg(a.reg, SrcA(ins.icode, ins.rA))
  }

  function SrcValB(a: Isa, ins: Instr): int {
    GetReg(a.reg, SrcB(ins.icode, ins.rB))
  }

  datatype MemEffect = MemEffect(mem: Memory, val: int, err: bool)

  /** The memory stage of one instruction. */
  function AccessMem(icode: int, valE: int, valA: int, mem: Memory): MemEffect {
    var addr := MemAddr(icode, valE, valA);
    if MemWrites(icode) then
      var w := WriteWord(mem, addr, valA);
      MemEffect(w.mem, 0, w.err)
    else if MemReads(icode) then
      var r := ReadWord(mem, addr);
      MemEffect(mem, r.val, r.err)
    else MemEffect(mem, 0, false)
  }

  function NextPC(ins: Instr, cnd: bool, valM: int): int {
    if ins.icode == IJXX then (if cnd then ins.valC else ins.valP)
    else if ins.icode == ICALL then ins.valC
    else if ins.icode == IRET then valM
    else ins.valP
  }

  function Execute(a: Isa): Effect {
    var ins := FetchAt(a.mem, a.pc);
    var valA := SrcValA(a, ins);
    var valB := SrcValB(a, ins);
    var aluA := AluA(ins.icode, valA, ins.valC);
    var aluB := AluB(ins.icode, valB);
    var fun := AluFun(ins.icode, ins.ifun);
    var valE := AluCalc(aluA, aluB, fun);
    var cc := if SetsCC(ins.icode) then AluCC(aluA, aluB, fun, a.cc) else a.cc;
    var cnd := GetCnd(ins.ifun, cc);
    var dstE := if ins.icode == IRRMOVL && !cnd then RNONE else DstE(ins.icode, ins.rB);
    var m := AccessMem(ins.icode, valE, valA, a.mem);
    Effect(ins, dstE, DstM(ins.icode, ins.rA), valA, valB, valE, cnd, m.val, m.mem, cc,
           if m.err then SADR else ins.stat, NextPC(ins, cnd, m.val))
  }

  /** One instruction. A faulting instruction still writes its registers, as the core's W stage does. */
  function Step(a: Isa): Isa {
    if a.stat != SAOK then a else
    var x := Execute(a);
    Isa(x.pc, SetReg(SetReg(a.reg, x.dstE, x.valE), x.dstM, x.valM), x.cc, x.mem, x.stat)
  }

  function Run(a: Isa, n: nat): Isa
    decreases n
  {
    if n == 0 then a else Run(Step(a), n - 1)
  }

  /** What an instruction shows when it retires. */
  datatype Retired = Retired(icode: int, stat: int, dstE: int, valE: int, dstM: int, valM: int)

  function Retire(a: Isa): Retired {
    var x := Execute(a);
    Retired(x.ins.icode, x.stat, x.dstE, x.valE, x.dstM, if x.dstM == RNONE then 0 else x.valM)
  }

  /** The retirements of the first n instructions; a stopped machine retires nothing more. */
  function Trace(a: Isa, n: nat): seq<Retired>
    decreases n
  {
    if n == 0 || a.stat != SAOK then [] else [Retire(a)] + Trace(Step(a), n - 1)
  }

  // ---------- what the pipeline asks of a program ----------

  /** The register numbers an instruction uses are 0..7; the target of a move may also be RNONE. */
  predicate RegsOK(ins: Instr) {
    && (ins.icode in {IRRMOVL, IRMMOVL, IOPL, IPUSHL, ICMPL, IMRMOVL, IPOPL} ==> ins.rA < 8)
    && (ins.icode in {IOPL, IRMMOVL, IMRMOVL, ICMPL} ==> ins.rB < 8)
    && (ins.icode in {IRRMOVL, IIRMOVL} ==> ins.rB < 8 || ins.rB == RNONE)
  }

  /** After `leave`, the next instruction does not read %ebp: E is not bubbled for that hazard although D is stalled. */
  predicate LeaveOK(a: Isa) {
    var b := Step(a);
    var ins := FetchAt(b.mem, b.pc);
    b.stat == SAOK && FetchAt(a.mem, a.pc).icode == ILEAVE ==>
      SrcA(ins.icode, ins.rA) != REBP && SrcB(ins.icode, ins.rB) != REBP
  }

  /** The stores of the next two instructions do not change the bytes of the instruction fetched after them. */
  predicate FetchStable(a: Isa) {
    var b := Step(a);
    var c := Step(b);
    && (b.stat == SAOK ==> FetchAt(a.mem, b.pc) == FetchAt(b.mem, b.pc))
    && (c.stat == SAOK ==> FetchAt(a.mem, c.pc) == FetchAt(c.mem, c.pc))
  }

  predicate NotTaken(a: Isa) {
    var ins := FetchAt(a.mem, a.pc);
    ins.icode == IJXX && !GetCnd(ins.ifun, a.cc)
  }

  /** The two fetches made down the wrong path of a branch at b that is not taken are in range, as is the one made
      behind a `ret`. If not, the core sets its imem_error flag, which is never cleared. */
  predicate WrongPathOK(mem: Memory, b: Isa) {
    var ins := FetchAt(b.mem, b.pc);
    && (NotTaken(b) ==> InRange(ins.valC) && InRange(PredPC(FetchAt(mem, ins.valC))))
    && (ins.icode == IRET ==> InRange(ins.valP))
  }

  /** For the wrong path of the next instruction it makes no difference whether the store of this one is seen. */
  predicate WrongPathStable(a: Isa) {
    Step(a).stat == SAOK ==> (WrongPathOK(a.mem, Step(a)) <==> WrongPathOK(Step(a).mem, Step(a)))
  }

  /** An instruction with good register numbers that does not modify what is fetched right behind it. */
  predicate Plain(a: Isa) {
    RegsOK(FetchAt(a.mem, a.pc)) && FetchStable(a) && WrongPathStable(a)
  }

  /** One without the hazard behind `leave`, too. */
  predicate Tame(a: Isa) {
    Plain(a) && LeaveOK(a)
  }

  /** The wrong path behind an instruction does no harm: it is in range, or the next instruction is a fault anyway. */
  predicate PathOK(a: Isa) {
    Step(a).stat == SAOK && InRange(Step(a).pc) ==> WrongPathOK(a.mem, a)
  }

  predicate Safe(a: Isa) {
    Tame(a) && PathOK(a)
  }

  /** The condition on a program under which the pipeline is correct: every instruction it executes is safe. */
  ghost predicate SafeFrom(a: Isa) {
    forall k: nat :: Run(a, k).stat == SAOK ==> Safe(Run(a, k))
  }

  ghost predicate TameFrom(a: Isa) {
    forall k: nat :: Run(a, k).stat == SAOK ==> Tame(Run(a, k))
  }

  ghost predicate PathOKFrom(a: Isa) {
    forall k: nat :: Run(a, k).stat == SAOK ==> PathOK(Run(a, k))
  }

  lemma SafeFromStep(a: Isa)
    requires SafeFrom(a)
    ensures a.stat == SAOK ==> Safe(a)
    ensures SafeFrom(Step(a))
  {
    assert Run(a, 0) == a;
    forall k: nat | Run(Step(a), k).stat == SAOK
      ensures Safe(Run(Step(a), k))
    {
      assert Run(a, k + 1) == Run(Step(a), k);
    }
  }
}
