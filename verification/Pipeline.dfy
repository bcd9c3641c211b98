/** One clock cycle of the five-stage pipeline, as functions on the values of its registers.
    Upper-case fields of the simulator are the first ones of each record, lower-case ones the later ones. */
module Pipeline {
  import opened Words
  import opened Y86
  import Sequential

  /** Fetch: predPC is F_predPC, nextPC is f_predPC, the rest are the f_ fields and imem_error. */
  datatype FetchReg = FetchReg(
    predPC: int, nextPC: int, pc: int, icode: int, ifun: int, rA: int, rB: int,
    valC: int, valP: int, stat: int, imemError: bool)

  /** Decode: the D_ fields, then d_srcA ... d_valB. */
  datatype DecodeReg = DecodeReg(
    stat: int, icode: int, ifun: int, rA: int, rB: int, valC: int, valP: int,
    srcA: int, srcB: int, dstE: int, dstM: int, rvalA: int, rvalB: int, valA: int, valB: int)

  /** Execute: the E_ fields, then e_valE, e_dstE and e_cnd. */
  datatype ExecuteReg = ExecuteReg(
    stat: int, icode: int, ifun: int, valC: int, valA: int, valB: int, dstE: int, dstM: int,
    srcA: int, srcB: int, valE: int, eDstE: int, cnd: bool)

  /** Memory: the M_ fields, then m_stat, m_valM and dmem_error. */
  datatype MemoryReg = MemoryReg(
    stat: int, icode: int, cnd: bool, valE: int, valA: int, dstE: int, dstM: int,
    mStat: int, valM: int, err: bool)

  /** Write-back: the W_ fields. */
  datatype WriteReg = WriteReg(stat: int, icode: int, valE: int, valM: int, dstE: int, dstM: int)

  datatype Pipe = Pipe(
    f: FetchReg, d: DecodeReg, e: ExecuteReg, m: MemoryReg, w: WriteReg,
    reg: Registers, cc: CC, mem: Memory, stat: int, suspend: bool, savedPC: seq<int>)

  datatype Control = Control(fStall: bool, dStall: bool, dBubble: bool, eBubble: bool, mBubble: bool)

  predicate LoadUse(e: ExecuteReg, d: DecodeReg) {
    e.icode in {IMRMOVL, IPOPL, ILEAVE} && (e.dstM == d.srcA || e.dstM == d.srcB)
  }

  predicate Mispredicted(e: ExecuteReg) {
    e.icode == IJXX && !e.cnd
  }

  predicate RetInFlight(d: DecodeReg, e: ExecuteReg, m: MemoryReg) {
    d.icode == IRET || e.icode == IRET || m.icode == IRET
  }

  function ControlOf(d: DecodeReg, e: ExecuteReg, m: MemoryReg, w: WriteReg, suspend: bool): Control {
    var loadUse := LoadUse(e, d);
    var ret := RetInFlight(d, e, m);
    Control(
      loadUse || ret || suspend,
      loadUse,
      Mispredicted(e) || (!loadUse && ret),
      Mispredicted(e) || (loadUse && e.icode != ILEAVE),
      IsStop(m.mStat) || IsStop(w.stat))
  }

  function PipeLogic(p: Pipe): Control {
    ControlOf(p.d, p.e, p.m, p.w, p.suspend)
  }

  /** A requested suspension marks the fetch stage with SSPD and is consumed. */
  function TakeSuspend(p: Pipe): Pipe {
    if p.suspend then p.(suspend := false, f := p.f.(stat := SSPD)) else p
  }

  function PopFront(q: seq<int>): seq<int> {
    if q == [] then q else q[1..]
  }

  predicate IsSyscallStat(stat: int) {
    stat == SSYS || stat == SSPD
  }

  function StageW(p: Pipe): Pipe {
    if p.w.stat in {SADR, SINS, SHLT} then p else
    var w := WriteReg(p.m.mStat, p.m.icode, p.m.valE, p.m.valM, p.m.dstE, p.m.dstM);
    p.(w := w,
       reg := SetReg(SetReg(p.reg, w.dstE, w.valE), w.dstM, w.valM),
       stat := if w.stat == SBUB then SAOK else w.stat)
  }

  /** The memory registers after stage M, given the value and the fault of the access, if there is one. */
  function LatchM(c: Control, e: ExecuteReg, m: MemoryReg, val: int, fault: bool): MemoryReg {
    if c.mBubble then
      m.(stat := SBUB, icode := INOP, valM := 0, dstE := RNONE, dstM := RNONE)
    else
      var err := if MemWrites(e.icode) || MemReads(e.icode) then fault else m.err;
      MemoryReg(e.stat, e.icode, e.cnd, e.valE, e.valA, e.eDstE, e.dstM,
                if err || (m.err && !MemWrites(e.icode)) then SADR else e.stat,
                if MemReads(e.icode) then val else m.valM, err)
  }

  function StageM(c: Control, p: Pipe): Pipe {
    var x := Sequential.AccessMem(p.e.icode, p.e.valE, p.e.valA, p.mem);
    p.(m := LatchM(c, p.e, p.m, x.val, x.err), mem := if c.mBubble then p.mem else x.mem)
  }

  function StageE(c: Control, p: Pipe): Pipe {
    if c.eBubble then
      p.(savedPC := if IsSyscallStat(p.e.stat) then PopFront(p.savedPC) else p.savedPC,
         e := p.e.(stat := SBUB, icode := INOP, ifun := 0, valE := 0, valA := 0,
                   eDstE := RNONE, dstE := RNONE, dstM := RNONE))
    else
      var d := p.d;
      var aluA := AluA(d.icode, d.valA, d.valC);
      var aluB := AluB(d.icode, d.valB);
      var fun := AluFun(d.icode, d.ifun);
      var setCC := SetsCC(d.icode) && !IsStop(p.m.mStat) && !IsStop(p.w.stat);
      var cc := if setCC then AluCC(aluA, aluB, fun, p.cc) else p.cc;
      var cnd := GetCnd(d.ifun, cc);
      p.(cc := cc,
         e := ExecuteReg(d.stat, d.icode, d.ifun, d.valC, d.valA, d.valB, d.dstE, d.dstM, d.srcA, d.srcB,
                         AluCalc(aluA, aluB, fun),
                         if d.icode == IRRMOVL && !cnd then RNONE else d.dstE,
                         cnd))
  }

  /** The forwarding network: the youngest older instruction that writes src wins. */
  function Forward(e: ExecuteReg, m: MemoryReg, w: WriteReg, src: int, rval: int): int {
    if src == e.eDstE then e.valE
    else if src == m.dstM then m.valM
    else if src == m.dstE then m.valE
    else if src == w.dstM then w.valM
    else if src == w.dstE then w.valE
    else rval
  }

  /** Register operands and forwarding for the instruction in D. */
  function Decode(p: Pipe): DecodeReg {
    var d := p.d;
    var srcA := SrcA(d.icode, d.rA);
    var srcB := SrcB(d.icode, d.rB);
    var rvalA := if srcA != RNONE then GetReg(p.reg, srcA) else d.rvalA;
    var rvalB := if srcB != RNONE then GetReg(p.reg, srcB) else d.rvalB;
    d.(srcA := srcA, srcB := srcB,
       dstE := DstE(d.icode, d.rB), dstM := DstM(d.icode, d.rA),
       rvalA := rvalA, rvalB := rvalB,
       valA := if d.icode in {ICALL, IJXX} then d.valP else Forward(p.e, p.m, p.w, srcA, rvalA),
       valB := Forward(p.e, p.m, p.w, srcB, rvalB))
  }

  function LatchD(f: FetchReg, d: DecodeReg): DecodeReg {
    d.(stat := f.stat, icode := f.icode, ifun := f.ifun, rA := f.rA, rB := f.rB, valC := f.valC, valP := f.valP)
  }

  function StageD(c: Control, p: Pipe): Pipe {
    if c.dStall then p.(d := Decode(p))
    else if c.dBubble then
      p.(savedPC := if IsSyscallStat(p.f.stat) then PopFront(p.savedPC) else p.savedPC,
         d := p.d.(stat := SBUB, icode := INOP, ifun := 0, rA := 0, rB := 0, valC := 0, valP := 0,
                   srcA := RNONE, srcB := RNONE, dstE := RNONE, dstM := RNONE))
    else
      var q := p.(d := LatchD(p.f, p.d));
      q.(d := Decode(q))
  }

  function SelectPC(m: MemoryReg, w: WriteReg, predPC: int): int {
    if m.icode == IJXX && !m.cnd then m.valA
    else if w.icode == IRET then w.valM
    else predPC
  }

  /** The fetch registers after instruction ins is fetched at pc. */
  function LatchF(f: FetchReg, ins: Instr, predPC: int, pc: int): FetchReg {
    FetchReg(
      predPC, PredPC(ins), pc, ins.icode, ins.ifun,
      if NeedRegids(ins.icode) then ins.rA else f.rA,
      if NeedRegids(ins.icode) then ins.rB else f.rB,
      if NeedValC(ins.icode) then ins.valC else f.valC,
      ins.valP,
      if ins.stat == SAOK && f.stat == SSPD then SSPD else ins.stat,
      f.imemError || !InRange(pc))
  }

  /** A fetched system call queues the address behind it. */
  function AfterFetch(p: Pipe, f: FetchReg): Pipe {
    p.(f := f, savedPC := if IsSyscallStat(f.stat) then p.savedPC + [f.nextPC] else p.savedPC)
  }

  function FetchPredPC(c: Control, f: FetchReg): int {
    if c.fStall then f.predPC else f.nextPC
  }

  function StageF(c: Control, p: Pipe): Pipe {
    var predPC := FetchPredPC(c, p.f);
    var pc := SelectPC(p.m, p.w, predPC);
    AfterFetch(p, LatchF(p.f, FetchWith(p.mem, pc, p.f.imemError || !InRange(pc)), predPC, pc))
  }

  /** The pipeline as core initialisation and context_switch leave it: the saved PC and registers, nothing in flight. */
  function Reset(pc: int, reg: Registers, mem: Memory): Pipe {
    Pipe(
      FetchReg(0, pc, 0, 0, 0, 0, 0, 0, 0, SAOK, false),
      DecodeReg(SAOK, 0, 0, RNONE, RNONE, 0, 0, RNONE, RNONE, RNONE, RNONE, 0, 0, 0, 0),
      ExecuteReg(SAOK, 0, 0, 0, 0, 0, RNONE, RNONE, RNONE, RNONE, 0, RNONE, false),
      MemoryReg(SAOK, 0, false, 0, 0, RNONE, RNONE, SAOK, 0, false),
      WriteReg(SAOK, 0, 0, 0, RNONE, RNONE),
      reg, CC(true, false, false), mem, SAOK, false, [])
  }

  /** Where a process starts: behind the header word of its file. */
  const FIRST_PC := 4

  function FirstRegisters(stackHigh: int): seq<int> {
    [0, 0, 0, 0, stackHigh, stackHigh, 0, 0]
  }

  /** One call of single_run: the stages run from W back to F under one set of control signals. */
  function Cycle(p: Pipe): Pipe {
    var c := PipeLogic(p);
    StageF(c, StageD(c, StageE(c, StageM(c, StageW(TakeSuspend(p))))))
  }

  // Each stage writes its own registers and the state it owns, and nothing else.

  lemma FrameW(p: Pipe)
    ensures var q := StageW(p); q == p.(w := q.w, reg := q.reg, stat := q.stat)
  {
  }

  lemma FrameM(c: Control, p: Pipe)
    ensures var q := StageM(c, p); q == p.(m := q.m, mem := q.mem)
  {
    hide Sequential.AccessMem, LatchM;
  }

  lemma FrameE(c: Control, p: Pipe)
    ensures var q := StageE(c, p); q == p.(e := q.e, cc := q.cc, savedPC := q.savedPC)
  {
    hide AluA, AluB, AluFun, AluCalc, AluCC, GetCnd;
  }

  lemma FrameD(c: Control, p: Pipe)
    ensures var q := StageD(c, p); q == p.(d := q.d, savedPC := q.savedPC)
  {
    hide Decode, LatchD;
  }

  lemma FrameF(c: Control, p: Pipe)
    ensures var q := StageF(c, p); q == p.(f := q.f, savedPC := q.savedPC)
  {
    hide FetchWith, LatchF;
  }

  /** A process put on a core has its registers, with ZF alone set and nothing pending; what is fetched first is the
      instruction at its PC, and no instruction is there before. */
  lemma ProcessStarts(pc: int, reg: Registers, mem: Memory)
    ensures var p := Reset(pc, reg, mem); var f := Cycle(p).f;
      && p.reg == reg && p.mem == mem && p.cc == CC(true, false, false) && p.stat == 1 && !p.suspend && p.savedPC == []
      && f.pc == pc
      && p.d.icode == p.e.icode == p.m.icode == p.w.icode == 0 && p.d.stat == p.e.stat == p.m.stat == p.w.stat == 1
      && p.f.predPC == p.f.pc == p.f.icode == p.f.ifun == p.f.rA == p.f.rB == p.f.valC == p.f.valP == 0
      && p.d.ifun == p.d.valC == p.d.valP == p.d.rvalA == p.d.rvalB == p.d.valA == p.d.valB == 0
      && p.e.ifun == p.e.valC == p.e.valA == p.e.valB == p.e.valE == 0 && !p.e.cnd
      && p.m.valE == p.m.valA == p.m.valM == p.w.valE == p.w.valM == 0 && !p.m.err && !p.f.imemError
      && p.e.eDstE == p.e.dstM == p.m.dstE == p.m.dstM == p.w.dstE == p.w.dstM == 15
      && p.d.srcA == p.d.srcB == p.d.dstE == p.d.dstM == p.d.rA == p.d.rB == 15
      && p.e.srcA == p.e.srcB == p.e.dstE == 15 && !p.m.cnd && p.m.mStat == 1 && p.f.stat == 1
  {
    hide Sequential.AccessMem, FetchWith;
  }

  /** One that has never run starts at 4, with its stack and frame pointers at the end of the stack and zeros
      elsewhere. */
  lemma NewProcessStarts(stackHigh: int, mem: Memory)
    ensures var p := Reset(FIRST_PC, FirstRegisters(stackHigh), mem);
      && Cycle(p).f.pc == 4 && |p.reg| == 8 && p.reg[4] == stackHigh && p.reg[5] == stackHigh
      && forall r :: 0 <= r < 8 && r != 4 && r != 5 ==> p.reg[r] == 0
  {
    ProcessStarts(FIRST_PC, FirstRegisters(stackHigh), mem);
    hide Cycle;
  }

  function Run(p: Pipe, n: nat): Pipe
    decreases n
  {
    if n == 0 then p else Run(Cycle(p), n - 1)
  }
}
