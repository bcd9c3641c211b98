/** The simulator's core object: its pipeline registers are overwritten stage by stage in each cycle.
    Every method is tied to the function of module Pipeline that says what it does to the whole state. */
module CoreObject {
  import opened Words
  import opened Y86
  import opened WordAccess
  import opened Pipeline

  /** byte << (8 * i) before truncation to 32 bits. */
  function Shift(byte: int, i: nat): int {
    byte * Pow256(i)
  }

  class Core {
    // the registers of each stage
    var F: FetchReg
    var D: DecodeReg
    var E: ExecuteReg
    var M: MemoryReg
    var W: WriteReg

    // control
    var control: Control
    var signal_suspend: bool

    // architectural state
    const REG: array<int>
    var ZF: bool
    var SF: bool
    var OF: bool
    var stat: int
    var saved_pc: seq<int>

    /** The bytes of the process that runs on this core. */
    var mem: Memory

    ghost predicate Valid()
      reads this
    {
      REG.Length == 8
    }

    ghost function View(): Pipe
      reads this, REG
    {
      Pipe(F, D, E, M, W, REG[..], CC(ZF, SF, OF), mem, stat, signal_suspend, saved_pc)
    }

    constructor (mem: Memory)
      ensures Valid() && fresh(REG) && this.mem == mem
    {
      REG := new int[8];
      this.mem := mem;
    }

    method LoadRegisters(saved: seq<int>)
      requires Valid() && |saved| == 8
      modifies REG
      ensures REG[..] == saved
    {
      var i := 0;
      while i < 8
        invariant 0 <= i <= 8
        invariant REG[..i] == saved[..i]
      {
        REG[i] := saved[i];
        i := i + 1;
      }
    }

    /** init() and the two branches of context_switch: a process that was saved goes on at its PC with its registers,
        and one that starts has its stack at the given address and begins at 4. */
    method Resume(saved: bool, pc: int, regs: seq<int>, stackHigh: int)
      requires Valid() && |regs| == 8
      modifies this`F, this`D, this`E, this`M, this`W, this`ZF, this`SF, this`OF, this`stat, this`signal_suspend,
               this`saved_pc, REG
      ensures View() == if saved then Reset(pc, regs, mem) else Reset(FIRST_PC, FirstRegisters(stackHigh), mem)
    {
      var p := Reset(if saved then pc else FIRST_PC, regs, mem);
      F, D, E, M, W := p.f, p.d, p.e, p.m, p.w;
      ZF, SF, OF := true, false, false;
      stat, signal_suspend, saved_pc := SAOK, false, [];
      LoadRegisters(if saved then regs else FirstRegisters(stackHigh));
    }

    // ---------- memory access ----------

    method ReadMemByte(addr: int) returns (b: Byte, error: bool)
      ensures b == ReadByte(mem, addr) && (error <==> ToWord(addr) !in mem)
    {
      if ToWord(addr) in mem {
        b, error := mem[ToWord(addr)], false;
      } else {
        b, error := 0, true;
      }
    }

    method WriteMemByte(addr: int, b: Byte) returns (error: bool)
      modifies this`mem
      ensures error <==> ToWord(addr) !in old(mem)
      ensures mem == if error then old(mem) else old(mem)[ToWord(addr) := b]
    {
      error := ToWord(addr) !in mem;
      if !error {
        mem := mem[ToWord(addr) := b];
      }
    }

    method ReadMem(addr: int) returns (res: int, error: bool)
      ensures Access(res, error) == ReadWord(mem, addr)
    {
      res, error := 0, false;
      var i := 0;
      while i < 4
        invariant 0 <= i <= 4 && !error
        invariant AllReadable(mem, addr, i)
        invariant res == Wrap(ReadBytes(mem, addr, i))
      {
        var t: Byte;
        t, error := ReadMemByte(addr + i);
        if error {
          return 0, true;
        }
        ReadBytesSnoc(mem, addr, i);
        WrapAdd(ReadBytes(mem, addr, i), Shift(t, i));
        res := Wrap(res + Wrap(Shift(t, i)));
        i := i + 1;
      }
    }

    method WriteMem(addr: int, val: int) returns (error: bool)
      modifies this`mem
      ensures Written(mem, error) == WriteWord(old(mem), addr, val)
    {
      error := false;
      var i, v := 0, val;
      while i < 4
        invariant 0 <= i <= 4 && !error
        invariant WriteBytes(old(mem), addr, val, 4) == WriteBytes(mem, addr + i, v, 4 - i)
      {
        error := WriteMemByte(addr + i, v % 256);
        if error {
          return;
        }
        v := v / 256;
        i := i + 1;
      }
    }

    // ---------- ALU ----------

    method Alucalc(aluA: int, aluB: int, alufun: int, setcc: bool) returns (res: int)
      modifies this`ZF, this`SF, this`OF
      ensures res == AluCalc(aluA, aluB, alufun)
      ensures CC(ZF, SF, OF) == if setcc then AluCC(aluA, aluB, alufun, old(CC(ZF, SF, OF))) else old(CC(ZF, SF, OF))
    {
      match alufun {
        case 0 => res := Wrap(aluB + aluA);
        case 1 => res := Wrap(aluB - aluA);
        case 2 => res := BitAnd(aluB, aluA);
        case 3 => res := BitXor(aluB, aluA);
        case _ => return 0;
      }
      if setcc {
        if res == 0 { ZF := true; } else { ZF := false; }
        if res < 0 { SF := true; } else { SF := false; }
        if (alufun == ALUADD && (aluA < 0) == (aluB < 0) && (aluA < 0) != (res < 0))
           || (alufun == ALUSUB && (aluB < 0) == (aluA > 0) && (aluB < 0) != (res < 0)) {
          OF := true;
        } else {
          OF := false;
        }
      }
    }

    // ---------- control logic and stages ----------

    /** A pending request to suspend is taken once, and marks the fetch stage. */
    method ConsumeSuspend() returns (taken: bool)
      modifies this`signal_suspend, this`F
      ensures taken == old(signal_suspend) && View() == TakeSuspend(old(View()))
    {
      taken := signal_suspend;
      if signal_suspend {
        signal_suspend := false;
        F := F.(stat := SSPD);
      }
    }

    method PipelineLogic()
      modifies this`control, this`signal_suspend, this`F
      ensures control == PipeLogic(old(View())) && View() == TakeSuspend(old(View()))
    {
      var loadUse := E.icode in {IMRMOVL, IPOPL, ILEAVE} && (E.dstM == D.srcA || E.dstM == D.srcB);
      var ret := D.icode == IRET || E.icode == IRET || M.icode == IRET;
      var mispredicted := E.icode == IJXX && !E.cnd;
      var stop := IsStop(M.mStat) || IsStop(W.stat);
      assert PipeLogic(View()) == Control(
          loadUse || ret || signal_suspend, loadUse, mispredicted || (!loadUse && ret),
          mispredicted || (loadUse && E.icode != ILEAVE), stop);
      hide PipeLogic, IsStop, TakeSuspend;
      var suspended := ConsumeSuspend();
      control := Control(
        loadUse || ret || suspended, loadUse, mispredicted || (!loadUse && ret),
        mispredicted || (loadUse && E.icode != ILEAVE), stop);
    }

    method SetRegister(r: int, v: int)
      requires Valid()
      modifies REG
      ensures REG[..] == SetReg(old(REG[..]), r, v)
    {
      if 0 <= r < 8 {
        REG[r] := v;
      }
    }

    method StageWrite()
      requires Valid()
      modifies this`W, this`stat, REG
      ensures Valid()
      ensures View() == StageW(old(View()))
    {
      if W.stat in {SADR, SINS, SHLT} {
        return;
      }
      W := W.(stat := M.mStat, icode := M.icode, valE := M.valE, valM := M.valM, dstE := M.dstE, dstM := M.dstM);
      SetRegister(W.dstE, W.valE);
      SetRegister(W.dstM, W.valM);
      stat := if W.stat == SBUB then SAOK else W.stat;
    }

    method StageMemory()
      requires Valid()
      modifies this`M, this`mem
      ensures View() == StageM(control, old(View()))
    {
      if control.mBubble {
        M := M.(stat := SBUB, icode := INOP, valM := 0, dstE := RNONE, dstM := RNONE);
        return;
      }
      M := M.(stat := E.stat, icode := E.icode, cnd := E.cnd, valE := E.valE, valA := E.valA,
              dstE := E.eDstE, dstM := E.dstM);
      M := M.(mStat := M.stat);
      var addr := MemAddr(M.icode, M.valE, M.valA);
      if MemWrites(M.icode) {
        var error := WriteMem(addr, M.valA);
        M := M.(err := error);
      }
      if M.err {
        M := M.(mStat := SADR);
      }
      if MemReads(M.icode) {
        var val, error := ReadMem(addr);
        M := M.(valM := val, err := error);
      }
      if M.err {
        M := M.(mStat := SADR);
      }
    }

    method PopSavedPC()
      modifies this`saved_pc
      ensures saved_pc == PopFront(old(saved_pc))
    {
      if saved_pc != [] {
        saved_pc := saved_pc[1..];
      }
    }

    method StageExecute()
      requires Valid()
      modifies this`E, this`ZF, this`SF, this`OF, this`saved_pc
      ensures View() == StageE(control, old(View()))
    {
      if control.eBubble {
        if E.stat == SSYS || E.stat == SSPD {
          PopSavedPC();
        }
        E := E.(stat := SBUB, icode := INOP, ifun := 0, valE := 0, valA := 0, eDstE := RNONE,
                dstE := RNONE, dstM := RNONE);
        return;
      }
      E := E.(stat := D.stat, icode := D.icode, ifun := D.ifun, valC := D.valC, dstE := D.dstE,
              dstM := D.dstM, srcA := D.srcA, srcB := D.srcB, valA := D.valA, valB := D.valB);

      var aluA := 0;
      if E.icode in {IRRMOVL, IOPL, ICMPL} {
        aluA := E.valA;
      } else if E.icode in {IIRMOVL, IRMMOVL, IMRMOVL} {
        aluA := E.valC;
      } else if E.icode in {ICALL, IPUSHL} {
        aluA := -4;
      } else if E.icode in {IRET, IPOPL, ILEAVE} {
        aluA := 4;
      }
      var aluB := 0;
      if E.icode in {IRMMOVL, IMRMOVL, IOPL, ICALL, IPUSHL, IRET, IPOPL, ICMPL, ILEAVE} {
        aluB := E.valB;
      }
      var alufun := ALUADD;
      if E.icode == IOPL {
        alufun := E.ifun;
      } else if E.icode == ICMPL {
        alufun := ALUSUB;
      }
      hide AluCalc, AluCC, GetCnd, IsStop;
      var setCC := (E.icode == IOPL || E.icode == ICMPL) && !IsStop(M.mStat) && !IsStop(W.stat);
      var valE := Alucalc(aluA, aluB, alufun, setCC);
      var cnd := GetCnd(E.ifun, CC(ZF, SF, OF));
      E := E.(valE := valE, cnd := cnd, eDstE := if E.icode == IRRMOVL && !cnd then RNONE else E.dstE);
    }

    /** The forwarding network for one source register. */
    method SelectForward(src: int, rval: int) returns (v: int)
      ensures v == Forward(E, M, W, src, rval)
    {
      if src == E.eDstE {
        v := E.valE;
      } else if src == M.dstM {
        v := M.valM;
      } else if src == M.dstE {
        v := M.valE;
      } else if src == W.dstM {
        v := W.valM;
      } else if src == W.dstE {
        v := W.valE;
      } else {
        v := rval;
      }
    }

    /** The second half of stage D: operands of the instruction in the D_ fields. */
    method UpdateD()
      requires Valid()
      modifies this`D
      ensures D == Decode(old(View()))
    {
      var srcA := SrcA(D.icode, D.rA);
      var rvalA := D.rvalA;
      if srcA != RNONE {
        rvalA := if 0 <= srcA < 8 then REG[srcA] else 0;
      }
      var srcB := SrcB(D.icode, D.rB);
      var rvalB := D.rvalB;
      if srcB != RNONE {
        rvalB := if 0 <= srcB < 8 then REG[srcB] else 0;
      }
      var valA := SelectForward(srcA, rvalA);
      if D.icode in {ICALL, IJXX} {
        valA := D.valP;
      }
      var valB := SelectForward(srcB, rvalB);
      D := D.(srcA := srcA, srcB := srcB, dstE := DstE(D.icode, D.rB), dstM := DstM(D.icode, D.rA),
              rvalA := rvalA, rvalB := rvalB, valA := valA, valB := valB);
    }

    method StageDecode()
      requires Valid()
      modifies this`D, this`saved_pc
      ensures View() == StageD(control, old(View()))
    {
      if !control.dStall {
        D := D.(stat := F.stat, ifun := F.ifun, icode := F.icode, valP := F.valP, valC := F.valC,
                rA := F.rA, rB := F.rB);
        if control.dBubble {
          if D.stat == SSYS || D.stat == SSPD {
            PopSavedPC();
          }
          D := D.(stat := SBUB, icode := INOP, ifun := 0, rA := 0, rB := 0, valC := 0, valP := 0,
                  srcA := RNONE, srcB := RNONE, dstE := RNONE, dstM := RNONE);
          return;
        }
      }
      UpdateD();
    }

    /** The constant word of an instruction, little end first; bytes that cannot be read count as 0. */
    method ReadConstant(addr: int) returns (valC: int)
      ensures valC == Wrap(ReadBytes(mem, addr, 4))
    {
      valC := 0;
      for i := 0 to 4
        invariant valC == Wrap(ReadBytes(mem, addr, i))
      {
        var b, _ := ReadMemByte(addr + i);
        ReadBytesSnoc(mem, addr, i);
        WrapAdd(ReadBytes(mem, addr, i), Shift(b, i));
        valC := Wrap(valC + Wrap(Shift(b, i)));
      }
    }

    /** Mispredicted branches and returns redirect the fetch. */
    method PickPC(predPC: int) returns (pc: int)
      ensures pc == SelectPC(M, W, predPC)
    {
      if M.icode == IJXX && !M.cnd {
        pc := M.valA;
      } else if W.icode == IRET {
        pc := W.valM;
      } else {
        pc := predPC;
      }
    }

    method FetchStatus(icode: int, imemError: bool, stat: int) returns (s: int)
      requires 0 <= icode < 16
      ensures s == if FetchStat(icode, imemError) == SAOK && stat == SSPD then SSPD else FetchStat(icode, imemError)
    {
      var instrValid := icode in {INOP, IHALT, IRRMOVL, IIRMOVL, IRMMOVL, IMRMOVL, IOPL, ICMPL, IJXX, ICALL, IRET,
                                  IPUSHL, IPOPL, ILEAVE, ISYSCALL};
      if imemError {
        s := SADR;
      } else if !instrValid {
        s := SINS;
      } else if icode == IHALT {
        s := SHLT;
      } else if icode == ISYSCALL {
        s := SSYS;
      } else if stat != SSPD {
        s := SAOK;
      } else {
        s := SSPD;
      }
    }

    /** The register byte and the constant word of an instruction whose first byte is decoded. */
    method FetchOperands(icode: int, pc: int, rA0: int, rB0: int, valC0: int)
      returns (rA: int, rB: int, valC: int, valP: int)
      ensures forall err :: var ins := FetchWith(mem, pc, err); ins.icode == icode ==>
        && valP == ins.valP
        && (if NeedRegids(icode) then rA == ins.rA && rB == ins.rB else rA == rA0 && rB == rB0)
        && (if NeedValC(icode) then valC == ins.valC else valC == valC0)
    {
      hide ReadBytes, ReadByte, Wrap;
      rA, rB, valC, valP := rA0, rB0, valC0, pc + 1;
      if NeedRegids(icode) {
        var regs, _ := ReadMemByte(valP);
        rA, rB, valP := regs / 16, regs % 16, valP + 1;
      }
      if NeedValC(icode) {
        valC := ReadConstant(valP);
        valP := valP + 4;
      }
    }

    method StageFetch()
      requires Valid()
      modifies this`F, this`saved_pc
      ensures View() == StageF(control, old(View()))
    {
      hide ReadByte, SelectPC;
      var predPC := if control.fStall then F.predPC else F.nextPC;
      var pc := PickPC(predPC);
      var imemError := F.imemError || pc < 0 || pc >= FETCH_LIMIT;
      var b, _ := ReadMemByte(pc);
      var icode, ifun := if imemError then INOP else b / 16, if imemError then 0 else b % 16;
      ghost var ins := FetchWith(mem, pc, imemError);
      assert ins.icode == icode && ins.ifun == ifun && ins.stat == FetchStat(icode, imemError);
      hide FetchWith;
      var s := FetchStatus(icode, imemError, F.stat);
      var rA, rB, valC, valP := FetchOperands(icode, pc, F.rA, F.rB, F.valC);
      hide FetchStat, NeedRegids, NeedValC;
      var nextPC := if icode in {IJXX, ICALL} then valC else valP;
      F := FetchReg(predPC, nextPC, pc, icode, ifun, rA, rB, valC, valP, s, imemError);
      if s == SSYS || s == SSPD {
        saved_pc := saved_pc + [nextPC];
      }
    }

    /** One clock cycle. */
    method SingleRun()
      requires Valid()
      modifies this, REG
      ensures Valid() && View() == Cycle(old(View()))
    {
      hide PipeLogic, TakeSuspend, StageW, StageM, StageE, StageD, StageF, View;
      PipelineLogic();
      StageWrite();
      StageMemory();
      StageExecute();
      StageDecode();
      StageFetch();
    }
  }
}
