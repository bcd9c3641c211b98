/** What each instruction does: its effect on registers, condition codes, memory, PC and status, in plain arithmetic. */
module Instructions {
  import opened Words
  import opened Y86
  import opened Sequential
  import Conditions
  import WordAccess

  // ---------- words in memory ----------

  function Unsigned(a: int): int {
    a % 0x1_0000_0000
  }

  /** The byte of memory that a 32-bit address names. */
  function At(mem: Memory, addr: int): Byte {
    if Unsigned(addr) in mem then mem[Unsigned(addr)] else 0
  }

  /** Four bytes, little end first, as a signed number. */
  function WordAt(mem: Memory, addr: int): int {
    var u := At(mem, addr) + 0x100 * At(mem, addr + 1) + 0x1_0000 * At(mem, addr + 2) + 0x100_0000 * At(mem, addr + 3);
    if u < 0x8000_0000 then u else u - 0x1_0000_0000
  }

  /** A number as four bytes, little end first. */
  function WithWord(mem: Memory, addr: int, v: int): Memory {
    mem[Unsigned(addr) := v % 0x100]
       [Unsigned(addr + 1) := v / 0x100 % 0x100]
       [Unsigned(addr + 2) := v / 0x1_0000 % 0x100]
       [Unsigned(addr + 3) := v / 0x100_0000 % 0x100]
  }

  /** All four bytes are accessible. */
  predicate Accessible(mem: Memory, addr: int) {
    Unsigned(addr) in mem && Unsigned(addr + 1) in mem && Unsigned(addr + 2) in mem && Unsigned(addr + 3) in mem
  }

  predicate Is32(x: int) {
    -0x8000_0000 <= x < 0x8000_0000
  }

  /** Reduction to 32 bits, as a signed number. */
  function Signed(x: int): (r: int)
    ensures Is32(r) && (Is32(x) ==> r == x)
  {
    if Unsigned(x) < 0x8000_0000 then Unsigned(x) else Unsigned(x) - 0x1_0000_0000
  }

  lemma WrapIsSigned(x: int)
    ensures Wrap(x) == Signed(x) && IsInt(x) == Is32(x)
  {
  }

  lemma LoadsWord(mem: Memory, addr: int)
    ensures ReadWord(mem, addr) == if Accessible(mem, addr) then Access(WordAt(mem, addr), false) else Access(0, true)
  {
    assert forall i :: ToWord(i) == Unsigned(i);
    hide ToWord, Unsigned, ReadByte, At;
    assert forall i :: ReadByte(mem, i) == At(mem, i) by { SameBytes(mem); }
    assert ReadBytes(mem, addr + 4, 0) == 0;
    assert ReadBytes(mem, addr + 3, 1) == At(mem, addr + 3);
    assert ReadBytes(mem, addr + 2, 2) == At(mem, addr + 2) + 0x100 * At(mem, addr + 3);
    assert ReadBytes(mem, addr + 1, 3)
        == At(mem, addr + 1) + 0x100 * At(mem, addr + 2) + 0x1_0000 * At(mem, addr + 3);
    hide ReadBytes;
  }

  lemma SameBytes(mem: Memory)
    ensures forall i :: ReadByte(mem, i) == At(mem, i)
  {
  }

  /** A store writes the four bytes, or faults. */
  lemma StoresWord(mem: Memory, addr: int, v: int)
    ensures Accessible(mem, addr) ==> WriteWord(mem, addr, v) == Written(WithWord(mem, addr, v), false)
    ensures !Accessible(mem, addr) ==> WriteWord(mem, addr, v).err
  {
    assert forall i :: ToWord(i) == Unsigned(i);
    Quarters(v);
    hide ToWord, Unsigned;
    var m1 := mem[ToWord(addr) := v % 256];
    var m2 := m1[ToWord(addr + 1) := v / 256 % 256];
    var m3 := m2[ToWord(addr + 2) := v / 256 / 256 % 256];
    var m4 := m3[ToWord(addr + 3) := v / 256 / 256 / 256 % 256];
    assert WriteBytes(m4, addr + 4, v / 256 / 256 / 256 / 256, 0) == Written(m4, false);
    StoreStep(m3, addr + 3, v / 256 / 256 / 256, 1);
    StoreStep(m2, addr + 2, v / 256 / 256, 2);
    StoreStep(m1, addr + 1, v / 256, 3);
    StoreStep(mem, addr, v, 4);
    Distinct(addr);
    hide WriteBytes;
  }

  lemma StoreStep(mem: Memory, addr: int, v: int, n: nat)
    requires n > 0
    ensures WriteBytes(mem, addr, v, n) == if ToWord(addr) !in mem then Written(mem, true)
                                           else WriteBytes(mem[ToWord(addr) := v % 256], addr + 1, v / 256, n - 1)
  {
    hide ToWord;
  }

  lemma Distinct(addr: int)
    ensures Unsigned(addr) != Unsigned(addr + 1) && Unsigned(addr) != Unsigned(addr + 2)
         && Unsigned(addr) != Unsigned(addr + 3) && Unsigned(addr + 1) != Unsigned(addr + 2)
         && Unsigned(addr + 1) != Unsigned(addr + 3) && Unsigned(addr + 2) != Unsigned(addr + 3)
  {
  }

  lemma Quarters(v: int)
    ensures v / 256 / 256 == v / 0x1_0000 && v / 256 / 256 / 256 == v / 0x100_0000
  {
  }

  // ---------- decoding ----------

  /** The bytes an instruction takes. */
  function LengthOf(icode: int): int {
    if icode in {2, 6, 0xA, 0xB, 0xC} then 2
    else if icode in {3, 4, 5} then 6
    else if icode in {7, 8, 0xE} then 5
    else 1
  }

  /** How the bytes at a PC in range are read: operation and function, two registers, a constant, the address behind. */
  lemma Decoding(mem: Memory, pc: int)
    requires 0 <= pc < 65530
    ensures var ins := FetchAt(mem, pc);
      && ins.icode == At(mem, pc) / 16 && ins.ifun == At(mem, pc) % 16
      && (ins.icode in {2, 3, 4, 5, 6, 0xA, 0xB, 0xC} ==>
            ins.rA == At(mem, pc + 1) / 16 && ins.rB == At(mem, pc + 1) % 16)
      && (ins.icode in {3, 4, 5} ==> ins.valC == WordAt(mem, pc + 2))
      && (ins.icode in {7, 8, 0xE} ==> ins.valC == WordAt(mem, pc + 1))
      && ins.valP == pc + LengthOf(ins.icode)
      && ins.stat == if ins.icode == 0 then 2 else if ins.icode == 0xE then 5 else if ins.icode == 0xF then 4 else 1
  {
    var icode := At(mem, pc) / 16;
    SameBytes(mem);
    if icode in {3, 4, 5} {
      ConstantIs(mem, pc + 2);
    } else if icode in {7, 8, 0xE} {
      ConstantIs(mem, pc + 1);
    }
    hide ReadByte, ReadBytes, At;
  }

  lemma ConstantIs(mem: Memory, addr: int)
    ensures Wrap(ReadBytes(mem, addr, 4)) == WordAt(mem, addr)
  {
    SameBytes(mem);
    assert ReadBytes(mem, addr + 4, 0) == 0;
    assert ReadBytes(mem, addr + 3, 1) == At(mem, addr + 3);
    assert ReadBytes(mem, addr + 2, 2) == At(mem, addr + 2) + 0x100 * At(mem, addr + 3);
    assert ReadBytes(mem, addr + 1, 3)
        == At(mem, addr + 1) + 0x100 * At(mem, addr + 2) + 0x1_0000 * At(mem, addr + 3);
    hide ReadBytes, At, ReadByte;
  }

  // ---------- the effect of each instruction ----------

  /** A machine that runs, with 32-bit registers, at an instruction. */
  ghost predicate Runs(a: Isa, icode: int) {
    && a.stat == 1 && |a.reg| == 8 && (forall r :: 0 <= r < 8 ==> Is32(a.reg[r]))
    && FetchAt(a.mem, a.pc).icode == icode && (icode !in {0, 0xE, 0xF} ==> FetchAt(a.mem, a.pc).stat == 1)
  }

  /** The condition with this number: always, le, l, e, ne, (SF equals ZF), g. */
  predicate Holds(ifun: int, cc: CC) {
    match ifun
    case 0 => true
    case 1 => cc.sf != cc.of || cc.zf
    case 2 => cc.sf != cc.of
    case 3 => cc.zf
    case 4 => !cc.zf
    case 5 => cc.sf == cc.zf
    case 6 => cc.sf == cc.of && !cc.zf
    case _ => false
  }

  /** rrmovl and the conditional moves copy rA to rB, or do nothing but go on. */
  lemma Rrmovl(a: Isa)
    requires Runs(a, 2)
    requires var ins := FetchAt(a.mem, a.pc); ins.rA < 8 && ins.rB < 8
    ensures var ins := FetchAt(a.mem, a.pc);
      Step(a) == a.(pc := ins.valP,
                    reg := if Holds(ins.ifun, a.cc) then a.reg[ins.rB := a.reg[ins.rA]] else a.reg)
  {
    FetchRegs(a.mem, a.pc);
    hide FetchAt;
  }

  lemma FetchRegs(mem: Memory, pc: int)
    ensures var ins := FetchAt(mem, pc);
      ins.icode in {2, 3, 4, 5, 6, 0xA, 0xB, 0xC} ==> 0 <= ins.rA < 16 && 0 <= ins.rB < 16
  {
    hide ReadByte, ReadBytes;
  }

  lemma Irmovl(a: Isa)
    requires Runs(a, 3) && FetchAt(a.mem, a.pc).rB < 8
    ensures var ins := FetchAt(a.mem, a.pc); Step(a) == a.(pc := ins.valP, reg := a.reg[ins.rB := ins.valC])
  {
    FetchRegs(a.mem, a.pc);
    ConstantIs32(a.mem, a.pc);
    hide FetchAt;
  }

  lemma ConstantIs32(mem: Memory, pc: int)
    ensures Is32(FetchAt(mem, pc).valC)
  {
    hide ReadByte, ReadBytes;
  }

  /** rmmovl stores rA at rB + D. */
  lemma Rmmovl(a: Isa)
    requires Runs(a, 4)
    requires var ins := FetchAt(a.mem, a.pc); ins.rA < 8 && ins.rB < 8
    ensures var ins := FetchAt(a.mem, a.pc); var addr := Signed(a.reg[ins.rB] + ins.valC); var b := Step(a);
      && (Accessible(a.mem, addr) ==> b == a.(pc := ins.valP, mem := WithWord(a.mem, addr, a.reg[ins.rA])))
      && (!Accessible(a.mem, addr) ==> b == a.(pc := ins.valP, mem := b.mem, stat := 3))
  {
    FetchRegs(a.mem, a.pc);
    var ins := FetchAt(a.mem, a.pc);
    WrapIsSigned(a.reg[ins.rB] + ins.valC);
    StoresWord(a.mem, Signed(a.reg[ins.rB] + ins.valC), a.reg[ins.rA]);
    hide FetchAt, WriteBytes, Accessible, WithWord, Signed, Wrap;
  }

  /** mrmovl loads rA from rB + D; a load that faults leaves 0. */
  lemma Mrmovl(a: Isa)
    requires Runs(a, 5)
    requires var ins := FetchAt(a.mem, a.pc); ins.rA < 8 && ins.rB < 8
    ensures var ins := FetchAt(a.mem, a.pc); var addr := Signed(a.reg[ins.rB] + ins.valC);
      Step(a) == if Accessible(a.mem, addr) then a.(pc := ins.valP, reg := a.reg[ins.rA := WordAt(a.mem, addr)])
                 else a.(pc := ins.valP, reg := a.reg[ins.rA := 0], stat := 3)
  {
    FetchRegs(a.mem, a.pc);
    var ins := FetchAt(a.mem, a.pc);
    WrapIsSigned(a.reg[ins.rB] + ins.valC);
    LoadsWord(a.mem, Signed(a.reg[ins.rB] + ins.valC));
    hide FetchAt, ReadWord, Accessible, WordAt, Signed, Wrap;
  }

  /** The codes after an addition or subtraction whose exact result is x. */
  function Codes(x: int): CC {
    CC(Signed(x) == 0, Signed(x) < 0, !Is32(x))
  }

  /** addl rA,rB adds, subl rA,rB subtracts rA from rB. */
  lemma AddlSubl(a: Isa)
    requires Runs(a, 6)
    requires var ins := FetchAt(a.mem, a.pc); ins.rA < 8 && ins.rB < 8 && ins.ifun in {0, 1}
    ensures var ins := FetchAt(a.mem, a.pc);
      var x := if ins.ifun == 0 then a.reg[ins.rB] + a.reg[ins.rA] else a.reg[ins.rB] - a.reg[ins.rA];
      Step(a) == a.(pc := ins.valP, reg := a.reg[ins.rB := Signed(x)], cc := Codes(x))
  {
    FetchRegs(a.mem, a.pc);
    var ins := FetchAt(a.mem, a.pc);
    var vA, vB := a.reg[ins.rA], a.reg[ins.rB];
    AddCodes(vA, vB, a.cc);
    SubCodes(vA, vB, a.cc);
    hide FetchAt, AluCalc, AluCC, Codes, Signed;
  }

  lemma AddCodes(vA: int, vB: int, cc: CC)
    requires Is32(vA) && Is32(vB)
    ensures AluCalc(vA, vB, 0) == Signed(vB + vA) && AluCC(vA, vB, 0, cc) == Codes(vB + vA)
  {
    Conditions.AdditionFlags(vA, vB, cc);
    WrapIsSigned(vB + vA);
    hide Signed, Wrap;
  }

  lemma SubCodes(vA: int, vB: int, cc: CC)
    requires Is32(vA) && Is32(vB)
    ensures AluCalc(vA, vB, 1) == Signed(vB - vA) && AluCC(vA, vB, 1, cc) == Codes(vB - vA)
  {
    Conditions.SubtractionFlags(vA, vB, cc);
    WrapIsSigned(vB - vA);
    hide Signed, Wrap;
  }

  /** Bit k of a 32-bit number. */
  predicate Bit(x: int, k: nat) {
    Conditions.Bit(Unsigned(x), k)
  }

  /** andl and xorl work bit by bit; they never set OF. */
  lemma AndlXorl(a: Isa, k: nat)
    requires Runs(a, 6) && k < 32
    requires var ins := FetchAt(a.mem, a.pc); ins.rA < 8 && ins.rB < 8 && ins.ifun in {2, 3}
    ensures var ins := FetchAt(a.mem, a.pc); var vA, vB := a.reg[ins.rA], a.reg[ins.rB];
      var r := if |Step(a).reg| == 8 then Step(a).reg[ins.rB] else 0;
      && Step(a) == a.(pc := ins.valP, reg := a.reg[ins.rB := r], cc := CC(r == 0, r < 0, false)) && Is32(r)
      && (Bit(r, k) <==> if ins.ifun == 2 then Bit(vA, k) && Bit(vB, k) else Bit(vA, k) != Bit(vB, k))
  {
    FetchRegs(a.mem, a.pc);
    var ins := FetchAt(a.mem, a.pc);
    Conditions.BitwiseResult(a.reg[ins.rA], a.reg[ins.rB], k);
    hide FetchAt, Conditions.Bit, Combine;
  }

  /** Other function numbers clear rB and leave the codes alone. */
  lemma UndefinedOpl(a: Isa)
    requires Runs(a, 6)
    requires var ins := FetchAt(a.mem, a.pc); ins.rA < 8 && ins.rB < 8 && ins.ifun !in {0, 1, 2, 3}
    ensures var ins := FetchAt(a.mem, a.pc); Step(a) == a.(pc := ins.valP, reg := a.reg[ins.rB := 0])
  {
    FetchRegs(a.mem, a.pc);
    NoSuchFunction(a.mem, a.pc);
    hide FetchAt;
  }

  lemma NoSuchFunction(mem: Memory, pc: int)
    ensures 0 <= FetchAt(mem, pc).ifun < 16
  {
    hide ReadByte, ReadBytes;
  }

  /** cmpl compares rB with rA and writes no register. */
  lemma Cmpl(a: Isa)
    requires Runs(a, 0xC)
    requires var ins := FetchAt(a.mem, a.pc); ins.rA < 8 && ins.rB < 8
    ensures var ins := FetchAt(a.mem, a.pc);
      Step(a) == a.(pc := ins.valP, cc := Codes(a.reg[ins.rB] - a.reg[ins.rA]))
  {
    FetchRegs(a.mem, a.pc);
    var ins := FetchAt(a.mem, a.pc);
    SubCodes(a.reg[ins.rA], a.reg[ins.rB], a.cc);
    hide FetchAt, AluCalc, AluCC, Codes;
  }

  /** Jumps go to the constant if the condition holds. */
  lemma Jump(a: Isa)
    requires Runs(a, 7)
    ensures var ins := FetchAt(a.mem, a.pc);
      Step(a) == a.(pc := if Holds(ins.ifun, a.cc) then ins.valC else ins.valP)
  {
    hide FetchAt;
  }

  /** call pushes the address behind it. */
  lemma Call(a: Isa)
    requires Runs(a, 8)
    ensures var ins := FetchAt(a.mem, a.pc); var esp := Signed(a.reg[4] - 4); var b := Step(a);
      && (Accessible(a.mem, esp) ==>
            b == a.(pc := ins.valC, reg := a.reg[4 := esp], mem := WithWord(a.mem, esp, ins.valP)))
      && (!Accessible(a.mem, esp) ==> b == a.(pc := ins.valC, reg := a.reg[4 := esp], mem := b.mem, stat := 3))
  {
    var ins := FetchAt(a.mem, a.pc);
    WrapIsSigned(a.reg[4] - 4);
    StoresWord(a.mem, Signed(a.reg[4] - 4), ins.valP);
    hide FetchAt, WriteBytes, Accessible, WithWord, Signed, Wrap;
  }

  /** ret goes to the address on the stack. */
  lemma Ret(a: Isa)
    requires Runs(a, 9)
    ensures var esp := a.reg[4];
      Step(a) == if Accessible(a.mem, esp) then a.(pc := WordAt(a.mem, esp), reg := a.reg[4 := Signed(esp + 4)])
                 else a.(pc := 0, reg := a.reg[4 := Signed(esp + 4)], stat := 3)
  {
    WrapIsSigned(a.reg[4] + 4);
    LoadsWord(a.mem, a.reg[4]);
    hide FetchAt, ReadWord, Accessible, WordAt, Signed, Wrap;
  }

  /** pushl stores rA, as it was before, below the stack pointer. */
  lemma Pushl(a: Isa)
    requires Runs(a, 0xA) && FetchAt(a.mem, a.pc).rA < 8
    ensures var ins := FetchAt(a.mem, a.pc); var esp := Signed(a.reg[4] - 4); var b := Step(a);
      && (Accessible(a.mem, esp) ==>
            b == a.(pc := ins.valP, reg := a.reg[4 := esp], mem := WithWord(a.mem, esp, a.reg[ins.rA])))
      && (!Accessible(a.mem, esp) ==> b == a.(pc := ins.valP, reg := a.reg[4 := esp], mem := b.mem, stat := 3))
  {
    FetchRegs(a.mem, a.pc);
    var ins := FetchAt(a.mem, a.pc);
    WrapIsSigned(a.reg[4] - 4);
    StoresWord(a.mem, Signed(a.reg[4] - 4), a.reg[ins.rA]);
    hide FetchAt, WriteBytes, Accessible, WithWord, Signed, Wrap;
  }

  /** popl loads rA and moves the stack pointer; popl %esp keeps the loaded value. */
  lemma Popl(a: Isa)
    requires Runs(a, 0xB) && FetchAt(a.mem, a.pc).rA < 8
    ensures var ins := FetchAt(a.mem, a.pc); var esp := a.reg[4];
      Step(a) == if Accessible(a.mem, esp)
                 then a.(pc := ins.valP, reg := a.reg[4 := Signed(esp + 4)][ins.rA := WordAt(a.mem, esp)])
                 else a.(pc := ins.valP, reg := a.reg[4 := Signed(esp + 4)][ins.rA := 0], stat := 3)
  {
    FetchRegs(a.mem, a.pc);
    WrapIsSigned(a.reg[4] + 4);
    LoadsWord(a.mem, a.reg[4]);
    hide FetchAt, ReadWord, Accessible, WordAt, Signed, Wrap;
  }

  /** leave takes %ebp as the stack pointer and pops %ebp. */
  lemma Leave(a: Isa)
    requires Runs(a, 0xD)
    ensures var ins := FetchAt(a.mem, a.pc); var ebp := a.reg[5];
      Step(a) == if Accessible(a.mem, ebp)
                 then a.(pc := ins.valP, reg := a.reg[4 := Signed(ebp + 4)][5 := WordAt(a.mem, ebp)])
                 else a.(pc := ins.valP, reg := a.reg[4 := Signed(ebp + 4)][5 := 0], stat := 3)
  {
    WrapIsSigned(a.reg[5] + 4);
    LoadsWord(a.mem, a.reg[5]);
    hide FetchAt, ReadWord, Accessible, WordAt, Signed, Wrap;
  }

  /** nop goes on. halt, a system call, an unknown instruction and a fetch out of range stop the machine and change
      nothing else; the system call's PC is behind it. */
  lemma NothingElse(a: Isa)
    requires a.stat == 1 && |a.reg| == 8
    requires var ins := FetchAt(a.mem, a.pc); ins.icode in {0, 1, 0xE, 0xF} || !(0 <= a.pc < 65530)
    ensures var pc := a.pc; var icode := At(a.mem, pc) / 16;
      Step(a) == if !(0 <= pc < 65530) then a.(pc := pc + 1, stat := 3)
                 else if icode == 1 then a.(pc := pc + 1)
                 else if icode == 0 then a.(pc := pc + 1, stat := 2)
                 else if icode == 0xE then a.(pc := pc + 5, stat := 5)
                 else a.(pc := pc + 1, stat := 4)
  {
    if 0 <= a.pc < 65530 {
      Decoding(a.mem, a.pc);
    } else {
      OutOfRange(a.mem, a.pc);
    }
    hide FetchAt, At;
  }

  lemma OutOfRange(mem: Memory, pc: int)
    requires !(0 <= pc < 65530)
    ensures var ins := FetchAt(mem, pc); ins.icode == 1 && ins.ifun == 0 && ins.stat == 3 && ins.valP == pc + 1
  {
    hide ReadByte, ReadBytes;
  }

  /** Registers stay 32-bit numbers. */
  lemma RegistersFit(a: Isa)
    requires |a.reg| == 8 && forall r :: 0 <= r < 8 ==> Is32(a.reg[r])
    ensures |Step(a).reg| == 8 && forall r :: 0 <= r < 8 ==> Is32(Step(a).reg[r])
  {
    if a.stat == 1 {
      var x := Execute(a);
      assert Is32(x.valE) && Is32(x.valM) by {
        AluFits(AluA(x.ins.icode, x.valA, x.ins.valC), AluB(x.ins.icode, x.valB), AluFun(x.ins.icode, x.ins.ifun));
        AccessFits(x.ins.icode, x.valE, x.valA, a.mem);
        hide FetchAt, AluCalc, AluCC, GetCnd, AccessMem;
      }
      hide Execute;
    }
  }

  lemma AluFits(aluA: int, aluB: int, fun: int)
    ensures Is32(AluCalc(aluA, aluB, fun))
  {
    hide Combine;
  }

  lemma AccessFits(icode: int, valE: int, valA: int, mem: Memory)
    ensures Is32(AccessMem(icode, valE, valA, mem).val)
  {
    hide ReadBytes, WriteBytes;
  }

  /** Instructions that compute nothing have the value 0. */
  lemma NoValue(a: Isa)
    requires FetchAt(a.mem, a.pc).icode in {0, 1, 7, 0xE, 0xF}
    ensures var x := Execute(a); x.valE == 0 && x.dstE == 15 && x.dstM == 15 && x.cc == a.cc && x.mem == a.mem
  {
    hide FetchAt, GetCnd;
  }
}
