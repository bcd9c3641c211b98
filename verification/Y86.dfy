/** The Y86 instruction set as the simulator's core implements it: instruction and status codes,
    the ALU, the condition codes, word access to memory, and the register operands of each instruction. */
module Y86 {
  import opened Words

  const IHALT := 0
  const INOP := 1
  const IRRMOVL := 2
  const IIRMOVL := 3
  const IRMMOVL := 4
  const IMRMOVL := 5
  const IOPL := 6
  const IJXX := 7
  const ICALL := 8
  const IRET := 9
  const IPUSHL := 0xA
  const IPOPL := 0xB
  const ICMPL := 0xC
  const ILEAVE := 0xD
  const ISYSCALL := 0xE

  const REAX := 0
  const REBX := 3
  const RESP := 4
  const REBP := 5
  const RNONE := 0xF

  const SBUB := 0
  const SAOK := 1
  const SHLT := 2
  const SADR := 3
  const SINS := 4
  const SSYS := 5
  const SSPD := 6

  const ALUADD := 0
  const ALUSUB := 1
  const ALUAND := 2
  const ALUXOR := 3

  /** Fetches are allowed in [0, FETCH_LIMIT). */
  const FETCH_LIMIT := 65530

  /** A status that stops the core. */
  predicate IsStop(stat: int) {
    stat in {SADR, SINS, SHLT, SSYS, SSPD}
  }

  datatype CC = CC(zf: bool, sf: bool, of: bool)

  function Xor(a: bool, b: bool): bool {
    a != b
  }

  /** Whether the condition numbered ifun holds; `jge` tests SF against ZF. */
  function GetCnd(ifun: int, cc: CC): bool {
    match ifun
    case 0 => true
    case 1 => Xor(cc.sf, cc.of) || cc.zf
    case 2 => Xor(cc.sf, cc.of)
    case 3 => cc.zf
    case 4 => !cc.zf
    case 5 => !Xor(cc.sf, cc.zf)
    case 6 => !(Xor(cc.sf, cc.of) || cc.zf)
    case _ => false
  }

  function AluCalc(aluA: int, aluB: int, alufun: int): int {
    match alufun
    case 0 => Wrap(aluB + aluA)
    case 1 => Wrap(aluB - aluA)
    case 2 => BitAnd(aluB, aluA)
    case 3 => BitXor(aluB, aluA)
    case _ => 0
  }

  /** The condition codes after an operation that sets them. An undefined operation leaves them alone. */
  function AluCC(aluA: int, aluB: int, alufun: int, cc: CC): CC {
    if !(0 <= alufun < 4) then cc else
    var res := AluCalc(aluA, aluB, alufun);
    CC(res == 0,
       res < 0,
       || (alufun == ALUADD && (aluA < 0) == (aluB < 0) && (aluA < 0) != (res < 0))
       || (alufun == ALUSUB && (aluB < 0) == (aluA > 0) && (aluB < 0) != (res < 0)))
  }

  // ---------- memory, as one process sees it ----------

  /** The bytes a process may access, by unsigned address. */
  type Memory = map<int, Byte>

  datatype Access = Access(val: int, err: bool)

  /** A byte read; an inaccessible byte reads as 0. */
  function ReadByte(mem: Memory, addr: int): Byte {
    if ToWord(addr) in mem then mem[ToWord(addr)] else 0
  }

  /** n bytes, little end first, as an unsigned number. */
  function ReadBytes(mem: Memory, addr: int, n: nat): int
    decreases n
  {
    if n == 0 then 0 else ReadByte(mem, addr) + 256 * ReadBytes(mem, addr + 1, n - 1)
  }

  predicate AllReadable(mem: Memory, addr: int, n: nat) {
    forall i :: addr <= i < addr + n ==> ToWord(i) in mem
  }

  function ReadWord(mem: Memory, addr: int): Access {
    if AllReadable(mem, addr, 4) then Access(Wrap(ReadBytes(mem, addr, 4)), false) else Access(0, true)
  }

  datatype Written = Written(mem: Memory, err: bool)

  /** Stores the n low bytes of val, stopping at the first inaccessible byte. */
  function WriteBytes(mem: Memory, addr: int, val: int, n: nat): Written
    decreases n
  {
    if n == 0 then Written(mem, false)
    else if ToWord(addr) !in mem then Written(mem, true)
    else WriteBytes(mem[ToWord(addr) := val % 256], addr + 1, val / 256, n - 1)
  }

  function WriteWord(mem: Memory, addr: int, val: int): Written {
    WriteBytes(mem, addr, val, 4)
  }

  // ---------- instructions ----------

  /** A fetched instruction; fields the encoding does not carry hold RNONE and 0. */
  datatype Instr = Instr(icode: int, ifun: int, rA: int, rB: int, valC: int, valP: int, stat: int)

  predicate NeedRegids(icode: int) {
    icode in {IRRMOVL, IOPL, ICMPL, IPUSHL, IPOPL, IIRMOVL, IRMMOVL, IMRMOVL}
  }

  predicate NeedValC(icode: int) {
    icode in {IIRMOVL, IRMMOVL, IMRMOVL, IJXX, ICALL, ISYSCALL}
  }

  predicate InstrValid(icode: int) {
    0 <= icode <= 0xE
  }

  function FetchStat(icode: int, imemError: bool): int {
    if imemError then SADR
    else if !InstrValid(icode) then SINS
    else if icode == IHALT then SHLT
    else if icode == ISYSCALL then SSYS
    else SAOK
  }

  predicate InRange(pc: int) {
    0 <= pc < FETCH_LIMIT
  }

  function IcodeOf(b: Byte, imemError: bool): int {
    if imemError then INOP else b / 16
  }

  /** Where the constant of an instruction starts. */
  function ConstantAt(icode: int, pc: int): int {
    if NeedRegids(icode) then pc + 2 else pc + 1
  }

  /** The instruction at pc, from its first byte, its register byte and its constant, as far as it has them. Under
      imemError it becomes a nop with status SADR. */
  function InstrOf(pc: int, b: Byte, regs: Byte, constant: int, imemError: bool): Instr {
    var icode := IcodeOf(b, imemError);
    Instr(
      icode,
      if imemError then 0 else b % 16,
      if NeedRegids(icode) then regs / 16 else RNONE,
      if NeedRegids(icode) then regs % 16 else RNONE,
      if NeedValC(icode) then Wrap(constant) else 0,
      if NeedValC(icode) then ConstantAt(icode, pc) + 4 else ConstantAt(icode, pc),
      FetchStat(icode, imemError))
  }

  /** Decodes the bytes at pc. */
  function FetchWith(mem: Memory, pc: int, imemError: bool): Instr {
    var b := ReadByte(mem, pc);
    InstrOf(pc, b, ReadByte(mem, pc + 1), ReadBytes(mem, ConstantAt(IcodeOf(b, imemError), pc), 4), imemError)
  }

  function FetchAt(mem: Memory, pc: int): Instr {
    FetchWith(mem, pc, !InRange(pc))
  }

  /** The next PC, with branches predicted taken. */
  function PredPC(ins: Instr): int {
    if ins.icode in {IJXX, ICALL} then ins.valC else ins.valP
  }

  function SrcA(icode: int, rA: int): int {
    if icode in {IRRMOVL, IRMMOVL, IOPL, IPUSHL, ICMPL} then rA
    else if icode in {IPOPL, IRET} then RESP
    else if icode == ILEAVE then REBP
    else RNONE
  }

  function SrcB(icode: int, rB: int): int {
    if icode in {IOPL, IRMMOVL, IMRMOVL, ICMPL} then rB
    else if icode in {IPUSHL, IPOPL, ICALL, IRET} then RESP
    else if icode == ILEAVE then REBP
    else RNONE
  }

  function DstE(icode: int, rB: int): int {
    if icode in {IRRMOVL, IIRMOVL, IOPL} then rB
    else if icode in {IPUSHL, IPOPL, ICALL, IRET, ILEAVE} then RESP
    else RNONE
  }

  function DstM(icode: int, rA: int): int {
    if icode in {IMRMOVL, IPOPL} then rA
    else if icode == ILEAVE then REBP
    else RNONE
  }

  function AluA(icode: int, valA: int, valC: int): int {
    if icode in {IRRMOVL, IOPL, ICMPL} then valA
    else if icode in {IIRMOVL, IRMMOVL, IMRMOVL} then valC
    else if icode in {ICALL, IPUSHL} then -4
    else if icode in {IRET, IPOPL, ILEAVE} then 4
    else 0
  }

  function AluB(icode: int, valB: int): int {
    if icode in {IRMMOVL, IMRMOVL, IOPL, ICALL, IPUSHL, IRET, IPOPL, ICMPL, ILEAVE} then valB else 0
  }

  function AluFun(icode: int, ifun: int): int {
    if icode == IOPL then ifun else if icode == ICMPL then ALUSUB else ALUADD
  }

  predicate SetsCC(icode: int) {
    icode in {IOPL, ICMPL}
  }

  predicate MemReads(icode: int) {
    icode in {IMRMOVL, IPOPL, IRET, ILEAVE}
  }

  predicate MemWrites(icode: int) {
    icode in {IRMMOVL, IPUSHL, ICALL}
  }

  function MemAddr(icode: int, valE: int, valA: int): int {
    if icode in {IRMMOVL, IPUSHL, ICALL, IMRMOVL} then valE else valA
  }

  // ---------- register file ----------

  type Registers = seq<int>

  function GetReg(reg: Registers, r: int): int {
    if 0 <= r < |reg| then reg[r] else 0
  }

  function SetReg(reg: Registers, r: int, v: int): (r': Registers)
    ensures |r'| == |reg|
  {
    if 0 <= r < |reg| then reg[r := v] else reg
  }
}
