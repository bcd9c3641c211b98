/** The bytes the assembler emits for an instruction, read back by the fetch stage. */
module AssemblerFetch {
  import opened Words
  import opened Assembler
  import Y86
  import WordAccess

  function Icode(op: Op): int {
    match op
    case Nop => Y86.INOP
    case Halt => Y86.IHALT
    case Rrmovl | Cmovle | Cmovl | Cmove | Cmovne | Cmovge | Cmovg => Y86.IRRMOVL
    case Irmovl => Y86.IIRMOVL
    case Rmmovl => Y86.IRMMOVL
    case Mrmovl => Y86.IMRMOVL
    case Addl | Subl | Andl | Xorl => Y86.IOPL
    case Jmp | Jle | Jl | Je | Jne | Jge | Jg => Y86.IJXX
    case Call => Y86.ICALL
    case Ret => Y86.IRET
    case Pushl => Y86.IPUSHL
    case Popl => Y86.IPOPL
    case Iaddl => Y86.ICMPL
    case Leave => Y86.ILEAVE
  }

  /** The number of the condition or ALU operation. */
  function Ifun(op: Op): int {
    match op
    case Cmovle | Jle => 1
    case Cmovl | Jl => 2
    case Cmove | Je => 3
    case Cmovne | Jne => 4
    case Cmovge | Jge => 5
    case Cmovg | Jg => 6
    case Subl => Y86.ALUSUB
    case Andl => Y86.ALUAND
    case Xorl => Y86.ALUXOR
    case _ => 0
  }

  /** A word that is a label means its offset, and one that is not the number that it reads as. */
  function NumberOf(labels: map<string, int>, o: Operand): int {
    if o.text in labels then labels[o.text]
    else match o.number
      case Some(n) => n
      case None => 0
  }

  /** What the programmer wrote, as an instruction of the core at pc. */
  function Meaning(op: Op, args: Args, labels: map<string, int>, pc: int): Y86.Instr {
    var fields := match args
      case NoArgs => (Y86.RNONE, Y86.RNONE, 0)
      case OneReg(r) => (r, Y86.RNONE, 0)
      case TwoRegs(rA, rB) => (rA, rB, 0)
      case Dest(dest) => (Y86.RNONE, Y86.RNONE, NumberOf(labels, dest))
      case ImmReg(imm, r) => (Y86.RNONE, r, NumberOf(labels, imm))
      case MemReg(rA, disp, rB) => (rA, rB, disp);
    Y86.Instr(Icode(op), Ifun(op), fields.0, fields.1, Wrap(fields.2), pc + InstByte(op),
              if op == Halt then Y86.SHLT else Y86.SAOK)
  }

  /** Operations without operands are written without. */
  predicate Bare(op: Op, args: Args) {
    op in {Nop, Halt, Ret, Leave} ==> args == NoArgs
  }

  /** Memory holds these bytes at pc. */
  predicate Holds(mem: Y86.Memory, pc: int, bytes: seq<Byte>) {
    forall i :: 0 <= i < |bytes| ==> Y86.ReadByte(mem, pc + i) == bytes[i]
  }

  /** The low digits of a number, negative or not, read back as that number modulo 256^n. */
  lemma {:induction false} DigitsRead(mem: Y86.Memory, addr: int, x: int, n: nat)
    requires Holds(mem, addr, Digits(x, n))
    ensures Y86.ReadBytes(mem, addr, n) == x % WordAccess.Pow256(n)
    decreases n
  {
    if n == 0 {
      assert WordAccess.Pow256(0) == 1;
    } else {
      var s := Digits(x, n);
      assert s[0] == x % 256 && s[1..] == Digits(x / 256, n - 1);
      forall i | 0 <= i < n - 1 ensures Y86.ReadByte(mem, addr + 1 + i) == s[1..][i] {
        assert Y86.ReadByte(mem, addr + (i + 1)) == s[i + 1];
      }
      DigitsRead(mem, addr + 1, x / 256, n - 1);
      assert Y86.ReadByte(mem, addr + 0) == s[0];
      WordAccess.ModStep(x, WordAccess.Pow256(n - 1));
    }
  }

  /** Big-endian digits are the little-endian ones from the other end. */
  lemma BigEndian(x: int, n: nat, i: nat)
    requires i < n
    ensures Endian(x, n, true)[i] == Endian(x, n, false)[n - 1 - i]
  {
    Reversed(Digits(x, n), i);
  }

  lemma {:induction false} Reversed(s: seq<Byte>, i: nat)
    requires i < |s|
    ensures Reverse(s)[i] == s[|s| - 1 - i]
  {
    if i < |s| - 1 {
      Reversed(s[1..], i);
    }
  }

  /** An immediate comes back as its 32-bit value. */
  lemma ImmediateRead(mem: Y86.Memory, addr: int, x: int)
    requires Holds(mem, addr, Digits(x, 4))
    ensures Wrap(Y86.ReadBytes(mem, addr, 4)) == Wrap(x)
  {
    DigitsRead(mem, addr, x, 4);
    assert WordAccess.Pow256(4) == TWO_32 by {
      assert WordAccess.Pow256(2) == 65536 && WordAccess.Pow256(1) == 256 && WordAccess.Pow256(3) == 16777216;
    }
    WordAccess.WrapShift(x % TWO_32, x / TWO_32);
  }

  /** The number in an instruction, if it has one. */
  function Number(op: Op, args: Args, labels: map<string, int>): int {
    match args
    case Dest(dest) => NumberOf(labels, dest)
    case ImmReg(imm, _) => NumberOf(labels, imm)
    case MemReg(_, disp, _) => disp
    case _ => 0
  }

  predicate HasNumber(op: Op) {
    InstByte(op) >= 5
  }

  lemma NumberRead(op: Op, args: Args, labels: map<string, int>, second: bool, mem: Y86.Memory, pc: int)
    requires HasNumber(op) && Encode(op, args, labels, second, false).Some?
    requires Holds(mem, pc, Encode(op, args, labels, second, false).value)
    ensures Wrap(Y86.ReadBytes(mem, pc + InstByte(op) - 4, 4)) == Wrap(Number(op, args, labels))
  {
    hide Digits, Y86.ReadByte, Y86.ReadBytes;
    var bytes := Encode(op, args, labels, second, false).value;
    var x := Number(op, args, labels);
    var k := InstByte(op) - 4;
    assert bytes[k..] == Digits(x, 4);
    forall i | 0 <= i < 4 ensures Y86.ReadByte(mem, pc + k + i) == Digits(x, 4)[i] {
      assert bytes[k + i] == bytes[k..][i];
      assert Y86.ReadByte(mem, pc + (k + i)) == bytes[k + i];
    }
    ImmediateRead(mem, pc + k, x);
  }

  /** The operations whose bytes mean something else in first edition numbering. */
  predicate Renumbered(op: Op) {
    op in {Nop, Halt, Pushl, Popl, Irmovl}
  }

  predicate HasRegs(op: Op) {
    InstByte(op) in {2, 6}
  }

  /** The first byte carries the core's numbers of the instruction, but for nop and halt in first edition numbering. */
  lemma CodeParts(op: Op, second: bool)
    ensures Code(op, second) / 16 == Icode(op) <==> second || op !in {Nop, Halt}
    ensures Code(op, second) % 16 == Ifun(op)
  {
  }

  /** The core expects the bytes that the assembler emits, but for iaddl. */
  lemma Shape(op: Op)
    ensures Y86.NeedRegids(Icode(op)) <==> HasRegs(op)
    ensures op != Iaddl ==> (Y86.NeedValC(Icode(op)) <==> HasNumber(op))
    ensures op == Iaddl ==> !Y86.NeedValC(Icode(op))
    ensures InstByte(op) == 1 + (if HasRegs(op) then 1 else 0) + (if HasNumber(op) then 4 else 0)
    ensures Y86.FetchStat(Icode(op), false) == if op == Halt then Y86.SHLT else Y86.SAOK
  {
  }

  /** The register byte carries the registers of the instruction. */
  lemma Registers(op: Op, args: Args, labels: map<string, int>, second: bool, pc: int)
    requires Encode(op, args, labels, second, false).Some? && Bare(op, args)
    ensures var bytes := Encode(op, args, labels, second, false).value;
      var m := Meaning(op, args, labels, pc);
      && bytes != [] && bytes[0] == Code(op, second)
      && m.valC == Wrap(Number(op, args, labels))
      && (HasRegs(op) ==>
            |bytes| > 1 &&
            (bytes[1] / 16 == m.rA && bytes[1] % 16 == m.rB <==> second || op !in {Pushl, Popl, Irmovl, Iaddl}))
      && (!HasRegs(op) ==> m.rA == Y86.RNONE && m.rB == Y86.RNONE)
      && (!HasNumber(op) ==> Number(op, args, labels) == 0)
  {
    hide Digits, Endian;
  }

  lemma Fetched(mem: Y86.Memory, pc: int)
    requires Y86.InRange(pc)
    ensures var i := Y86.FetchAt(mem, pc); var b := Y86.ReadByte(mem, pc); var regs := Y86.ReadByte(mem, pc + 1);
      && i.icode == b / 16 && i.ifun == b % 16
      && i.rA == (if Y86.NeedRegids(i.icode) then regs / 16 else Y86.RNONE)
      && i.rB == (if Y86.NeedRegids(i.icode) then regs % 16 else Y86.RNONE)
      && i.valP == pc + 1 + (if Y86.NeedRegids(i.icode) then 1 else 0) + (if Y86.NeedValC(i.icode) then 4 else 0)
      && i.valC == (if Y86.NeedValC(i.icode) then Wrap(Y86.ReadBytes(mem, i.valP - 4, 4)) else 0)
      && i.stat == Y86.FetchStat(i.icode, false)
  {
    hide Y86.ReadByte, Y86.ReadBytes;
  }

  /** The fetch stage recovers every instruction, with any registers and any immediate, and advances by its length, if
      and only if the second edition's numbering is used, or makes no difference, and the instruction is not iaddl. */
  lemma EncodeFetch(op: Op, args: Args, labels: map<string, int>, second: bool, mem: Y86.Memory, pc: int)
    requires Encode(op, args, labels, second, false).Some? && Bare(op, args) && Y86.InRange(pc)
    requires Holds(mem, pc, Encode(op, args, labels, second, false).value)
    ensures Y86.FetchAt(mem, pc) == Meaning(op, args, labels, pc) <==> op != Iaddl && (second || !Renumbered(op))
  {
    hide Y86.ReadByte, Y86.ReadBytes, Digits, Encode, Y86.FetchAt, Code, Ifun, Number, NumberOf, Y86.NeedRegids,
         Y86.NeedValC, Y86.FetchStat;
    var bytes := Encode(op, args, labels, second, false).value;
    var i := Y86.FetchAt(mem, pc);
    var m := Meaning(op, args, labels, pc);
    assert Y86.ReadByte(mem, pc + 0) == bytes[0] by { Registers(op, args, labels, second, pc); }
    CodeParts(op, second);
    Shape(op);
    Registers(op, args, labels, second, pc);
    Fetched(mem, pc);
    if HasRegs(op) {
      assert Y86.ReadByte(mem, pc + 1) == bytes[1];
    }
    if HasNumber(op) {
      NumberRead(op, args, labels, second, mem, pc);
    }
    assert m.icode == Icode(op) && m.ifun == Ifun(op) && m.valP == pc + InstByte(op);
    hide Icode, InstByte, Meaning;
  }
}
