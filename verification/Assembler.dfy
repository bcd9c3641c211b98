/** The assembler's encoding of instructions and its two passes, from lines that are already split into words. */
module Assembler {
  import opened Words

  datatype Option<T> = None | Some(value: T)

  // ---------- lines ----------

  datatype Op =
    | Nop | Halt | Rrmovl | Cmovle | Cmovl | Cmove | Cmovne | Cmovge | Cmovg | Irmovl | Rmmovl | Mrmovl
    | Addl | Subl | Andl | Xorl | Jmp | Jle | Jl | Je | Jne | Jge | Jg | Call | Ret | Pushl | Popl | Iaddl | Leave

  type Register = r: int | 0 <= r < 8

  /** A word that is looked up among the labels first and read as a number otherwise, if it is one. */
  datatype Operand = Operand(text: string, number: Option<int>)

  datatype Args =
    | NoArgs
    | OneReg(r: Register)
    | TwoRegs(rA: Register, rB: Register)
    | Dest(dest: Operand)
    | ImmReg(imm: Operand, r: Register)
    | MemReg(rA: Register, disp: int, rB: Register)

  /** The widths of .byte, .word and .long. */
  type Width = w: int | w in {1, 2, 4} witness 1

  datatype Item =
    | Empty
    | Insn(op: Op, args: Args)
    | Pos(pos: int)
    | Align(align: int)
    | Data(bytelen: Width, value: Operand)

  datatype Line = Line(name: Option<string>, item: Item)

  // ---------- encoding ----------

  /** The instr table, in first or second edition numbering. */
  function Code(op: Op, second: bool): Byte {
    match op
    case Nop => if second then 0x10 else 0x00
    case Halt => if second then 0x00 else 0x10
    case Rrmovl => 0x20
    case Cmovle => 0x21
    case Cmovl => 0x22
    case Cmove => 0x23
    case Cmovne => 0x24
    case Cmovge => 0x25
    case Cmovg => 0x26
    case Irmovl => 0x30
    case Rmmovl => 0x40
    case Mrmovl => 0x50
    case Addl => 0x60
    case Subl => 0x61
    case Andl => 0x62
    case Xorl => 0x63
    case Jmp => 0x70
    case Jle => 0x71
    case Jl => 0x72
    case Je => 0x73
    case Jne => 0x74
    case Jge => 0x75
    case Jg => 0x76
    case Call => 0x80
    case Ret => 0x90
    case Pushl => 0xA0
    case Popl => 0xB0
    case Iaddl => 0xC0
    case Leave => 0xD0
  }

  /** The instbyte table. */
  function InstByte(op: Op): nat {
    match op
    case Nop | Halt | Ret | Leave => 1
    case Irmovl | Rmmovl | Mrmovl | Iaddl => 6
    case Jmp | Jle | Jl | Je | Jne | Jge | Jg | Call => 5
    case _ => 2
  }

  function NoReg(second: bool): int {
    if second then 0xF else 8
  }

  function RegByte(hi: int, lo: int): Byte
    requires 0 <= hi < 16 && 0 <= lo < 16
  {
    hi * 16 + lo
  }

  /** The n low digits of x to base 256, least significant first; x may be negative. */
  function Digits(x: int, n: nat): (s: seq<Byte>)
    ensures |s| == n
    decreases n
  {
    if n == 0 then [] else [x % 256] + Digits(x / 256, n - 1)
  }

  function Reverse(s: seq<Byte>): (r: seq<Byte>)
    ensures |r| == |s|
  {
    if s == [] then [] else Reverse(s[1..]) + [s[0]]
  }

  function Endian(x: int, n: nat, big: bool): (s: seq<Byte>)
    ensures |s| == n
  {
    if big then Reverse(Digits(x, n)) else Digits(x, n)
  }

  function Resolve(labels: map<string, int>, o: Operand): Option<int> {
    if o.text in labels then Some(labels[o.text]) else o.number
  }

  /** The bytes of an instruction; None is an error in the line. */
  function Encode(op: Op, args: Args, labels: map<string, int>, second: bool, big: bool): Option<seq<Byte>> {
    var c := Code(op, second);
    match op
    case Nop | Halt | Ret | Leave => Some([c])
    case Pushl | Popl => if args.OneReg? then Some([c, RegByte(args.r, NoReg(second))]) else None
    case Jmp | Jle | Jl | Je | Jne | Jge | Jg | Call =>
      if !args.Dest? || Resolve(labels, args.dest) == None then None
      else Some([c] + Endian(Resolve(labels, args.dest).value, 4, big))
    case Irmovl | Iaddl =>
      if !args.ImmReg? || Resolve(labels, args.imm) == None then None
      else Some([c, RegByte(NoReg(second), args.r)] + Endian(Resolve(labels, args.imm).value, 4, big))
    case Rmmovl | Mrmovl =>
      if args.MemReg? then Some([c, RegByte(args.rA, args.rB)] + Endian(args.disp, 4, big)) else None
    case _ => if args.TwoRegs? then Some([c, RegByte(args.rA, args.rB)]) else None
  }

  // ---------- the first pass ----------

  /** Python's remainder takes the sign of the divisor. */
  function PyMod(a: int, b: int): int
    requires b != 0
  {
    if b > 0 then a % b else -((-a) % (-b))
  }

  function AlignUp(binpos: int, a: int): int
    requires a != 0
  {
    if PyMod(binpos, a) != 0 then binpos + a - PyMod(binpos, a) else binpos
  }

  /** binpos, alignment, labels, the position of each line, and whether there was no error. */
  datatype First = First(binpos: int, alignment: int, labels: map<string, int>, lineno: map<nat, int>, ok: bool)

  function FirstItem(f: First, i: nat, item: Item): First {
    match item
    case Empty => f
    case Insn(op, _) => f.(alignment := 0, lineno := f.lineno[i := f.binpos], binpos := f.binpos + InstByte(op))
    case Pos(n) => f.(binpos := n, lineno := f.lineno[i := n])
    case Align(a) =>
      if a == 0 then f.(alignment := a, ok := false) else
      var p := AlignUp(f.binpos, a);
      f.(alignment := a, binpos := p, lineno := f.lineno[i := p])
    case Data(len, _) =>
      f.(lineno := f.lineno[i := f.binpos], binpos := f.binpos + if f.alignment != 0 then f.alignment else len)
  }

  function FirstLine(f: First, i: nat, line: Line): First {
    match line.name
    case None => FirstItem(f, i, line.item)
    case Some(name) =>
      if name in f.labels then f.(ok := false)
      else FirstItem(f.(labels := f.labels[name := f.binpos], lineno := f.lineno[i := f.binpos]), i, line.item)
  }

  function FirstPass(lines: seq<Line>, n: nat): First
    requires n <= |lines|
  {
    if n == 0 then First(0, 0, map[], map[], true) else FirstLine(FirstPass(lines, n - 1), n - 1, lines[n - 1])
  }

  // ---------- the second pass ----------

  /** alignment, the bytes of each line that has any, and whether there was no error. */
  datatype Second = Second(alignment: int, bin: map<nat, seq<Byte>>, ok: bool)

  function Emit(s: Second, i: nat, bytes: seq<Byte>): Second {
    if bytes == [] then s else s.(bin := s.bin[i := bytes])
  }

  function SecondItem(s: Second, i: nat, item: Item, labels: map<string, int>, second: bool, big: bool): Second {
    match item
    case Empty => s
    case Pos(_) => s
    case Align(a) => s.(alignment := a)
    case Insn(op, args) =>
      (match Encode(op, args, labels, second, big)
       case None => s.(alignment := 0, ok := false)
       case Some(bytes) => Emit(s.(alignment := 0), i, bytes))
    case Data(len, value) =>
      var length := if s.alignment != 0 then s.alignment else len;
      match Resolve(labels, value)
      case None => s.(ok := false)
      case Some(x) => Emit(s, i, Endian(x, if length < 0 then 0 else length, big))
  }

  /** The alignment is not reset: it starts as the first pass left it. */
  function SecondPass(lines: seq<Line>, n: nat, f: First, second: bool, big: bool): Second
    requires n <= |lines|
  {
    if n == 0 then Second(f.alignment, map[], true) else
    SecondItem(SecondPass(lines, n - 1, f, second, big), n - 1, lines[n - 1].item, f.labels, second, big)
  }

  // ---------- the output loop ----------

  /** The position the assembler believes to be at, the bytes written, and where each line's bytes really went. */
  datatype Output = Output(binpos: int, bytes: seq<Byte>, at: map<nat, nat>)

  function Blank(n: int): (s: seq<Byte>)
    ensures |s| == if n < 0 then 0 else n
  {
    seq(if n < 0 then 0 else n, i => 0)
  }

  function WriteLine(o: Output, i: nat, lineno: map<nat, int>, bin: map<nat, seq<Byte>>): Output {
    if i in bin && i in lineno then
      var bytes := o.bytes + Blank(lineno[i] - o.binpos);
      Output(lineno[i] + |bin[i]|, bytes + bin[i], o.at[i := |bytes|])
    else o
  }

  function WriteLines(n: nat, lineno: map<nat, int>, bin: map<nat, seq<Byte>>): Output {
    if n == 0 then Output(0, [], map[]) else WriteLine(WriteLines(n - 1, lineno, bin), n - 1, lineno, bin)
  }

  // ---------- the whole assembler ----------

  /** The binary file, or nothing if a line has an error. */
  function Assemble(lines: seq<Line>, second: bool, big: bool): Option<Output> {
    var f := FirstPass(lines, |lines|);
    var s := SecondPass(lines, |lines|, f, second, big);
    if !f.ok || !s.ok then None else Some(WriteLines(|lines|, f.lineno, s.bin))
  }
}
