/** Which programs the assembler accepts, and how it divides by a negative alignment. */
module AssemblerErrors {
  import opened Words
  import opened Assembler

  // ---------- one line ----------

  /** The operands have the form the instruction asks for; nop, halt, ret and leave ignore theirs. */
  predicate ArgsFit(op: Op, args: Args) {
    && (op in {Pushl, Popl} ==> args.OneReg?)
    && (op in {Jmp, Jle, Jl, Je, Jne, Jge, Jg, Call} ==> args.Dest?)
    && (op in {Irmovl, Iaddl} ==> args.ImmReg?)
    && (op in {Rmmovl, Mrmovl} ==> args.MemReg?)
    && (op in {Rrmovl, Cmovle, Cmovl, Cmove, Cmovne, Cmovge, Cmovg, Addl, Subl, Andl, Xorl} ==> args.TwoRegs?)
  }

  /** A word is a label, or reads as a number. */
  predicate Known(labels: map<string, int>, o: Operand) {
    o.text in labels || o.number.Some?
  }

  predicate WordsKnown(op: Op, args: Args, labels: map<string, int>) {
    && (op in {Jmp, Jle, Jl, Je, Jne, Jge, Jg, Call} && args.Dest? ==> Known(labels, args.dest))
    && (op in {Irmovl, Iaddl} && args.ImmReg? ==> Known(labels, args.imm))
  }

  lemma EncodeAccepts(op: Op, args: Args, labels: map<string, int>, second: bool, big: bool)
    ensures Encode(op, args, labels, second, big).Some? <==> ArgsFit(op, args) && WordsKnown(op, args, labels)
  {
    hide Endian, Code;
  }

  /** The register byte: the two registers, or one beside 15, which is 8 in first edition numbering. */
  lemma RegisterByte(op: Op, args: Args, labels: map<string, int>, second: bool, big: bool)
    requires Encode(op, args, labels, second, big).Some? && InstByte(op) in {2, 6}
    ensures var bytes := Encode(op, args, labels, second, big).value; var none := if second then 15 else 8;
      && |bytes| >= 2
      && match args
         case OneReg(r) => bytes[1] == r * 16 + none
         case TwoRegs(rA, rB) => bytes[1] == rA * 16 + rB
         case ImmReg(_, r) => bytes[1] == none * 16 + r
         case MemReg(rA, _, rB) => bytes[1] == rA * 16 + rB
         case _ => false
  {
    hide Endian, Code;
  }

  predicate LineFine(item: Item, labels: map<string, int>) {
    match item
    case Insn(op, args) => ArgsFit(op, args) && WordsKnown(op, args, labels)
    case Data(_, value) => Known(labels, value)
    case Align(a) => a != 0
    case _ => true
  }

  // ---------- the passes ----------

  /** No name is given twice, and no alignment is 0, in the first n lines. */
  ghost predicate FirstFine(lines: seq<Line>, n: nat)
    requires n <= |lines|
  {
    && (forall i, j :: 0 <= i < j < n && lines[i].name.Some? ==> lines[i].name != lines[j].name)
    && (forall i :: 0 <= i < n ==> lines[i].item != Align(0))
  }

  lemma {:induction false} FirstOk(lines: seq<Line>, n: nat)
    requires n <= |lines|
    ensures FirstPass(lines, n).ok <==> FirstFine(lines, n)
    ensures FirstPass(lines, n).ok ==>
              forall name :: name in FirstPass(lines, n).labels <==>
                exists i :: 0 <= i < n && lines[i].name == Some(name)
  {
    if n > 0 {
      FirstOk(lines, n - 1);
      var f, g := FirstPass(lines, n - 1), FirstPass(lines, n);
      var line := lines[n - 1];
      FirstLineOk(f, n - 1, line);
      if f.ok && g.ok {
        forall name ensures name in g.labels <==> exists i :: 0 <= i < n && lines[i].name == Some(name) {
          if line.name == Some(name) {
            assert lines[n - 1].name == Some(name);
          }
        }
      }
      if FirstFine(lines, n) && line.name.Some? {
        assert forall i :: 0 <= i < n - 1 ==> lines[i].name != line.name;
      }
    }
  }

  lemma FirstLineOk(f: First, i: nat, line: Line)
    ensures var g := FirstLine(f, i, line);
      && (g.ok <==> f.ok && !(line.name.Some? && line.name.value in f.labels) && line.item != Align(0))
      && (g.ok ==> forall name :: name in g.labels <==> name in f.labels || line.name == Some(name))
  {
    hide AlignUp;
  }

  lemma {:induction false} SecondOk(lines: seq<Line>, n: nat, f: First, second: bool, big: bool)
    requires n <= |lines| && forall i :: 0 <= i < n ==> lines[i].item != Align(0)
    ensures SecondPass(lines, n, f, second, big).ok <==> forall i :: 0 <= i < n ==> LineFine(lines[i].item, f.labels)
  {
    hide Encode, Endian, ArgsFit, WordsKnown;
    if n > 0 {
      SecondOk(lines, n - 1, f, second, big);
      var item := lines[n - 1].item;
      if item.Insn? {
        EncodeAccepts(item.op, item.args, f.labels, second, big);
      }
    }
  }

  /** A program is assembled if and only if no label is repeated, no alignment is 0, every instruction has operands of
      its form, and every word is a label of some line or a number. */
  lemma AssembleExact(lines: seq<Line>, second: bool, big: bool)
    ensures Assemble(lines, second, big).Some? <==>
      && FirstFine(lines, |lines|)
      && forall i :: 0 <= i < |lines| ==> LineFine(lines[i].item, FirstPass(lines, |lines|).labels)
    ensures FirstFine(lines, |lines|) ==>
      forall name :: name in FirstPass(lines, |lines|).labels <==>
        exists i :: 0 <= i < |lines| && lines[i].name == Some(name)
  {
    hide FirstPass, SecondPass, WriteLines, LineFine;
    FirstOk(lines, |lines|);
    if FirstFine(lines, |lines|) {
      SecondOk(lines, |lines|, FirstPass(lines, |lines|), second, big);
    }
  }

  // ---------- negative alignments ----------

  /** The remainder lies between 0 and the divisor, on the divisor's side. */
  lemma RemainderSign(a: int, b: int)
    requires b != 0
    ensures var r := PyMod(a, b); var q := if b > 0 then a / b else (-a) / (-b);
      && a == q * b + r && (b > 0 ==> 0 <= r < b) && (b < 0 ==> b < r <= 0)
  {
  }

  /** A data line under a negative alignment has no bytes. */
  lemma NegativeAlignment(s: Second, i: nat, len: Width, value: Operand, labels: map<string, int>, second: bool,
                          big: bool)
    requires s.alignment < 0 && Known(labels, value)
    ensures SecondItem(s, i, Data(len, value), labels, second, big) == s
  {
  }
}
