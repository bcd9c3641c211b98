/** What operands become in the assembled file: labels the offsets of what follows them, numbers themselves. */
module AssemblerOperands {
  import opened Words
  import opened Assembler
  import opened AssemblerLayout
  import opened AssemblerFetch
  import Y86
  import WordAccess

  /** The file is in memory from address 0 on. */
  predicate InMemory(mem: Y86.Memory, file: seq<Byte>) {
    forall k :: 0 <= k < |file| ==> Y86.ReadByte(mem, k) == file[k]
  }

  /** Instructions with a word for an operand, and the word. */
  predicate TakesWord(item: Item, o: Operand) {
    && item.Insn? && item.op in {Jmp, Jle, Jl, Je, Jne, Jge, Jg, Call, Irmovl}
    && ((item.args.Dest? && item.args.dest == o) || (item.args.ImmReg? && item.args.imm == o))
  }

  // ---------- the bytes of a line ----------

  /** The second pass keeps the bytes of a line. */
  lemma {:induction false} SecondStays(lines: seq<Line>, i: nat, n: nat, f: First, second: bool, big: bool)
    requires i < n <= |lines| && SecondPass(lines, n, f, second, big).ok
    ensures var s, t := SecondPass(lines, i + 1, f, second, big), SecondPass(lines, n, f, second, big);
      s.ok && (i in s.bin <==> i in t.bin) && (i in s.bin ==> s.bin[i] == t.bin[i])
    decreases n
  {
    hide Encode, Resolve;
    if i + 1 < n {
      SecondStays(lines, i, n - 1, f, second, big);
    }
  }

  lemma {:induction false} NoEarlierBytes(lines: seq<Line>, n: nat, f: First, second: bool, big: bool, i: nat)
    requires n <= i && n <= |lines|
    ensures i !in SecondPass(lines, n, f, second, big).bin
    decreases n
  {
    hide Encode, Resolve;
    if n > 0 {
      NoEarlierBytes(lines, n - 1, f, second, big, i);
    }
  }

  /** An instruction line holds its encoding. */
  lemma InsnBytes(lines: seq<Line>, i: nat, second: bool, big: bool)
    requires i < |lines| && lines[i].item.Insn? && Assemble(lines, second, big).Some?
    ensures var f := FirstPass(lines, |lines|); var s := SecondPass(lines, |lines|, f, second, big);
      var e := Encode(lines[i].item.op, lines[i].item.args, f.labels, second, big);
      e.Some? && i in s.bin && s.bin[i] == e.value
  {
    hide Encode, FirstPass, WriteLines;
    var f := FirstPass(lines, |lines|);
    SecondStays(lines, i, |lines|, f, second, big);
    NoEarlierBytes(lines, i, f, second, big, i);
    var item := lines[i].item;
    if Encode(item.op, item.args, f.labels, second, big).Some? {
      EncodedLength(item.op, item.args, f.labels, second, big);
    }
  }

  /** A data line holds its value in as many bytes as its length. */
  lemma DataBytes(lines: seq<Line>, i: nat, second: bool, big: bool)
    requires i < |lines| && lines[i].item.Data? && Assemble(lines, second, big).Some? && PositiveAligns(lines)
    ensures var f := FirstPass(lines, |lines|); var s := SecondPass(lines, |lines|, f, second, big);
      var n := Length(lines, i, LeftOver(lines)); var o := lines[i].item.value;
      && n > 0 && i in s.bin && s.bin[i] == Endian(NumberOf(f.labels, o), n, big)
      && (o.text !in f.labels ==> o.number.Some?)
  {
    hide Encode, FirstPass, WriteLines, Endian;
    var f := FirstPass(lines, |lines|);
    AllFine(lines, second, big);
    FirstAlign(lines, |lines|);
    SecondStays(lines, i, |lines|, f, second, big);
    NoEarlierBytes(lines, i, f, second, big, i);
    SecondAlign(lines, i, f, second, big);
    LeftOverPositive(lines);
    AlignNotNegative(lines, i, f.alignment);
  }

  // ---------- words ----------

  /** Where the bytes of a line are in memory. */
  lemma LineInMemory(lines: seq<Line>, second: bool, big: bool, mem: Y86.Memory, i: nat)
    requires Assemble(lines, second, big).Some? && InMemory(mem, Assemble(lines, second, big).value.bytes)
    requires var f := FirstPass(lines, |lines|); var s := SecondPass(lines, |lines|, f, second, big);
      i < |lines| && i in s.bin && i in f.lineno
    ensures var f := FirstPass(lines, |lines|); var s := SecondPass(lines, |lines|, f, second, big);
      var o := Assemble(lines, second, big).value;
      i in o.at && Holds(mem, o.at[i], s.bin[i])
  {
    hide FirstPass, SecondPass, WriteLines, Y86.ReadByte;
    var f := FirstPass(lines, |lines|);
    var s := SecondPass(lines, |lines|, f, second, big);
    var o := Assemble(lines, second, big).value;
    WrittenStays(f.lineno, s.bin, |lines|);
    assert Emitted(f.lineno, s.bin, i);
    assert Found(o, s.bin, i);
    forall k | 0 <= k < |s.bin[i]| ensures Y86.ReadByte(mem, o.at[i] + k) == s.bin[i][k] {
      assert o.bytes[o.at[i]..o.at[i] + |s.bin[i]|][k] == o.bytes[o.at[i] + k];
    }
  }

  /** The constant that the core fetches with an instruction of the file is the offset of its label, or its number. */
  lemma WordFetched(lines: seq<Line>, second: bool, mem: Y86.Memory, n: nat, o: Operand)
    requires Assemble(lines, second, false).Some? && InMemory(mem, Assemble(lines, second, false).value.bytes)
    requires n < |lines| && TakesWord(lines[n].item, o) && Forward(lines)
    ensures n in Assemble(lines, second, false).value.at
    ensures var at := Assemble(lines, second, false).value.at; var labels := FirstPass(lines, |lines|).labels;
      0 <= at[n] < 65530 ==>
        && (o.text in labels ==> Y86.FetchAt(mem, at[n]).valC == Wrap(labels[o.text]))
        && (o.text !in labels ==> o.number.Some? && Y86.FetchAt(mem, at[n]).valC == Wrap(o.number.value))
  {
    hide FirstPass, SecondPass, WriteLines, Y86.ReadByte, Y86.ReadBytes, Digits, Forward, InMemory, Holds, Y86.FetchAt;
    var f := FirstPass(lines, |lines|);
    var item := lines[n].item;
    InsnBytes(lines, n, second, false);
    RecordedLine(lines, second, false, n);
    LineInMemory(lines, second, false, mem, n);
    var at := Assemble(lines, second, false).value.at;
    if 0 <= at[n] < 65530 {
      ConstantFetched(item.op, item.args, f.labels, second, mem, at[n]);
    }
  }

  lemma ConstantFetched(op: Op, args: Args, labels: map<string, int>, second: bool, mem: Y86.Memory, pc: int)
    requires Encode(op, args, labels, second, false).Some? && Y86.InRange(pc)
    requires op in {Jmp, Jle, Jl, Je, Jne, Jge, Jg, Call, Irmovl}
    requires Holds(mem, pc, Encode(op, args, labels, second, false).value)
    ensures Y86.FetchAt(mem, pc).valC == Wrap(Number(op, args, labels))
  {
    hide Y86.ReadByte, Y86.ReadBytes, Digits, Y86.FetchAt;
    var bytes := Encode(op, args, labels, second, false).value;
    assert Y86.ReadByte(mem, pc + 0) == bytes[0];
    CodeParts(op, second);
    Shape(op);
    Fetched(mem, pc);
    NumberRead(op, args, labels, second, mem, pc);
  }

  /** A jump, call or irmovl to a label gets the file offset at which the instruction or data behind the label begins.
  */
  lemma LabelOperand(lines: seq<Line>, second: bool, mem: Y86.Memory, n: nat, o: Operand, i: nat, j: nat)
    requires Forward(lines) && RoomForLeading(lines) && Assemble(lines, second, false).Some?
    requires InMemory(mem, Assemble(lines, second, false).value.bytes)
    requires n < |lines| && TakesWord(lines[n].item, o)
    requires i <= j < |lines| && lines[i].name == Some(o.text) && forall k :: i <= k < j ==> lines[k].item.Empty?
    requires HasBytes(lines[j].item)
    ensures var at := Assemble(lines, second, false).value.at;
      && n in at && j in at
      && (0 <= at[n] < 65530 ==> Y86.FetchAt(mem, at[n]).valC == Wrap(at[j]))
  {
    hide FirstPass, SecondPass, WriteLines, Forward, RoomForLeading, InMemory, Y86.FetchAt, Assemble;
    RecordedLine(lines, second, false, j);
    LabelIsOffset(lines, second, false, i, j);
    WordFetched(lines, second, mem, n, o);
  }

  /** Data with a label for a value holds that offset, and other data its number, modulo 256 to the power of its
      length. */
  lemma DataWord(lines: seq<Line>, second: bool, mem: Y86.Memory, n: nat)
    requires Assemble(lines, second, false).Some? && InMemory(mem, Assemble(lines, second, false).value.bytes)
    requires n < |lines| && lines[n].item.Data? && Forward(lines)
    ensures n in Assemble(lines, second, false).value.at
    ensures var at := Assemble(lines, second, false).value.at; var labels := FirstPass(lines, |lines|).labels;
      var o := lines[n].item.value; var len := Length(lines, n, LeftOver(lines));
      && len > 0
      && (o.text in labels ==> Y86.ReadBytes(mem, at[n], len) == labels[o.text] % WordAccess.Pow256(len))
      && (o.text !in labels ==>
            o.number.Some? && Y86.ReadBytes(mem, at[n], len) == o.number.value % WordAccess.Pow256(len))
  {
    hide FirstPass, SecondPass, WriteLines, Y86.ReadByte, Y86.ReadBytes, InMemory, Holds, Length;
    var f := FirstPass(lines, |lines|);
    DataBytes(lines, n, second, false);
    RecordedLine(lines, second, false, n);
    LineInMemory(lines, second, false, mem, n);
    var len := Length(lines, n, LeftOver(lines));
    DigitsRead(mem, Assemble(lines, second, false).value.at[n], NumberOf(f.labels, lines[n].item.value), len);
  }

  /** And with a label: the file offset at which the instruction or data behind it begins. */
  lemma LabelData(lines: seq<Line>, second: bool, mem: Y86.Memory, n: nat, i: nat, j: nat)
    requires Forward(lines) && RoomForLeading(lines) && Assemble(lines, second, false).Some?
    requires InMemory(mem, Assemble(lines, second, false).value.bytes)
    requires n < |lines| && lines[n].item.Data?
    requires i <= j < |lines| && lines[i].name == Some(lines[n].item.value.text)
    requires HasBytes(lines[j].item) && forall k :: i <= k < j ==> lines[k].item.Empty?
    ensures var at := Assemble(lines, second, false).value.at; var len := Length(lines, n, LeftOver(lines));
      n in at && j in at && len > 0 && Y86.ReadBytes(mem, at[n], len) == at[j] % WordAccess.Pow256(len)
  {
    hide FirstPass, SecondPass, WriteLines, Forward, RoomForLeading, InMemory, Y86.ReadBytes, Assemble, Length;
    RecordedLine(lines, second, false, j);
    LabelIsOffset(lines, second, false, i, j);
    DataWord(lines, second, mem, n);
  }
}
