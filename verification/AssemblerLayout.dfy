/** Where the bytes of each line land: the two passes of the assembler against its output loop. */
module AssemblerLayout {
  import opened Words
  import opened Assembler
  import WordAccess

  // ---------- the output loop ----------

  predicate Emitted(lineno: map<nat, int>, bin: map<nat, seq<Byte>>, i: nat) {
    i in bin && i in lineno
  }

  /** No line among the first n starts before 0 or before an earlier one's bytes have ended. */
  ghost predicate NoOverlap(lineno: map<nat, int>, bin: map<nat, seq<Byte>>, n: nat) {
    && (forall i: nat :: i < n && Emitted(lineno, bin, i) ==> lineno[i] >= 0)
    && (forall i: nat, j: nat :: i < j < n && Emitted(lineno, bin, i) && Emitted(lineno, bin, j) ==>
          lineno[i] + |bin[i]| <= lineno[j])
  }

  /** Every line's bytes went to the offset that pass one recorded for it. */
  ghost predicate AsRecorded(o: Output, lineno: map<nat, int>, bin: map<nat, seq<Byte>>, n: nat) {
    forall i: nat :: i < n && Emitted(lineno, bin, i) ==> i in o.at && o.at[i] == lineno[i]
  }

  /** The bytes of a line are found in the file at the place they were written to. */
  ghost predicate Found(o: Output, bin: map<nat, seq<Byte>>, i: nat) {
    i in o.at && i in bin && o.at[i] + |bin[i]| <= |o.bytes| && o.bytes[o.at[i]..o.at[i] + |bin[i]|] == bin[i]
  }

  /** Nothing that was written is overwritten or moved. */
  lemma {:induction false} WrittenStays(lineno: map<nat, int>, bin: map<nat, seq<Byte>>, n: nat)
    ensures var o := WriteLines(n, lineno, bin);
      forall i: nat :: i < n && Emitted(lineno, bin, i) ==> Found(o, bin, i)
  {
    if n > 0 {
      WrittenStays(lineno, bin, n - 1);
      var p, o := WriteLines(n - 1, lineno, bin), WriteLines(n, lineno, bin);
      assert p.bytes <= o.bytes;
      forall i: nat | i < n && Emitted(lineno, bin, i) ensures Found(o, bin, i) {
        if i < n - 1 {
          assert Found(p, bin, i);
          assert o.bytes[p.at[i]..p.at[i] + |bin[i]|] == p.bytes[p.at[i]..p.at[i] + |bin[i]|];
        }
      }
    }
  }

  /** While nothing overlaps, the assembler's position is the length of the file. */
  lemma {:induction false} PositionIsLength(lineno: map<nat, int>, bin: map<nat, seq<Byte>>, n: nat)
    requires NoOverlap(lineno, bin, n)
    ensures var o := WriteLines(n, lineno, bin);
      && o.binpos == |o.bytes| && AsRecorded(o, lineno, bin, n)
      && (forall j: nat :: j >= n && Emitted(lineno, bin, j) && NoOverlap(lineno, bin, j + 1) ==>
            o.binpos <= lineno[j])
  {
    if n > 0 {
      PositionIsLength(lineno, bin, n - 1);
      var p, o := WriteLines(n - 1, lineno, bin), WriteLines(n, lineno, bin);
      if Emitted(lineno, bin, n - 1) {
        assert p.binpos <= lineno[n - 1];
      }
      assert AsRecorded(o, lineno, bin, n);
    }
  }

  /** The bytes of every line land where pass one put it if and only if the recorded positions do not overlap. */
  lemma {:induction false} OutputExact(lineno: map<nat, int>, bin: map<nat, seq<Byte>>, n: nat)
    ensures AsRecorded(WriteLines(n, lineno, bin), lineno, bin, n) <==> NoOverlap(lineno, bin, n)
  {
    if NoOverlap(lineno, bin, n) {
      PositionIsLength(lineno, bin, n);
    }
    if AsRecorded(WriteLines(n, lineno, bin), lineno, bin, n) {
      InOrder(lineno, bin, n);
    }
  }

  /** Lines are written one behind the other. */
  lemma {:induction false} InOrder(lineno: map<nat, int>, bin: map<nat, seq<Byte>>, n: nat)
    ensures var o := WriteLines(n, lineno, bin);
      && (forall i: nat :: i in o.at ==> i in bin && o.at[i] + |bin[i]| <= |o.bytes|)
      && (forall i: nat, j: nat :: i < j && i in o.at && j in o.at ==> o.at[i] + |bin[i]| <= o.at[j])
      && (forall i: nat :: i in o.at <==> i < n && Emitted(lineno, bin, i))
  {
    if n > 0 {
      InOrder(lineno, bin, n - 1);
    }
  }

  /** Every byte of the file belongs to a line or is 0. */
  lemma {:induction false} GapsAreZero(lineno: map<nat, int>, bin: map<nat, seq<Byte>>, n: nat, k: nat)
    requires k < |WriteLines(n, lineno, bin).bytes|
    ensures var o := WriteLines(n, lineno, bin);
      o.bytes[k] == 0 || exists i: nat :: i in o.at && i in bin && o.at[i] <= k < o.at[i] + |bin[i]|
    decreases n
  {
    if n > 0 {
      var p, o := WriteLines(n - 1, lineno, bin), WriteLines(n, lineno, bin);
      InOrder(lineno, bin, n - 1);
      if k < |p.bytes| {
        GapsAreZero(lineno, bin, n - 1, k);
        assert o.bytes[k] == p.bytes[k];
        if i: nat :| i in p.at && i in bin && p.at[i] <= k < p.at[i] + |bin[i]| {
          assert i in o.at && o.at[i] == p.at[i];
        }
      } else if k >= o.at[n - 1] {
        assert n - 1 in o.at && n - 1 in bin;
      }
    }
  }

  // ---------- positions ----------

  /** .align goes to the first multiple at or after the position. */
  lemma AlignUpLeast(binpos: int, a: int)
    requires a > 0
    ensures AlignUp(binpos, a) % a == 0 && binpos <= AlignUp(binpos, a) < binpos + a
  {
    var q := binpos / a;
    if binpos % a != 0 {
      WordAccess.ModUnique((q + 1) * a, a, q + 1, 0);
      assert AlignUp(binpos, a) == (q + 1) * a;
    }
  }

  /** Where a line without error starts and where the next one does: .pos at its operand, .align at the first multiple,
      an instruction or data where the line before ended. */
  lemma Positions(lines: seq<Line>, i: nat)
    requires i < |lines| && FirstPass(lines, i + 1).ok
    ensures var f, g := FirstPass(lines, i), FirstPass(lines, i + 1);
      match lines[i].item
      case Empty => g.binpos == f.binpos && (lines[i].name.Some? ==> i in g.lineno && g.lineno[i] == f.binpos)
      case Pos(n) => i in g.lineno && g.lineno[i] == g.binpos == n
      case Align(a) => a != 0 && i in g.lineno && g.lineno[i] == g.binpos
                       && (a > 0 ==> g.binpos % a == 0 && f.binpos <= g.binpos < f.binpos + a)
      case Insn(op, _) => i in g.lineno && g.lineno[i] == f.binpos && g.binpos == f.binpos + InstByte(op)
      case Data(len, _) => i in g.lineno && g.lineno[i] == f.binpos
                           && g.binpos == f.binpos + if f.alignment != 0 then f.alignment else len
  {
    hide AlignUp;
    assert FirstPass(lines, i + 1) == FirstLine(FirstPass(lines, i), i, lines[i]);
    if lines[i].item.Align? && lines[i].item.align > 0 {
      AlignUpLeast(FirstPass(lines, i).binpos, lines[i].item.align);
    }
  }

  // ---------- the two passes ----------

  /** The alignment in force before line n, in either pass, if the pass starts with a. */
  function AlignAt(lines: seq<Line>, n: nat, a: int): int
    requires n <= |lines|
  {
    if n == 0 then a else
    match lines[n - 1].item
    case Insn(_, _) => 0
    case Align(b) => b
    case _ => AlignAt(lines, n - 1, a)
  }

  /** The alignment the first pass ends with, and the second starts with. */
  function LeftOver(lines: seq<Line>): int {
    AlignAt(lines, |lines|, 0)
  }

  predicate SetsAlign(item: Item) {
    item.Insn? || item.Align?
  }

  /** A data line that no instruction or .align precedes. */
  predicate Leading(lines: seq<Line>, n: nat) {
    n < |lines| && lines[n].item.Data? && forall k :: 0 <= k < n ==> !SetsAlign(lines[k].item)
  }

  predicate PositiveAligns(lines: seq<Line>) {
    forall i :: 0 <= i < |lines| && lines[i].item.Align? ==> lines[i].item.align > 0
  }

  /** Positive alignments, and no .pos that goes back. */
  predicate Forward(lines: seq<Line>) {
    && PositiveAligns(lines)
    && (forall i :: 0 <= i < |lines| && lines[i].item.Pos? ==> FirstPass(lines, i).binpos <= lines[i].item.pos)
  }

  predicate HasBytes(item: Item) {
    item.Insn? || item.Data?
  }

  /** If line i is a leading data line under a left-over alignment, which the second pass stretches to that alignment,
      it still ends before line j. */
  predicate RoomBefore(lines: seq<Line>, i: nat, j: nat)
    requires i < |lines| && j < |lines|
  {
    LeftOver(lines) != 0 && Leading(lines, i) ==>
      FirstPass(lines, i).binpos + LeftOver(lines) <= FirstPass(lines, j).binpos
  }

  predicate RoomForLeading(lines: seq<Line>) {
    forall i, j :: 0 <= i < j < |lines| && HasBytes(lines[i].item) && HasBytes(lines[j].item) ==>
      RoomBefore(lines, i, j)
  }

  lemma {:induction false} FirstAlign(lines: seq<Line>, n: nat)
    requires n <= |lines| && FirstPass(lines, n).ok
    ensures FirstPass(lines, n).alignment == AlignAt(lines, n, 0)
  {
    if n > 0 {
      FirstStays(lines, n - 1, n);
      FirstAlign(lines, n - 1);
    }
  }

  lemma {:induction false} SecondAlign(lines: seq<Line>, n: nat, f: First, second: bool, big: bool)
    requires n <= |lines|
    ensures SecondPass(lines, n, f, second, big).alignment == AlignAt(lines, n, f.alignment)
  {
    if n > 0 {
      SecondAlign(lines, n - 1, f, second, big);
    }
  }

  /** An error stays, and so does the position of a line. */
  lemma {:induction false} FirstStays(lines: seq<Line>, i: nat, n: nat)
    requires i <= n <= |lines| && FirstPass(lines, n).ok
    ensures FirstPass(lines, i).ok
    ensures forall k: nat :: k < i ==>
              (k in FirstPass(lines, n).lineno <==> k in FirstPass(lines, i).lineno)
              && (k in FirstPass(lines, i).lineno ==> FirstPass(lines, n).lineno[k] == FirstPass(lines, i).lineno[k])
    ensures forall name :: name in FirstPass(lines, i).labels ==>
              name in FirstPass(lines, n).labels && FirstPass(lines, n).labels[name] == FirstPass(lines, i).labels[name]
    decreases n
  {
    if i < n {
      FirstStays(lines, i, n - 1);
    }
  }

  lemma {:induction false} SameAlign(lines: seq<Line>, n: nat, a: int, b: int)
    requires n <= |lines|
    ensures AlignAt(lines, n, a) == AlignAt(lines, n, b)
         || (AlignAt(lines, n, a) == a && forall k :: 0 <= k < n ==> !SetsAlign(lines[k].item))
    decreases n
  {
    if n > 0 {
      SameAlign(lines, n - 1, a, b);
    }
  }

  // ---------- lengths ----------

  /** The bytes line i takes with the alignment in force. */
  function Length(lines: seq<Line>, i: nat, start: int): int
    requires i < |lines|
  {
    match lines[i].item
    case Insn(op, _) => InstByte(op)
    case Data(len, _) => if AlignAt(lines, i, start) != 0 then AlignAt(lines, i, start) else len
    case _ => 0
  }

  /** An instruction is encoded in as many bytes as the first pass set aside for it. */
  lemma EncodedLength(op: Op, args: Args, labels: map<string, int>, second: bool, big: bool)
    requires Encode(op, args, labels, second, big).Some?
    ensures |Encode(op, args, labels, second, big).value| == InstByte(op)
  {
  }

  lemma {:induction false} SecondLength(lines: seq<Line>, n: nat, f: First, second: bool, big: bool, i: nat)
    requires n <= |lines| && i in SecondPass(lines, n, f, second, big).bin
    requires SecondPass(lines, n, f, second, big).ok
    ensures i < n && (lines[i].item.Insn? || lines[i].item.Data?)
    ensures |SecondPass(lines, n, f, second, big).bin[i]| == Length(lines, i, f.alignment)
    decreases n
  {
    hide Encode;
    if n > 0 {
      SecondAlign(lines, n - 1, f, second, big);
      if i in SecondPass(lines, n - 1, f, second, big).bin {
        SecondLength(lines, n - 1, f, second, big, i);
      }
      var item := lines[n - 1].item;
      if item.Insn? && Encode(item.op, item.args, f.labels, second, big).Some? {
        EncodedLength(item.op, item.args, f.labels, second, big);
      }
    }
  }

  lemma {:induction false} AlignNotNegative(lines: seq<Line>, n: nat, a: int)
    requires n <= |lines| && a >= 0 && PositiveAligns(lines)
    ensures AlignAt(lines, n, a) >= 0
    decreases n
  {
    if n > 0 {
      AlignNotNegative(lines, n - 1, a);
    }
  }

  /** The first pass never goes back, and records for an instruction or data line the position before it. */
  lemma FirstAdvances(lines: seq<Line>, i: nat)
    requires Forward(lines) && i < |lines| && FirstPass(lines, i + 1).ok
    ensures FirstPass(lines, i).binpos <= FirstPass(lines, i + 1).binpos
    ensures lines[i].item.Insn? || lines[i].item.Data? ==>
              && i in FirstPass(lines, i + 1).lineno
              && FirstPass(lines, i + 1).lineno[i] == FirstPass(lines, i).binpos
              && FirstPass(lines, i + 1).binpos == FirstPass(lines, i).binpos + Length(lines, i, 0)
  {
    hide FirstPass, AlignAt;
    FirstStays(lines, i, i + 1);
    FirstAlign(lines, i);
    AlignNotNegative(lines, i, 0);
    Positions(lines, i);
  }

  lemma {:induction false} FirstMonotone(lines: seq<Line>, i: nat, j: nat)
    requires Forward(lines) && i <= j <= |lines| && FirstPass(lines, j).ok
    ensures 0 <= FirstPass(lines, i).binpos <= FirstPass(lines, j).binpos
    decreases j
  {
    hide FirstLine, Forward, Length;
    if i < j {
      FirstStays(lines, j - 1, j);
      FirstAdvances(lines, j - 1);
      FirstMonotone(lines, i, j - 1);
    } else if i > 0 {
      FirstStays(lines, i - 1, i);
      FirstAdvances(lines, i - 1);
      FirstMonotone(lines, i - 1, i - 1);
    }
  }

  /** Both passes agree on the length of a line, except a leading data line under a left-over alignment. */
  lemma SameLength(lines: seq<Line>, i: nat)
    requires i < |lines|
    ensures Leading(lines, i) ==> LeftOver(lines) != 0 ==> Length(lines, i, LeftOver(lines)) == LeftOver(lines)
    ensures !Leading(lines, i) || LeftOver(lines) == 0 ==> Length(lines, i, LeftOver(lines)) == Length(lines, i, 0)
  {
    SameAlign(lines, i, LeftOver(lines), 0);
    if Leading(lines, i) {
      NoAlign(lines, i, LeftOver(lines));
    }
  }

  lemma {:induction false} NoAlign(lines: seq<Line>, n: nat, a: int)
    requires n <= |lines| && forall k :: 0 <= k < n ==> !SetsAlign(lines[k].item)
    ensures AlignAt(lines, n, a) == a
    decreases n
  {
    if n > 0 {
      NoAlign(lines, n - 1, a);
    }
  }

  /** What the passes record for a line with bytes: pass one the position before it, pass two as many bytes as its
      length under the left-over alignment. */
  lemma RecordedLine(lines: seq<Line>, second: bool, big: bool, i: nat)
    requires Forward(lines) && Assemble(lines, second, big).Some?
    ensures var f := FirstPass(lines, |lines|); var s := SecondPass(lines, |lines|, f, second, big);
      && (i in s.bin <==> i < |lines| && HasBytes(lines[i].item))
      && (i in s.bin ==>
            && i in f.lineno && f.lineno[i] == FirstPass(lines, i).binpos
            && |s.bin[i]| == Length(lines, i, LeftOver(lines))
            && FirstPass(lines, i + 1).binpos == FirstPass(lines, i).binpos + Length(lines, i, 0))
  {
    var f := FirstPass(lines, |lines|);
    var s := SecondPass(lines, |lines|, f, second, big);
    FirstAlign(lines, |lines|);
    if i in s.bin {
      SecondLength(lines, |lines|, f, second, big, i);
    }
    if i < |lines| && HasBytes(lines[i].item) {
      LeftOverPositive(lines);
      SecondEmits(lines, |lines|, f, second, big, i);
      FirstStays(lines, i + 1, |lines|);
      FirstAdvances(lines, i);
    }
  }

  lemma LeftOverPositive(lines: seq<Line>)
    requires PositiveAligns(lines)
    ensures LeftOver(lines) >= 0
  {
    AlignNotNegative(lines, |lines|, 0);
  }

  /** Every instruction and every data line has bytes in the second pass. */
  lemma {:induction false} SecondEmits(lines: seq<Line>, n: nat, f: First, second: bool, big: bool, i: nat)
    requires i < n <= |lines| && HasBytes(lines[i].item) && PositiveAligns(lines) && f.alignment >= 0
    requires SecondPass(lines, n, f, second, big).ok
    ensures i in SecondPass(lines, n, f, second, big).bin
    decreases n
  {
    hide Encode;
    SecondAlign(lines, n - 1, f, second, big);
    AlignNotNegative(lines, n - 1, f.alignment);
    if i < n - 1 {
      SecondEmits(lines, n - 1, f, second, big, i);
    }
    var item := lines[n - 1].item;
    if item.Insn? && Encode(item.op, item.args, f.labels, second, big).Some? {
      EncodedLength(item.op, item.args, f.labels, second, big);
    }
  }

  /** A pair of lines: the bytes of the first end before the second starts, unless the first is stretched too far. */
  lemma PairOfLines(lines: seq<Line>, second: bool, big: bool, i: nat, j: nat)
    requires Forward(lines) && Assemble(lines, second, big).Some?
    requires i < j < |lines| && HasBytes(lines[i].item) && HasBytes(lines[j].item)
    ensures var f := FirstPass(lines, |lines|); var s := SecondPass(lines, |lines|, f, second, big);
      && i in s.bin && j in s.bin && i in f.lineno && j in f.lineno
      && (f.lineno[i] + |s.bin[i]| <= f.lineno[j] <==> RoomBefore(lines, i, j))
  {
    hide Forward, Leading, Assemble, SecondPass, Length;
    RecordedLine(lines, second, big, i);
    RecordedLine(lines, second, big, j);
    AllFine(lines, second, big);
    FirstStays(lines, j, |lines|);
    FirstMonotone(lines, i + 1, j);
    SameLength(lines, i);
  }

  lemma AllFine(lines: seq<Line>, second: bool, big: bool)
    requires Assemble(lines, second, big).Some?
    ensures FirstPass(lines, |lines|).ok
  {
  }

  /** The two passes agree, and every line's bytes are in the file at exactly the offset the first pass recorded, if and
      only if there is room for the leading data lines. */
  lemma LayoutExact(lines: seq<Line>, second: bool, big: bool)
    requires Forward(lines) && Assemble(lines, second, big).Some?
    ensures var f := FirstPass(lines, |lines|); var s := SecondPass(lines, |lines|, f, second, big);
      var o := Assemble(lines, second, big).value;
      (forall i: nat :: i in s.bin ==> i in f.lineno && Found(o, s.bin, i) && o.at[i] == f.lineno[i])
      <==> RoomForLeading(lines)
  {
    hide Forward, WriteLines, FirstPass, SecondPass, RoomForLeading, NoOverlap;
    var f := FirstPass(lines, |lines|);
    var s := SecondPass(lines, |lines|, f, second, big);
    RoomIsNoOverlap(lines, second, big);
    forall i: nat ensures i in s.bin ==> i < |lines| && i in f.lineno {
      RecordedLine(lines, second, big, i);
    }
    OutputExact(f.lineno, s.bin, |lines|);
    WrittenStays(f.lineno, s.bin, |lines|);
    var o := WriteLines(|lines|, f.lineno, s.bin);
    assert Assemble(lines, second, big) == Some(o);
    if forall i: nat :: i in s.bin ==> i in f.lineno && Found(o, s.bin, i) && o.at[i] == f.lineno[i] {
      assert AsRecorded(o, f.lineno, s.bin, |lines|);
    }
    if AsRecorded(o, f.lineno, s.bin, |lines|) {
      forall i: nat | i in s.bin ensures i in f.lineno && Found(o, s.bin, i) && o.at[i] == f.lineno[i] {
        assert Emitted(f.lineno, s.bin, i);
      }
    }
  }

  /** There is room for the leading lines exactly if no two recorded lines overlap. */
  lemma RoomIsNoOverlap(lines: seq<Line>, second: bool, big: bool)
    requires Forward(lines) && Assemble(lines, second, big).Some?
    ensures var f := FirstPass(lines, |lines|); var s := SecondPass(lines, |lines|, f, second, big);
      NoOverlap(f.lineno, s.bin, |lines|) <==> RoomForLeading(lines)
  {
    hide Forward, FirstPass, SecondPass, RoomBefore, HasBytes, Assemble;
    var f := FirstPass(lines, |lines|);
    var s := SecondPass(lines, |lines|, f, second, big);
    AllFine(lines, second, big);
    forall i: nat
      ensures Emitted(f.lineno, s.bin, i) <==> i < |lines| && HasBytes(lines[i].item)
      ensures Emitted(f.lineno, s.bin, i) ==> f.lineno[i] >= 0
    {
      RecordedLine(lines, second, big, i);
      if i in s.bin {
        FirstMonotone(lines, i, |lines|);
      }
    }
    forall i: nat, j: nat | i < j < |lines| && HasBytes(lines[i].item) && HasBytes(lines[j].item)
      ensures Emitted(f.lineno, s.bin, i) && Emitted(f.lineno, s.bin, j)
      ensures f.lineno[i] + |s.bin[i]| <= f.lineno[j] <==> RoomBefore(lines, i, j)
    {
      PairOfLines(lines, second, big, i, j);
    }
    hide Emitted;
  }

  /** A label names the offset of the instruction or data that follows it, if only labels come in between. */
  lemma LabelIsOffset(lines: seq<Line>, second: bool, big: bool, i: nat, j: nat)
    requires Forward(lines) && RoomForLeading(lines) && Assemble(lines, second, big).Some?
    requires i <= j < |lines| && lines[i].name.Some? && forall k :: i <= k < j ==> lines[k].item.Empty?
    ensures var f := FirstPass(lines, |lines|); var s := SecondPass(lines, |lines|, f, second, big);
      j in s.bin ==>
        lines[i].name.value in f.labels && j in Assemble(lines, second, big).value.at
        && f.labels[lines[i].name.value] == Assemble(lines, second, big).value.at[j]
  {
    hide Forward, RoomForLeading, WriteLines;
    var f := FirstPass(lines, |lines|);
    FirstStays(lines, i + 1, |lines|);
    assert FirstPass(lines, i + 1) == FirstLine(FirstPass(lines, i), i, lines[i]);
    LayoutExact(lines, second, big);
    RecordedLine(lines, second, big, j);
    FirstStays(lines, j, |lines|);
    EmptyLines(lines, i, j);
  }

  lemma {:induction false} EmptyLines(lines: seq<Line>, i: nat, j: nat)
    requires i <= j <= |lines| && forall k :: i <= k < j ==> lines[k].item.Empty?
    ensures FirstPass(lines, j).binpos == FirstPass(lines, i).binpos
    decreases j
  {
    if i < j {
      EmptyLines(lines, i, j - 1);
    }
  }

  /** Without the guard it fails: two words, then .align 8 and a third word. The second pass starts with alignment 8 and
      gives the first word 8 bytes, but the first pass put the second word at 4. */
  lemma LeftOverAlignmentMovesData()
    ensures var lines := [Word(1), Word(2), Line(None, Align(8)), Word(3)];
      var f := FirstPass(lines, 4); var s := SecondPass(lines, 4, f, true, false);
      && Assemble(lines, true, false).Some? && !AsRecorded(Assemble(lines, true, false).value, f.lineno, s.bin, 4)
  {
    hide Endian, Word;
    var lines := [Word(1), Word(2), Line(None, Align(8)), Word(3)];
    WordIs(1);
    WordIs(2);
    WordIs(3);
    var f0, f1, f2, f3, f := FirstPass(lines, 0), FirstPass(lines, 1), FirstPass(lines, 2), FirstPass(lines, 3),
                             FirstPass(lines, 4);
    assert f0 == First(0, 0, map[], map[], true);
    assert f1 == FirstLine(f0, 0, Word(1)) == First(4, 0, map[], map[0 := 0], true);
    assert f2 == FirstLine(f1, 1, Word(2)) == First(8, 0, map[], map[0 := 0, 1 := 4], true);
    assert f3 == FirstLine(f2, 2, Line(None, Align(8))) == First(8, 8, map[], map[0 := 0, 1 := 4, 2 := 8], true);
    assert f == FirstLine(f3, 3, Word(3)) == First(16, 8, map[], map[0 := 0, 1 := 4, 2 := 8, 3 := 8], true);
    var s0, s1, s2, s3, s := SecondPass(lines, 0, f, true, false), SecondPass(lines, 1, f, true, false),
      SecondPass(lines, 2, f, true, false), SecondPass(lines, 3, f, true, false), SecondPass(lines, 4, f, true, false);
    assert s0 == Second(8, map[], true);
    assert s1 == SecondItem(s0, 0, Word(1).item, f.labels, true, false);
    assert s2 == SecondItem(s1, 1, Word(2).item, f.labels, true, false);
    assert s3 == SecondItem(s2, 2, Align(8), f.labels, true, false);
    assert s == SecondItem(s3, 3, Word(3).item, f.labels, true, false);
    assert Emitted(f.lineno, s.bin, 0) && Emitted(f.lineno, s.bin, 1) && |s.bin[0]| == 8;
    assert !NoOverlap(f.lineno, s.bin, 4);
    OutputExact(f.lineno, s.bin, 4);
  }

  /** A line `.long x`. */
  function Word(x: int): Line {
    Line(None, Data(4, Operand("", Some(x))))
  }

  lemma WordIs(x: int)
    ensures Word(x).name == None && Word(x).item.Data? && Word(x).item.bytelen == 4
    ensures Word(x).item.value.text == "" && Word(x).item.value.number == Some(x)
  {
  }
}
