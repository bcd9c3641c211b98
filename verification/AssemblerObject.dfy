/** The assembler object, whose loops update positions, alignment and tables line by line. */
module AssemblerObject {
  import opened Words
  import opened Assembler

  class YAssembler {
    const bigendian: bool
    const second: bool

    constructor (bigendian: bool, second: bool)
      ensures this.bigendian == bigendian && this.second == second
    {
      this.bigendian, this.second := bigendian, second;
    }

    /** The digits of x until it is 0, then zeros up to the length; a negative x never gets to 0. */
    method EndianStr(x: int, length: int) returns (s: seq<Byte>)
      ensures s == Endian(x, if length < 0 then 0 else length, bigendian)
    {
      hide Reverse;
      s := [];
      var y := x;
      var nowlen := 0;
      ghost var n := if length < 0 then 0 else length;
      StartAround(Digits(x, n), bigendian);
      while y != 0 && nowlen < length
        invariant 0 <= nowlen <= n
        invariant Endian(x, n, bigendian) == Around(s, Digits(y, n - nowlen), bigendian)
        decreases length - nowlen
      {
        MoveDigit(s, y, n - nowlen, bigendian);
        s := if bigendian then [y % 256] + s else s + [y % 256];
        y := y / 256;
        nowlen := nowlen + 1;
      }
      while nowlen < length
        invariant 0 <= nowlen <= n && (nowlen < n ==> y == 0)
        invariant Endian(x, n, bigendian) == Around(s, Digits(y, n - nowlen), bigendian)
      {
        MoveDigit(s, y, n - nowlen, bigendian);
        s := if bigendian then [0] + s else s + [0];
        nowlen := nowlen + 1;
      }
      StartAround(s, bigendian);
    }

    /** Collects labels and positions. */
    method PassOne(lines: seq<Line>) returns (f: First)
      ensures f == FirstPass(lines, |lines|)
    {
      var binpos, alignment, ok := 0, 0, true;
      var labels: map<string, int> := map[];
      var lineno: map<nat, int> := map[];
      var i := 0;
      while i < |lines|
        invariant 0 <= i <= |lines|
        invariant First(binpos, alignment, labels, lineno, ok) == FirstPass(lines, i)
      {
        var line := lines[i];
        var skip := false;
        if line.name.Some? {
          if line.name.value in labels {
            ok, skip := false, true;
          } else {
            labels := labels[line.name.value := binpos];
            lineno := lineno[i := binpos];
          }
        }
        if !skip {
          match line.item
          case Empty =>
          case Insn(op, _) =>
            alignment := 0;
            lineno := lineno[i := binpos];
            binpos := binpos + InstByte(op);
          case Pos(n) =>
            binpos := n;
            lineno := lineno[i := binpos];
          case Align(a) =>
            alignment := a;
            if a == 0 {
              ok := false;
            } else {
              if PyMod(binpos, a) != 0 {
                binpos := binpos + (a - PyMod(binpos, a));
              }
              lineno := lineno[i := binpos];
            }
          case Data(len, _) =>
            lineno := lineno[i := binpos];
            binpos := binpos + if alignment != 0 then alignment else len;
        }
        i := i + 1;
      }
      f := First(binpos, alignment, labels, lineno, ok);
    }

    /** Converts the lines, with the labels and the alignment the first pass ended with. */
    method PassTwo(lines: seq<Line>, f: First) returns (s: Second)
      ensures s == SecondPass(lines, |lines|, f, second, bigendian)
    {
      var alignment, ok := f.alignment, true;
      var bin: map<nat, seq<Byte>> := map[];
      var i := 0;
      while i < |lines|
        invariant 0 <= i <= |lines|
        invariant Second(alignment, bin, ok) == SecondPass(lines, i, f, second, bigendian)
      {
        var resbin := [];
        match lines[i].item {
          case Empty =>
          case Pos(_) =>
          case Align(a) => alignment := a;
          case Insn(op, args) =>
            alignment := 0;
            var code := Encode(op, args, f.labels, second, bigendian);
            if code == None { ok := false; } else { resbin := code.value; }
          case Data(len, value) =>
            var length := if alignment != 0 then alignment else len;
            var x := Resolve(f.labels, value);
            if x == None { ok := false; } else { resbin := EndianStr(x.value, length); }
        }
        if resbin != [] {
          bin := bin[i := resbin];
        }
        i := i + 1;
      }
      s := Second(alignment, bin, ok);
    }

    /** Writes each line's bytes, with zeros in front up to its recorded position. */
    method WriteBinary(n: nat, lineno: map<nat, int>, bin: map<nat, seq<Byte>>) returns (bytes: seq<Byte>)
      ensures bytes == WriteLines(n, lineno, bin).bytes
    {
      bytes := [];
      ghost var o := Output(0, [], map[]);
      var binpos := 0;
      var i := 0;
      while i < n
        invariant 0 <= i <= n
        invariant o == WriteLines(i, lineno, bin) && bytes == o.bytes && binpos == o.binpos
      {
        o := WriteLine(o, i, lineno, bin);
        if i in bin && i in lineno {
          var ystr, nowaddr := bin[i], lineno[i];
          if binpos != nowaddr {
            bytes := bytes + Blank(nowaddr - binpos);
            binpos := nowaddr;
          }
          binpos := binpos + |ystr|;
          bytes := bytes + ystr;
        }
        i := i + 1;
      }
    }

    /** The binary file, or an error. */
    method RunAssembler(lines: seq<Line>) returns (file: Option<seq<Byte>>)
      ensures file == match Assemble(lines, second, bigendian) case None => None case Some(o) => Some(o.bytes)
    {
      var f := PassOne(lines);
      if !f.ok {
        return None;
      }
      var s := PassTwo(lines, f);
      if !s.ok {
        return None;
      }
      var bytes := WriteBinary(|lines|, f.lineno, s.bin);
      file := Some(bytes);
    }
  }

  lemma StartAround(s: seq<Byte>, big: bool)
    ensures Around([], s, big) == if big then Reverse(s) else s
    ensures Around(s, [], big) == s
  {
    assert Reverse([]) + s == s;
  }

  /** The next digit goes to the end, or to the front. */
  lemma MoveDigit(s: seq<Byte>, y: int, n: nat, big: bool)
    requires n > 0
    ensures Around(s, Digits(y, n), big)
         == Around(if big then [y % 256] + s else s + [y % 256], Digits(y / 256, n - 1), big)
  {
    var rest := Digits(y / 256, n - 1);
    assert Digits(y, n)[1..] == rest;
    assert Reverse(rest) + [y % 256] + s == Reverse(rest) + ([y % 256] + s);
    assert s + ([y % 256] + rest) == (s + [y % 256]) + rest;
  }

  /** The rest of the digits joined to those already there. */
  ghost function Around(s: seq<Byte>, digits: seq<Byte>, big: bool): seq<Byte> {
    if big then Reverse(digits) + s else s + digits
  }
}
