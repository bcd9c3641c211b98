/** What the condition codes of a comparison mean. */
module Conditions {
  import opened Words
  import opened Y86

  /** After B - A, the overflow flag is set exactly when the difference does not fit. */
  lemma SubtractionFlags(a: int, b: int, cc: CC)
    requires IsInt(a) && IsInt(b)
    ensures var c := AluCC(a, b, ALUSUB, cc);
      && (c.zf <==> a == b)
      && (c.of <==> !IsInt(b - a))
      && (c.sf <==> if IsInt(b - a) then b < a else a < b)
  {
    var r := AluCalc(a, b, ALUSUB);
    assert r == if b - a < -TWO_31 then b - a + TWO_32 else if b - a >= TWO_31 then b - a - TWO_32 else b - a;
  }

  /** After B + A, the overflow flag is set exactly when the sum does not fit, and the result is the sum modulo 2^32. */
  lemma AdditionFlags(a: int, b: int, cc: CC)
    requires IsInt(a) && IsInt(b)
    ensures var c := AluCC(a, b, ALUADD, cc); var r := AluCalc(a, b, ALUADD);
      && (c.of <==> !IsInt(a + b)) && (c.zf <==> r == 0) && (c.sf <==> r < 0)
      && IsInt(r) && (r - (a + b)) % TWO_32 == 0 && (IsInt(a + b) ==> r == a + b)
  {
    var r := AluCalc(a, b, ALUADD);
    assert r == if a + b < -TWO_31 then a + b + TWO_32 else if a + b >= TWO_31 then a + b - TWO_32 else a + b;
  }

  /** Bit k of a pattern. */
  predicate Bit(w: nat, k: nat)
    decreases k
  {
    if k == 0 then w % 2 == 1 else Bit(w / 2, k - 1)
  }

  predicate NoBit(w: nat, n: nat) {
    forall k: nat :: k < n ==> !Bit(w, k)
  }

  function Pow2(k: nat): nat
    decreases k
  {
    if k == 0 then 1 else 2 * Pow2(k - 1)
  }

  lemma {:induction false} CombineBound(x: nat, y: nat, n: nat, xor: bool)
    ensures Combine(x, y, n, xor) < Pow2(n)
    decreases n
  {
    if n > 0 {
      CombineBound(x / 2, y / 2, n - 1, xor);
    }
  }

  lemma {:induction false} CombineBit(x: nat, y: nat, n: nat, xor: bool, k: nat)
    requires k < n
    ensures Bit(Combine(x, y, n, xor), k) == OneBit(Bit(x, k), Bit(y, k), xor)
    decreases n
  {
    hide OneBit;
    var r := Combine(x, y, n, xor);
    assert r / 2 == Combine(x / 2, y / 2, n - 1, xor) && (r % 2 == 1 <==> OneBit(x % 2 == 1, y % 2 == 1, xor));
    hide Combine;
    if k > 0 {
      CombineBit(x / 2, y / 2, n - 1, xor, k - 1);
    }
  }

  lemma {:induction false} HighBit(w: nat, k: nat)
    requires w < 2 * Pow2(k)
    ensures Bit(w, k) <==> w >= Pow2(k)
    decreases k
  {
    if k > 0 {
      HighBit(w / 2, k - 1);
    }
  }

  lemma Powers()
    ensures Pow2(31) == TWO_31 && Pow2(32) == TWO_32
  {
    assert Pow2(8) == 0x100;
    assert Pow2(16) == 0x1_0000;
    assert Pow2(24) == 0x100_0000;
  }

  /** The bitwise operations work bit by bit on the 32-bit patterns. */
  lemma BitwiseResult(a: int, b: int, k: nat)
    requires k < 32
    ensures Bit(ToWord(AluCalc(a, b, ALUAND)), k) <==> Bit(ToWord(a), k) && Bit(ToWord(b), k)
    ensures Bit(ToWord(AluCalc(a, b, ALUXOR)), k) <==> Bit(ToWord(a), k) != Bit(ToWord(b), k)
  {
    Powers();
    CombineBound(ToWord(b), ToWord(a), 32, false);
    CombineBound(ToWord(b), ToWord(a), 32, true);
    CombineBit(ToWord(b), ToWord(a), 32, false, k);
    CombineBit(ToWord(b), ToWord(a), 32, true, k);
    WrapKeeps(Combine(ToWord(b), ToWord(a), 32, false));
    WrapKeeps(Combine(ToWord(b), ToWord(a), 32, true));
    hide Combine, Pow2, Bit, Wrap, ToWord;
  }

  lemma WrapKeeps(w: nat)
    requires w < TWO_32
    ensures ToWord(Wrap(w)) == w
  {
  }

  /** They never overflow, and their flags say whether no bit is set and whether the highest one is; an undefined
      operation leaves the codes alone. */
  lemma OtherFlags(a: int, b: int, fun: int, cc: CC)
    requires fun !in {ALUADD, ALUSUB}
    ensures var c := AluCC(a, b, fun, cc); var r := AluCalc(a, b, fun);
      && (fun in {ALUAND, ALUXOR} ==> !c.of && (c.sf <==> Bit(ToWord(r), 31)))
      && (fun in {ALUAND, ALUXOR} ==> (c.zf <==> NoBit(ToWord(r), 32)))
      && (fun !in {ALUAND, ALUXOR} ==> c == cc && r == 0)
  {
    hide Bit, ToWord, Combine;
    SignBit(AluCalc(a, b, fun));
  }

  lemma SignBit(r: int)
    requires IsInt(r)
    ensures (r == 0 <==> NoBit(ToWord(r), 32)) && (Bit(ToWord(r), 31) <==> r < 0)
  {
    Powers();
    HighBit(ToWord(r), 31);
    SomeBit(ToWord(r), 32);
    hide Bit, Pow2;
  }

  /** A pattern other than 0 has a bit. */
  lemma {:induction false} SomeBit(w: nat, n: nat)
    requires w < Pow2(n)
    ensures w == 0 <==> NoBit(w, n)
    decreases n
  {
    if n > 0 {
      SomeBit(w / 2, n - 1);
      if w == 0 {
        forall k: nat | k < n ensures !Bit(w, k) {
          assert 0 < k ==> !Bit(w / 2, k - 1);
        }
      } else if w / 2 == 0 {
        assert Bit(w, 0);
      } else {
        var k: nat :| k < n - 1 && Bit(w / 2, k);
        var j := k + 1;
        assert j < n && Bit(w, j);
      }
    }
  }

  /** Every condition but `ge` tests the signed comparison of B with A. */
  lemma ComparisonConditions(a: int, b: int, cc: CC)
    requires IsInt(a) && IsInt(b)
    ensures var c := AluCC(a, b, ALUSUB, cc);
      && (GetCnd(1, c) <==> b <= a)
      && (GetCnd(2, c) <==> b < a)
      && (GetCnd(3, c) <==> b == a)
      && (GetCnd(4, c) <==> b != a)
      && (GetCnd(6, c) <==> b > a)
  {
    SubtractionFlags(a, b, cc);
    hide AluCC;
  }

  /** `ge` combines SF with ZF: it is right exactly when the operands differ and their difference fits. */
  lemma GreaterOrEqualCondition(a: int, b: int, cc: CC)
    requires IsInt(a) && IsInt(b)
    ensures (GetCnd(5, AluCC(a, b, ALUSUB, cc)) <==> b >= a) <==> a != b && IsInt(b - a)
  {
    SubtractionFlags(a, b, cc);
    hide AluCC;
  }
}
