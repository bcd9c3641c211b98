/** Words in memory: what the byte loops of the core compute, and what stores leave alone. */
module WordAccess {
  import opened Words
  import opened Y86

  function Pow256(n: nat): (r: int)
    ensures r > 0
  {
    if n == 0 then 1 else 256 * Pow256(n - 1)
  }

  /** Truncating after each addition is the same as truncating once. */
  lemma WrapAdd(x: int, y: int)
    ensures Wrap(Wrap(x) + Wrap(y)) == Wrap(x + y)
  {
    var a, b := (x + TWO_31) / TWO_32, (y + TWO_31) / TWO_32;
    assert Wrap(x) == x - a * TWO_32 && Wrap(y) == y - b * TWO_32;
    WrapShift(x + y, -(a + b));
  }

  lemma WrapShift(x: int, k: int)
    ensures Wrap(x + k * TWO_32) == Wrap(x)
  {
    var q := (x + TWO_31) / TWO_32;
    assert x + TWO_31 + k * TWO_32 == (q + k) * TWO_32 + (x + TWO_31) % TWO_32;
  }

  /** The next byte has the next higher weight. */
  lemma {:induction false} ReadBytesSnoc(mem: Memory, addr: int, n: nat)
    ensures ReadBytes(mem, addr, n + 1) == ReadBytes(mem, addr, n) + ReadByte(mem, addr + n) * Pow256(n)
    decreases n
  {
    if n == 0 {
      assert ReadBytes(mem, addr + 1, 0) == 0;
    } else {
      ReadBytesSnoc(mem, addr + 1, n - 1);
      var b := ReadByte(mem, addr + n);
      assert 256 * (b * Pow256(n - 1)) == b * (256 * Pow256(n - 1));
    }
  }

  /** Addresses at most 2^31 apart name different bytes. */
  lemma DistinctWords(a: int, b: int)
    requires a != b && -TWO_31 <= a - b <= TWO_31
    ensures ToWord(a) != ToWord(b)
  {
    assert a - b == (a / TWO_32 - b / TWO_32) * TWO_32 + (ToWord(a) - ToWord(b));
  }

  /** A store changes the bytes it addresses, to the little-endian digits of the value, and no others. */
  lemma {:induction false} WriteBytesFrame(mem: Memory, addr: int, val: int, n: nat, b: int)
    requires forall i :: addr <= i < addr + n ==> ToWord(i) != b
    ensures var w := WriteBytes(mem, addr, val, n).mem;
      (b in w <==> b in mem) && (b in mem ==> w[b] == mem[b])
    decreases n
  {
    if n > 0 && ToWord(addr) in mem {
      WriteBytesFrame(mem[ToWord(addr) := val % 256], addr + 1, val / 256, n - 1, b);
    }
  }

  lemma {:induction false} WriteThenRead(mem: Memory, addr: int, val: int, n: nat)
    requires n <= 4 && AllReadable(mem, addr, n)
    ensures var w := WriteBytes(mem, addr, val, n);
      && !w.err && AllReadable(w.mem, addr, n)
      && ReadBytes(w.mem, addr, n) == val % Pow256(n)
    decreases n
  {
    if n == 0 {
      assert Pow256(0) == 1;
    } else {
      var m := mem[ToWord(addr) := val % 256];
      WriteThenRead(m, addr + 1, val / 256, n - 1);
      forall i | addr + 1 <= i < addr + n ensures ToWord(i) != ToWord(addr) {
        DistinctWords(i, addr);
      }
      WriteBytesFrame(m, addr + 1, val / 256, n - 1, ToWord(addr));
      ModStep(val, Pow256(n - 1));
    }
  }

  lemma ModStep(val: int, k: int)
    requires k > 0
    ensures val % 256 + 256 * ((val / 256) % k) == val % (256 * k)
  {
    var q := (val / 256) / k;
    var r := val % 256 + 256 * ((val / 256) % k);
    assert val == 256 * (val / 256) + val % 256;
    assert val / 256 == k * q + (val / 256) % k;
    assert val == (256 * k) * q + r by {
      assert 256 * (val / 256) == 256 * (k * q) + 256 * ((val / 256) % k);
      assert 256 * (k * q) == (256 * k) * q;
    }
    assert 0 <= r < 256 * k;
    ModUnique(val, 256 * k, q, r);
  }

  lemma ModUnique(x: int, m: int, q: int, r: int)
    requires m > 0 && x == m * q + r && 0 <= r < m
    ensures x % m == r
  {
    var d := x / m - q;
    assert m * d == r - x % m;
    MulAtLeast(m, d);
  }

  lemma MulAtLeast(m: int, d: int)
    requires m > 0
    ensures d >= 1 ==> m * d >= m
    ensures d <= -1 ==> m * d <= -m
  {
  }

  /** A word stored where all four bytes are accessible is read back, and nothing else changes. */
  lemma WordRoundTrip(mem: Memory, addr: int, val: int)
    requires AllReadable(mem, addr, 4)
    ensures var w := WriteWord(mem, addr, val);
      && !w.err && ReadWord(w.mem, addr) == Access(Wrap(val), false)
      && w.mem.Keys == mem.Keys
      && forall b :: b in mem && b !in {ToWord(addr), ToWord(addr + 1), ToWord(addr + 2), ToWord(addr + 3)} ==>
           w.mem[b] == mem[b]
  {
    var w := WriteWord(mem, addr, val);
    WriteThenRead(mem, addr, val, 4);
    assert Pow256(4) == TWO_32 by {
      assert Pow256(1) == 256 && Pow256(2) == 65536 && Pow256(3) == 16777216;
    }
    WrapShift(val % TWO_32, val / TWO_32);
    forall b | b !in {ToWord(addr), ToWord(addr + 1), ToWord(addr + 2), ToWord(addr + 3)}
      ensures (b in w.mem <==> b in mem) && (b in mem ==> w.mem[b] == mem[b])
    {
      WriteBytesFrame(mem, addr, val, 4, b);
    }
    assert forall i :: addr <= i < addr + 4 ==> ToWord(i) in w.mem && ToWord(i) in mem;
    assert forall b :: b in w.mem <==> b in mem;
  }

  /** A store that misses the six bytes an instruction can occupy does not change what is fetched there. */
  lemma StoreKeepsFetch(mem: Memory, addr: int, val: int, pc: int)
    requires forall i, j :: addr <= i < addr + 4 && pc <= j < pc + 6 ==> ToWord(i) != ToWord(j)
    ensures FetchAt(WriteWord(mem, addr, val).mem, pc) == FetchAt(mem, pc)
  {
    var w := WriteWord(mem, addr, val).mem;
    forall j | pc <= j < pc + 6 ensures ReadByte(w, j) == ReadByte(mem, j) {
      WriteBytesFrame(mem, addr, val, 4, ToWord(j));
    }
    SameBytes(w, mem, pc + 1, 4);
    SameBytes(w, mem, pc + 2, 4);
  }

  lemma {:induction false} SameBytes(mem: Memory, mem': Memory, addr: int, n: nat)
    requires forall j :: addr <= j < addr + n ==> ReadByte(mem, j) == ReadByte(mem', j)
    ensures ReadBytes(mem, addr, n) == ReadBytes(mem', addr, n)
    decreases n
  {
    if n > 0 {
      SameBytes(mem, mem', addr + 1, n - 1);
    }
  }
}
