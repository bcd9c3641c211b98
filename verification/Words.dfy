/** 32-bit machine integers, modelled on unbounded `int` with the wrap-around written out. */
module Words {

  const TWO_31: int := 0x8000_0000
  const TWO_32: int := 0x1_0000_0000

  type Byte = b: int | 0 <= b < 256

  /** The values of a C++ `int`. */
  predicate IsInt(x: int) {
    -TWO_31 <= x < TWO_31
  }

  /** Two's complement reduction to a C++ `int`. */
  function Wrap(x: int): (r: int)
    ensures IsInt(r) && (IsInt(x) ==> r == x)
  {
    (x + TWO_31) % TWO_32 - TWO_31
  }

  /** The conversion of an `int` to the unsigned type WORD. */
  function ToWord(x: int): (r: int)
    ensures 0 <= r < TWO_32
  {
    x % TWO_32
  }

  /** The n low bits of two patterns, combined bit by bit: exclusive or, or else and. */
  function Combine(x: nat, y: nat, n: nat, xor: bool): (r: nat)
    decreases n
  {
    if n == 0 then 0 else
    2 * Combine(x / 2, y / 2, n - 1, xor) + if OneBit(x % 2 == 1, y % 2 == 1, xor) then 1 else 0
  }

  predicate OneBit(a: bool, b: bool, xor: bool) {
    if xor then a != b else a && b
  }

  /** Bitwise operators, taken on the 32-bit patterns of their operands. */
  function BitAnd(x: int, y: int): int {
    Wrap(Combine(ToWord(x), ToWord(y), 32, false))
  }

  function BitXor(x: int, y: int): int {
    Wrap(Combine(ToWord(x), ToWord(y), 32, true))
  }
}
