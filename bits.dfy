/** Integer and bit-level helpers shared by the machine model.
    Values the emulator keeps in Python `int`s are modelled as Dafny `int`s; a bit
    test on an int follows Python's two's-complement semantics, which for a positive
    power-of-two divisor coincide with Dafny's Euclidean `/` and `%`. */
module Bits {

  const BYTE_MOD: int := 0x100
  const WORD_MOD: int := 0x10000

  predicate IsByte(v: int) { 0 <= v < 0x100 }
  predicate IsWord(v: int) { 0 <= v < 0x10000 }

  /** Python's `v & 0xff` and `v & 0xffff` for any int v. */
  function Low8(v: int): (r: int)
    ensures IsByte(r)
    ensures IsByte(v) ==> r == v
  { v % 0x100 }

  function Low16(v: int): (r: int)
    ensures IsWord(r)
    ensures IsWord(v) ==> r == v
  { v % 0x10000 }

  /** Mask to an operand width: 16 bits when `word`, else 8 bits. */
  function Mask(word: bool, v: int): (r: int)
    ensures word ==> IsWord(r)
    ensures !word ==> IsByte(r)
  { if word then Low16(v) else Low8(v) }

  /** 2 to the power k. */
  function Pow2(k: nat): (r: nat)
    ensures r >= 1
  { if k == 0 then 1 else 2 * Pow2(k - 1) }

  lemma Pow2Values()
    ensures Pow2(8) == 0x100 && Pow2(16) == 0x10000
  {
    assert Pow2(4) == 16;
  }

  /** Python's `(v >> k) & 1 == 1`: shift right by halving (floor division), then
      test the low bit. */
  predicate BitSet(v: int, k: nat)
    decreases k
  { if k == 0 then v % 2 == 1 else BitSet(v / 2, k - 1) }

  /** Python's `(v & m) != 0` for a single-bit mask m (any int v, two's complement). */
  predicate HasBit(v: int, m: nat)
    requires m > 0
  { (v / m) % 2 == 1 }

  /** Python's `&`, `|` and `^` on non-negative ints, bit by bit from the bottom. */
  function BitAnd(x: nat, y: nat): (r: nat)
    ensures r <= x && r <= y
    decreases x
  {
    if x == 0 || y == 0 then 0
    else 2 * BitAnd(x / 2, y / 2) + (if x % 2 == 1 && y % 2 == 1 then 1 else 0)
  }

  function BitOr(x: nat, y: nat): (r: nat)
    ensures r >= x && r >= y
    ensures r <= x + y
    decreases x + y
  {
    if x == 0 then y
    else if y == 0 then x
    else 2 * BitOr(x / 2, y / 2) + (if x % 2 == 1 || y % 2 == 1 then 1 else 0)
  }

  function BitXor(x: nat, y: nat): (r: nat)
    ensures r <= x + y
    decreases x + y
  {
    if x == 0 then y
    else if y == 0 then x
    else 2 * BitXor(x / 2, y / 2) + (if (x % 2 == 1) != (y % 2 == 1) then 1 else 0)
  }

  /** Below a power of two, `|` and `^` stay below it. */
  lemma {:induction false} BitOrXorBound(x: nat, y: nat, k: nat)
    requires x < Pow2(k) && y < Pow2(k)
    ensures BitOr(x, y) < Pow2(k) && BitXor(x, y) < Pow2(k)
    decreases k
  {
    if k > 0 && x != 0 && y != 0 {
      BitOrXorBound(x / 2, y / 2, k - 1);
    }
  }

  /** Population count of a natural number. */
  function PopCount(n: nat): nat
    decreases n
  { if n == 0 then 0 else n % 2 + PopCount(n / 2) }

  /** A power of two has exactly one set bit. */
  lemma {:induction false} PopCountPow2(k: nat)
    ensures PopCount(Pow2(k)) == 1
  {
    if k > 0 {
      PopCountPow2(k - 1);
      assert Pow2(k) / 2 == Pow2(k - 1) && Pow2(k) % 2 == 0;
    }
  }

  /** The parity flag rule: set iff the population count is even. */
  predicate EvenParity(n: nat) { PopCount(n) % 2 == 0 }

  /** Python's `n & (n - 1)` on a positive integer: clears the lowest set bit. */
  function ClearLowestBit(n: nat): (r: nat)
    requires n > 0
    decreases n
  {
    if n % 2 == 1 then n - 1 else 2 * ClearLowestBit(n / 2)
  }

  lemma {:induction false} ClearLowestBitCount(n: nat)
    requires n > 0
    ensures ClearLowestBit(n) < n
    ensures PopCount(ClearLowestBit(n)) + 1 == PopCount(n)
    decreases n
  {
    if n % 2 == 1 {
      assert (n - 1) / 2 == n / 2;
      assert (n - 1) % 2 == 0;
    } else {
      ClearLowestBitCount(n / 2);
      var c := ClearLowestBit(n / 2);
      assert (2 * c) / 2 == c && (2 * c) % 2 == 0;
    }
  }

  /** The bit-clearing step as Python evaluates it on a NEGATIVE int: in two's
      complement `v & (v - 1)` subtracts the lowest set bit, which stays negative. */
  function LowestSetBit(v: int): (r: nat)
    requires v != 0
    ensures r >= 1
    decreases if v < 0 then -v else v
  {
    if v % 2 != 0 then 1 else 2 * LowestSetBit(v / 2)
  }

  function ClearLowestBitInt(v: int): int
    requires v != 0
  { v - LowestSetBit(v) }

  /** Python's ToSigned8 / ToSigned16: reinterpret the low bits as two's complement. */
  function ToSigned8(n: int): (r: int)
    ensures -0x80 <= r < 0x80
    ensures Low8(r) == Low8(n)
  { var m := Low8(n); if m >= 0x80 then m - 0x100 else m }

  function ToSigned16(n: int): (r: int)
    ensures -0x8000 <= r < 0x8000
    ensures Low16(r) == Low16(n)
  { var m := Low16(n); if m >= 0x8000 then m - 0x10000 else m }

  function Abs(x: int): nat { if x < 0 then -x else x }
  /** `lo | (hi << k)` when lo fits in k bits: the two parts do not overlap, so
      the OR is a sum. */
  lemma {:induction false} BitOrDisjoint(lo: nat, hi: nat, k: nat)
    requires lo < Pow2(k)
    ensures BitOr(lo, hi * Pow2(k)) == lo + hi * Pow2(k)
    decreases k
  {
    if k > 0 && lo != 0 && hi != 0 {
      calc {
        hi * Pow2(k);
        2 * (hi * Pow2(k - 1));
      }
      BitOrDisjoint(lo / 2, hi, k - 1);
    }
  }
}
