/** The machine integers of the source: 64-bit addresses and values as numbers, and
    their passage to and from bit-vectors. */
module Ints {

  type U64 = n: int | 0 <= n < 0x1_0000_0000_0000_0000
  type I64 = n: int | -0x8000_0000_0000_0000 <= n < 0x8000_0000_0000_0000
  type I32 = n: int | -0x8000_0000 <= n < 0x8000_0000

  // wrapping_add and wrapping_sub.
  function Add(a: U64, b: U64): U64 {
    if a + b < 0x1_0000_0000_0000_0000 then a + b else a + b - 0x1_0000_0000_0000_0000
  }

  function Sub(a: U64, b: U64): U64 {
    if a >= b then a - b else a - b + 0x1_0000_0000_0000_0000
  }

  // `as i64` and `as u64`.
  function Signed(u: U64): I64 {
    if u < 0x8000_0000_0000_0000 then u else u - 0x1_0000_0000_0000_0000
  }

  function Unsigned(i: I64): U64 {
    if i >= 0 then i else i + 0x1_0000_0000_0000_0000
  }

  // `as u32`: the low 32 bits, from the binary expansion.
  function Low32(u: U64): bv32
    decreases u
  {
    if u == 0 then 0 else (Low32(u / 2) << 1) | (if u % 2 == 1 then 1 else 0)
  }

  // A word is recovered from its number.
  lemma Low32Of(x: bv32)
    ensures Low32(x as int) == x
  {
    var y := WordOf(x as int);
    NumberOf32(x);
    NumberOf32(y);
  }

  lemma NumberOf32(x: bv32)
    ensures (x as int) as bv32 == x
  {
  }

  // Every 32-bit number is the number of the word Low32 builds.
  lemma {:induction false} WordOf(n: nat) returns (x: bv32)
    requires n < 0x1_0000_0000
    ensures x as int == n && Low32(n) == x
    decreases n
  {
    if n == 0 {
      x := 0;
    } else {
      var h, odd := Halve(n);
      var y := WordOf(h);
      Low32Unfold(h, odd);
      x := Twice(y, odd);
    }
  }

  lemma Halve(n: nat) returns (h: nat, odd: bool)
    requires 0 < n < 0x1_0000_0000
    ensures n == (if odd then 2 * h + 1 else 2 * h) && h < n && h < 0x8000_0000
  {
    h, odd := n / 2, n % 2 == 1;
  }

  lemma Low32Unfold(h: nat, odd: bool)
    requires h < 0x8000_0000
    ensures Low32(if odd then 2 * h + 1 else 2 * h) == (Low32(h) << 1) | (if odd then 1 else 0)
  {
    var u: U64 := if odd then 2 * h + 1 else 2 * h;
    assert u / 2 == h && (u % 2 == 1) == odd;
  }

  lemma Twice(y: bv32, odd: bool) returns (x: bv32)
    requires y as int < 0x8000_0000
    ensures x == (y << 1) | (if odd then 1 else 0)
    ensures x as int == if odd then 2 * (y as int) + 1 else 2 * (y as int)
  {
    Doubled(y);
    if odd {
      x := (y << 1) | 1;
    } else {
      x := y << 1;
    }
  }

  lemma Doubled(x: bv32)
    requires x as int < 0x8000_0000
    ensures (x << 1) as int == 2 * (x as int)
    ensures ((x << 1) | 1) as int == 2 * (x as int) + 1
    ensures (x << 1) | 0 == x << 1
  {
  }

  // A word that fits a narrower field is a number below its size.
  lemma Below16(x: bv32)
    requires x <= 0xffff
    ensures x as int <= 0xffff
  {
    Widened16(x as bv16);
  }

  lemma Widened16(y: bv16)
    ensures (y as bv32) as int == y as int
  {
  }

  lemma Widened26(y: bv26)
    ensures (y as bv32) as int == y as int
  {
  }

  lemma Widened19(y: bv19)
    ensures (y as bv32) as int == y as int
  {
  }

  lemma Widened14(y: bv14)
    ensures (y as bv32) as int == y as int
  {
  }

  lemma Widened9(y: bv9)
    ensures (y as bv32) as int == y as int
  {
  }

  lemma Below7(x: bv32)
    requires x <= 0x7f
    ensures x as int <= 0x7f
  {
  }
}
