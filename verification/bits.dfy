/** Bitmask immediates: `src/decode/bits.rs` and its inverse `src/encode/bits.rs`.
    Words are `Word64.Word`; the small fields (immN, imms, immr, sizes, shifts) are
    natural numbers, `x & (2^k - 1)` being `x % 2^k` on them. */
module Bits {
  import opened Word64
  import opened Wrappers

  datatype BitMasks = BitMasks(wmask: Word, tmask: Word)

  // --- The helpers of the source. ---

  function Bits64(value: Word, lsb: nat, width: nat): Word {
    if width == 0 then Zero() else And(Shr(value, lsb), Low(width))
  }

  function HighestSetBit(value: nat): int {
    if value == 0 then -1 else 1 + HighestSetBit(value / 2)
  }

  function Ror(x: Word, shift: nat, width: nat): Word
    requires shift < width <= 64
  {
    if shift == 0 then Bits64(x, 0, width)
    else Bits64(Or(Shr(Bits64(x, 0, width), shift), Shl(Bits64(x, 0, width), width - shift)), 0, width)
  }

  // --- What they mean, position by position. ---

  // The from-bit unit of value laid end to end over `to` positions; a length the
  // source calls out of range leaves the word alone.
  function Replicated(value: Word, from: nat, to: nat): Word {
    if from == 0 || from > 64 || to == 0 || to > 64 || from > to then value
    else seq(64, i requires 0 <= i < 64 => i < to && value[i % from])
  }

  // S + 1 consecutive ones in every e positions, rotated right by R.
  function RunPattern(width: nat, e: nat, s: nat, r: nat): Word
    requires e > 0
  {
    seq(64, i requires 0 <= i < 64 => i < width && (i + r) % e <= s)
  }

  lemma RorBits(x: Word, shift: nat, width: nat)
    requires shift < width <= 64
    ensures forall i | 0 <= i < 64 :: Ror(x, shift, width)[i] == (i < width && x[(i + shift) % width])
  {
    forall i | 0 <= i < 64
      ensures Ror(x, shift, width)[i] == (i < width && x[(i + shift) % width])
    {
      RorBit(x, shift, width, i);
    }
  }

  lemma RorBit(x: Word, shift: nat, width: nat, i: nat)
    requires shift < width <= 64 && i < 64
    ensures Ror(x, shift, width)[i] == (i < width && x[(i + shift) % width])
  {
    if i + shift < width {
      ModUnique(i + shift, 0, i + shift, width);
    } else if i < width {
      ModUnique(i + shift, 1, i + shift - width, width);
    }
    if shift == 0 {
      LowField(x, width, i);
    } else {
      LowField(Or(Shr(Bits64(x, 0, width), shift), Shl(Bits64(x, 0, width), width - shift)), width, i);
      if i < width { TurnedBit(x, shift, width, i); }
    }
  }

  lemma LowField(x: Word, width: nat, i: nat)
    requires width <= 64 && i < 64
    ensures Bits64(x, 0, width)[i] == (i < width && x[i])
  {
  }

  // What wrapped around comes from below, the rest from above.
  lemma TurnedBit(x: Word, shift: nat, width: nat, i: nat)
    requires 0 < shift < width <= 64 && i < width
    ensures var low := Bits64(x, 0, width);
            Or(Shr(low, shift), Shl(low, width - shift))[i] ==
            if i + shift < width then x[i + shift] else x[i + shift - width]
  {
    if i + shift < 64 { LowField(x, width, i + shift); }
    if i + shift >= width { LowField(x, width, i + shift - width); }
  }

  lemma ModStep(i: nat, shift: nat, from: nat)
    requires from > 0 && shift % from == 0 && shift <= i < shift + from
    ensures i % from == i - shift && (shift + from) % from == 0
  {
    ModUnique(i, shift / from, i - shift, from);
    ModUnique(shift + from, shift / from + 1, 0, from);
  }

  lemma ModOfMod(i: nat, r: nat, e: nat)
    requires e > 0
    ensures ((i % e) + r) % e == (i + r) % e
  {
    var m := (i % e) + r;
    ModUnique(i + r, i / e + m / e, m % e, e);
  }

  method Replicate(value: Word, from: nat, to: nat) returns (r: Word)
    ensures r == Replicated(value, from, to)
  {
    if from == 0 || from > 64 || to == 0 || to > 64 || from > to {
      return value;
    }
    var unit := Bits64(value, 0, from);
    var acc := Zero();
    var shift := 0;
    while shift < to
      invariant shift % from == 0
      invariant forall i | 0 <= i < 64 :: acc[i] == (i < shift && value[i % from])
    {
      forall i: nat | shift <= i < shift + from
        ensures i % from == i - shift
      {
        ModStep(i, shift, from);
      }
      ModStep(shift, shift, from);
      acc := Or(acc, Shl(unit, shift));
      shift := shift + from;
    }
    r := Bits64(acc, 0, to);
  }

  // --- DecodeBitMasks. ---

  // The element size an (immN, imms) pair selects, 0 for the reserved ones: the
  // position of the first zero of immN:NOT(imms) read from the top.
  function ElementSize(immN: nat, imms: nat): nat {
    if immN % 2 == 1 then 64
    else if imms % 64 < 32 then 32
    else if imms % 64 < 48 then 16
    else if imms % 64 < 56 then 8
    else if imms % 64 < 60 then 4
    else if imms % 64 < 62 then 2
    else 0
  }

  // The masks in closed form. An element wider than the register (immN == 1 with
  // m == 32, which callers reject) is not replicated and keeps its 64 positions.
  ghost function MasksOf(immN: nat, imms: nat, immr: nat, immediate: bool, m: nat): Option<BitMasks> {
    var e := ElementSize(immN, imms);
    if e == 0 || (immediate && imms % e == e - 1) then None
    else
      Some(BitMasks(RunPattern(Width(e, m), e, imms % e, immr % e),
                    RunPattern(Width(e, m), e, (imms % e - immr % e) % e, 0)))
  }

  lemma {:induction false} HighestSetBitRange(v: nat, k: nat)
    requires Pow2(k) <= v < Pow2(k + 1)
    ensures HighestSetBit(v) == k
  {
    if k > 0 { HighestSetBitRange(v / 2, k - 1); }
  }

  function Log2(size: nat): nat
    requires size in {2, 4, 8, 16, 32, 64}
  {
    if size == 2 then 1 else if size == 4 then 2 else if size == 8 then 3
    else if size == 16 then 4 else if size == 32 then 5 else 6
  }

  // HighestSetBit(immN:NOT(imms)) is the log of the element size.
  lemma ElementSizeIsHighestSetBit(immN: nat, imms: nat)
    requires immN < 2 && imms < 64
    ensures var len := HighestSetBit(immN * 64 + (63 - imms));
            var e := ElementSize(immN, imms);
            (len < 1 <==> e == 0) && (len >= 1 ==> e in {2, 4, 8, 16, 32, 64} && len == Log2(e) && e == Pow2(len))
  {
    var concat := immN * 64 + (63 - imms);
    var e := ElementSize(immN, imms);
    assert Pow2(0) == 1 && Pow2(1) == 2 && Pow2(2) == 4 && Pow2(3) == 8;
    assert Pow2(4) == 16 && Pow2(5) == 32;
    assert Pow2(6) == 64 && Pow2(7) == 128;
    if e > 0 {
      HighestSetBitRange(concat, Log2(e));
    } else if concat == 1 {
      HighestSetBitRange(concat, 0);
    }
  }

  function Width(e: nat, m: nat): nat {
    if e <= m then m else 64
  }

  lemma RotatedAt(s: nat, r: nat, e: nat, i: nat)
    requires s < e && r < e <= 64
    ensures Ror(Low(s + 1), r, e)[i % e] == ((i + r) % e <= s)
  {
    RorBits(Low(s + 1), r, e);
    ModOfMod(i, r, e);
    var j, k := i % e, (i + r) % e;
    assert 0 <= j < e && 0 <= k < e && k == (j + r) % e;
  }

  lemma RotatedRunReplicates(s: nat, r: nat, e: nat, m: nat)
    requires s < e && r < e <= 64 && 0 < m <= 64 && (e <= m || e == 64)
    ensures Replicated(Ror(Low(s + 1), r, e), e, m) == RunPattern(Width(e, m), e, s, r)
  {
    var elem := Ror(Low(s + 1), r, e);
    var w, p := Replicated(elem, e, m), RunPattern(Width(e, m), e, s, r);
    forall i | 0 <= i < 64
      ensures w[i] == p[i]
    {
      RotatedAt(s, r, e, i);
      if e > m { ModUnique(i, 0, i, e); }
    }
  }

  lemma RunReplicates(d: nat, e: nat, m: nat)
    requires d < e <= 64 && 0 < m <= 64 && (e <= m || e == 64)
    ensures Replicated(Low(d + 1), e, m) == RunPattern(Width(e, m), e, d, 0)
  {
    var w := Replicated(Low(d + 1), e, m);
    forall i | 0 <= i < 64
      ensures w[i] == RunPattern(Width(e, m), e, d, 0)[i]
    {
      assert 0 <= i % e < e;
    }
  }

  // Only immN<0>, imms<5:0> and immr<5:0> are read.
  lemma FieldsReduce(immN: nat, imms: nat, immr: nat, e: nat)
    requires e in {2, 4, 8, 16, 32, 64}
    ensures ElementSize(immN % 2, imms % 64) == ElementSize(immN, imms)
    ensures (imms % 64) % e == imms % e && (immr % 64) % e == immr % e
  {
    ModMod(imms, e);
    ModMod(immr, e);
  }

  lemma ModMod(x: nat, e: nat)
    requires e in {2, 4, 8, 16, 32, 64}
    ensures (x % 64) % e == x % e
  {
    var k := if e == 2 then 32 else if e == 4 then 16 else if e == 8 then 8
             else if e == 16 then 4 else if e == 32 then 2 else 1;
    assert k * e == 64;
    var y := x % 64;
    assert (x / 64) * k * e == (x / 64) * (k * e);
    ModUnique(x, (x / 64) * k + y / e, y % e, e);
  }

  method DecodeBitMasks(immN: nat, imms: nat, immr: nat, immediate: bool, m: nat) returns (masks: Option<BitMasks>)
    requires m == 32 || m == 64
    ensures masks == MasksOf(immN, imms, immr, immediate, m)
  {
    ghost var immN0, imms0, immr0 := immN, imms, immr;
    var imms, immr, immN := imms % 64, immr % 64, immN % 2;
    var concat := immN * 64 + (63 - imms);
    var len := HighestSetBit(concat);
    ElementSizeIsHighestSetBit(immN, imms);
    if len < 1 {
      return None;
    }
    var esize := Pow2(len);
    FieldsReduce(immN0, imms0, immr0, esize);
    var s, r := imms % esize, immr % esize;
    if immediate && s == esize - 1 {
      return None;
    }
    var wmask, tmask := ExpandMasks(s, r, esize, m);
    return Some(BitMasks(wmask, tmask));
  }

  // The second half of decode_bit_masks: both masks from S, R and the element size.
  method ExpandMasks(s: nat, r: nat, esize: nat, m: nat) returns (wmask: Word, tmask: Word)
    requires esize in {2, 4, 8, 16, 32, 64} && (m == 32 || m == 64)
    requires s < esize && r < esize
    ensures wmask == RunPattern(Width(esize, m), esize, s, r)
    ensures tmask == RunPattern(Width(esize, m), esize, (s - r) % esize, 0)
  {
    var d := (s - r) % esize;
    var welem := Low(s + 1);
    var telem := Low(d + 1);
    var welemRor := Ror(welem, r, esize);
    wmask := Replicate(welemRor, esize, m);
    tmask := Replicate(telem, esize, m);
    RotatedRunReplicates(s, r, esize, m);
    RunReplicates(d, esize, m);
  }
}
