/** Fields of a 32-bit instruction word and PC-relative offsets: the extraction
    primitives of `src/decode/bits.rs` and `rel_imm` of `src/encode/branch_sys.rs`. */
module Fields {
  import opened Wrappers
  import opened Ints
  import opened Word64

  function Bits(word: bv32, lsb: bv32, width: bv32): bv32
    requires lsb < 32 && width <= 32
  {
    if width == 0 then 0
    else
      var mask: bv32 := if width >= 32 then 0xffff_ffff else (1 << width) - 1;
      (word >> lsb) & mask
  }

  function Bit(word: bv32, pos: bv32): bv32
    requires pos < 32
  {
    (word >> pos) & 1
  }

  // --- sign_extend: left to the top of 64 bits, then back with the sign. ---

  function SignExtend(value: U64, bits: nat): int {
    if bits == 0 || bits >= 64 then Signed(value)
    else Signed((value * Pow2(64 - bits)) % 0x1_0000_0000_0000_0000) / Pow2(64 - bits)
  }

  lemma {:induction false} Pow2Adds(a: nat, b: nat)
    ensures Pow2(a) * Pow2(b) == Pow2(a + b)
  {
    if a > 0 { Pow2Adds(a - 1, b); }
  }

  lemma Pow2Of64()
    ensures Pow2(63) == 0x8000_0000_0000_0000 && Pow2(64) == 0x1_0000_0000_0000_0000
  {
    Pow2Of32();
    Pow2Adds(32, 31);
    assert Pow2(32) == 2 * Pow2(31) && Pow2(64) == 2 * Pow2(63);
  }

  lemma Pow2Of32()
    ensures Pow2(31) == 0x8000_0000
  {
    assert Pow2(4) == 16 && Pow2(7) == 8 * Pow2(4);
    Pow2Adds(4, 4);
    Pow2Adds(8, 8);
    Pow2Adds(8, 7);
    Pow2Adds(16, 15);
  }

  lemma HalfWay(low: nat, h: nat, u: nat)
    requires u > 0
    ensures low < h <==> low * u < h * u
  {
    if low < h { assert (low + 1) * u <= h * u; } else { assert h * u <= low * u; }
  }

  // In units of u: m * u is the whole of the 64 bits, and only low survives the shift left.
  lemma ShiftedUp(q: nat, low: nat, m: nat, u: nat)
    requires m * u == 0x1_0000_0000_0000_0000 && low < m
    ensures ((q * m + low) * u) % 0x1_0000_0000_0000_0000 == low * u && low * u < 0x1_0000_0000_0000_0000
  {
    assert (q * m + low) * u == q * (m * u) + low * u;
    HalfWay(low, m, u);
    ModUnique((q * m + low) * u, q, low * u, m * u);
  }

  lemma ShiftedDown(low: int, u: nat)
    requires u > 0
    ensures (low * u) / u == low
  {
    ModUnique(low * u, low, 0, u);
  }

  lemma Signs(low: nat, h: nat, m: nat, u: nat)
    requires u > 0 && low < m && m * u == 0x1_0000_0000_0000_0000 && h * u == 0x8000_0000_0000_0000
    requires low * u < 0x1_0000_0000_0000_0000
    ensures Signed(low * u) / u == if low < h then low else low - m
  {
    HalfWay(low, h, u);
    ShiftedDown(low, u);
    ShiftedDown(low - m, u);
    assert (low - m) * u == low * u - m * u;
  }

  lemma UpAndDown(value: nat, h: nat, m: nat, u: nat)
    requires u > 0 && m > 0 && m * u == 0x1_0000_0000_0000_0000 && h * u == 0x8000_0000_0000_0000
    ensures var low := value % m;
            Signed((value * u) % 0x1_0000_0000_0000_0000) / u == if low < h then low else low - m
  {
    var q, low := value / m, value % m;
    assert value == q * m + low;
    ShiftedUp(q, low, m, u);
    Signs(low, h, m, u);
  }

  // The low bits, read as a signed number: bits beyond them are dropped, and the top one
  // of them counts negative.
  lemma SignExtendMeans(value: U64, bits: nat)
    requires 0 < bits < 64
    ensures var low := value % Pow2(bits);
            SignExtend(value, bits) == if low < Pow2(bits - 1) then low else low - Pow2(bits)
  {
    PowersMeet(bits);
    UpAndDown(value, Pow2(bits - 1), Pow2(bits), Pow2(64 - bits));
  }

  lemma PowersMeet(bits: nat)
    requires 0 < bits < 64
    ensures Pow2(bits) * Pow2(64 - bits) == 0x1_0000_0000_0000_0000
    ensures Pow2(bits - 1) * Pow2(64 - bits) == 0x8000_0000_0000_0000
  {
    Pow2Of64();
    Pow2Adds(bits, 64 - bits);
    Pow2Adds(bits - 1, 64 - bits);
  }

  // The four branch immediates: 26, 19, 14 and 9 bits, each a signed count of words.
  datatype Span = Imm26 | Imm19 | Imm14 | Imm9

  // 2^(bits - 1): half the values of the field, and where its negative half starts.
  function Half(s: Span): nat {
    match s
    case Imm26 => 0x200_0000
    case Imm19 => 0x4_0000
    case Imm14 => 0x2000
    case Imm9 => 0x100
  }

  // sign_extend(imm << 2, bits + 2) for a field value below 2^bits.
  function SignExtend4(imm: nat, s: Span): int
    requires imm < 2 * Half(s)
  {
    if imm < Half(s) then 4 * imm else 4 * (imm - 2 * Half(s))
  }

  // The bits of a field, and of its byte offset.
  function OffsetBits(s: Span): nat {
    match s
    case Imm26 => 28
    case Imm19 => 21
    case Imm14 => 16
    case Imm9 => 11
  }

  // The decoder's sign extension of a branch offset is that number.
  lemma OffsetIs(imm: nat, s: Span)
    requires imm < 2 * Half(s)
    ensures SignExtend(4 * imm, OffsetBits(s)) == SignExtend4(imm, s)
  {
    OffsetSize(s);
    SignExtendMeans(4 * imm, OffsetBits(s));
    NothingDropped(4 * imm, Pow2(OffsetBits(s)));
  }

  lemma NothingDropped(value: nat, m: nat)
    requires value < m
    ensures value % m == value
  {
    ModUnique(value, 0, value, m);
  }

  lemma OffsetSize(s: Span)
    ensures Pow2(OffsetBits(s)) == 8 * Half(s) && Pow2(OffsetBits(s) - 1) == 4 * Half(s)
  {
    Pow2Adds(1, OffsetBits(s) - 1);
    assert Pow2(10) == 0x400 && Pow2(5) == 32;
    Pow2Adds(10, 5);
    Pow2Adds(10, 10);
    Pow2Adds(20, 7);
    assert Pow2(7) == 0x80;
  }

  // ip.wrapping_add(sign_extend(imm << 2, bits + 2) as u64).
  function Target(ip: U64, imm: nat, s: Span): U64
    requires imm < 2 * Half(s)
  {
    Add(ip, Unsigned(SignExtend4(imm, s)))
  }

  // rel_imm with shift == 2: the offset as i64, word-aligned, within a signed field.
  function RelImm(target: U64, ip: U64, s: Span): (imm: Option<nat>)
    ensures imm.Some? ==> imm.value < 2 * Half(s)
  {
    var off := Signed(Sub(target, ip));
    if off % 4 != 0 then None
    else
      var imm := off / 4;
      if !(0 - Half(s) <= imm < Half(s)) then None
      else Some(if imm >= 0 then imm else imm + 2 * Half(s))
  }

  // What a decoder resolves, the encoder recovers: for every address.
  lemma TargetToField(ip: U64, imm: nat, s: Span)
    requires imm < 2 * Half(s)
    ensures RelImm(Target(ip, imm, s), ip, s) == Some(imm)
  {
    assert Sub(Target(ip, imm, s), ip) == Unsigned(SignExtend4(imm, s));
  }

  // What the encoder accepts, the decoder resolves to the same target.
  lemma FieldToTarget(target: U64, ip: U64, s: Span)
    requires RelImm(target, ip, s).Some?
    ensures Target(ip, RelImm(target, ip, s).value, s) == target
  {
    var off := Signed(Sub(target, ip));
    assert SignExtend4(RelImm(target, ip, s).value, s) == off;
    assert Unsigned(off) == Sub(target, ip);
  }

  // --- Reach. ---

  // How far a field reaches on either side, in bytes.
  function Reach(s: Span): nat {
    match s
    case Imm26 => 0x800_0000
    case Imm19 => 0x10_0000
    case Imm14 => 0x8000
    case Imm9 => 0x400
  }

  predicate Reachable(target: U64, ip: U64, s: Span) {
    var d := Signed(Sub(target, ip));
    d % 4 == 0 && 0 - Reach(s) <= d < Reach(s)
  }

  // Every reachable target is hit by exactly one field value, every field value hits a
  // reachable target, and the encoder accepts exactly the reachable ones.
  lemma ExactReach(target: U64, ip: U64, s: Span)
    ensures RelImm(target, ip, s).Some? <==> Reachable(target, ip, s)
    ensures Reachable(target, ip, s) <==> exists imm: nat :: imm < 2 * Half(s) && Target(ip, imm, s) == target
    ensures forall a: nat, b: nat | a < 2 * Half(s) && b < 2 * Half(s) && Target(ip, a, s) == Target(ip, b, s) :: a == b
  {
    if RelImm(target, ip, s).Some? { FieldToTarget(target, ip, s); }
    forall imm: nat | imm < 2 * Half(s)
      ensures RelImm(Target(ip, imm, s), ip, s) == Some(imm)
    {
      TargetToField(ip, imm, s);
    }
  }
}
