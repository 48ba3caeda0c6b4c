/** Decoding and encoding the branch and system group are inverse, class by class:
    what a word decodes to, the encoder turns back into that word. */
module BranchLaws {
  import opened Wrappers
  import opened Ints
  import opened Fields
  import opened Features
  import opened Isa
  import opened Instructions
  import opened BranchSpec
  import opened BranchEncode

  // --- Fields survive the passage through operands. ---

  lemma CondInverse(x: bv32)
    ensures ConditionAsU4(ConditionFromU4(x)) == x & 15
  {
    var y := x & 15;
    assert y <= 15;
  }

  lemma FieldNumber(word: bv32, s: Span)
    ensures ImmField(word, s) == ImmBits(word, s) as int
  {
    match s
    case Imm26 => Number26(word);
    case Imm19 => Number19(word);
    case Imm14 => Number14(word);
    case Imm9 => Number9(word);
  }

  lemma Number26(word: bv32)
    ensures Field26(word) as int == Bits(word, 0, 26) as int
  {
    Widened26(Field26(word));
  }

  lemma Number19(word: bv32)
    ensures Field19(word) as int == Bits(word, 5, 19) as int
  {
    Widened19(Field19(word));
  }

  lemma Number14(word: bv32)
    ensures Field14(word) as int == Bits(word, 5, 14) as int
  {
    Widened14(Field14(word));
  }

  lemma Number9(word: bv32)
    ensures Field9(word) as int == Bits(word, 5, 9) as int
  {
    Widened9(Field9(word));
  }

  // The label of a word, with the field its encoder recovers from it.
  lemma LabelField(word: bv32, ip: U64, s: Span) returns (t: U64, k: nat)
    ensures LabelAt(ip, word, s) == Label(t) && k < 2 * Half(s)
    ensures RelImm(t, ip, s) == Some(k) && Low32(k) == ImmBits(word, s)
  {
    k := ImmField(word, s);
    t := Target(ip, k, s);
    TargetToField(ip, k, s);
    FieldNumber(word, s);
    Low32Of(ImmBits(word, s));
  }

  lemma XRegNumber(sp: bool, n: bv32)
    requires n < 32
    ensures Number(GpRegister(sp, X64, n)) == n
  {
    GpRegisterInvertible(sp, X64, n);
    assert n & 31 == n;
  }

  // --- Conditional branches and the PC-relative returns. ---

  lemma CondWordIs(word: bv32)
    requires word & 0xff00_0000 == 0x5400_0000
    ensures CondWord(ImmBits(word, Imm19), Bit(word, 4), Bits(word, 0, 4) & 15) == word
  {
  }

  lemma EncodesCond(d: Insn, c: Condition, t: U64, k: nat)
    requires d.ops == [Operand.Cond(c), Label(t)] && RelImm(t, d.ip, Imm19) == Some(k)
    ensures EncCondBranch(d) == Ok(CondWord(Low32(k), if d.code.BcCond? then 1 else 0, ConditionAsU4(c)))
  {
  }

  lemma CondBranchRoundTrip(word: bv32, f: Gate, v: Insn)
    requires word & 0xff00_0000 == 0x5400_0000 && v.IsInvalid()
    ensures var d := CondBranch(word, f, v);
            !d.IsInvalid() ==> (d.code.BCond? || d.code.BcCond?) && EncCondBranch(d) == Ok(word)
  {
    var d := CondBranch(word, f, v);
    if !d.IsInvalid() {
      var t, k := LabelField(word, v.ip, Imm19);
      CondInverse(Bits(word, 0, 4));
      CondWordIs(word);
      EncodesCond(d, ConditionFromU4(Bits(word, 0, 4)), t, k);
    }
  }

  lemma Backwards(ip: U64, n: nat)
    requires n <= 0xffff
    ensures var d := Sub(ip, Sub(ip, 4 * n)); d % 4 == 0 && d / 4 == n
  {
  }

  lemma EncodesSppc(d: Insn, n: nat)
    requires n <= 0xffff && d.ops == [Label(Sub(d.ip, 4 * n))]
    ensures EncSppc(d) == Ok(SppcWord(if d.code.Retabsppc? then 1 else 0, Low32(n)))
  {
    Backwards(d.ip, n);
  }

  lemma SppcOperand(word: bv32, v: Insn) returns (n: nat)
    requires v.ops == []
    ensures n <= 0xffff && Low32(n) == Bits(word, 5, 16)
    ensures SppcTarget(word, v) == v.(ops := [Label(Sub(v.ip, 4 * n))])
  {
    n := Field16(word) as int;
    Widened16(Field16(word));
    Low32Of(Bits(word, 5, 16));
  }

  lemma SppcTargetRoundTrip(word: bv32, v: Insn)
    requires word & 0xffc0_001f == 0x5500_001f && v.ops == []
    requires Bit(word, 21) == if v.code.Retabsppc? then 1 else 0
    ensures EncSppc(SppcTarget(word, v)) == Ok(word)
  {
    var n := SppcOperand(word, v);
    EncodesSppc(v.(ops := [Label(Sub(v.ip, 4 * n))]), n);
  }

  lemma SppcRoundTrip(word: bv32, f: Gate, v: Insn)
    requires word & 0xff00_0000 == 0x5500_0000 && v.IsInvalid()
    ensures var d := RetSppc(word, f, v);
            !d.IsInvalid() ==> (d.code.Retaasppc? || d.code.Retabsppc?) && EncSppc(d) == Ok(word)
  {
    if Bits(word, 22, 2) == 0 && Bits(word, 0, 5) == 31 {
      SppcTargetRoundTrip(word, v.Set(if Bit(word, 21) == 1 then Code.Retabsppc else Code.Retaasppc));
    }
  }

  // t lies n instruction words behind ip, as far as sixteen bits count.
  predicate Behind(ip: U64, t: U64, n: nat) { n <= 0xffff && t == Sub(ip, 4 * n) }

  // A word decodes to a target exactly when the target lies as far behind as the word's
  // immediate says. The encoder takes a target exactly when some immediate reaches it, and
  // lays that one down; no second one does, at any address, wrapping included.
  lemma SppcReach(word: bv32, v: Insn, d: Insn, t: U64)
    requires d.Op(0) == Label(t) && v.ops == [] && v.ip == d.ip
    ensures SppcTarget(word, v).ops == [Label(t)] <==> Behind(d.ip, t, Field16(word) as int)
    ensures EncSppc(d).Ok? <==> exists n: nat :: Behind(d.ip, t, n)
    ensures forall n: nat | Behind(d.ip, t, n) ::
              EncSppc(d) == Ok(SppcWord(if d.code.Retabsppc? then 1 else 0, Low32(n)))
    ensures forall m: nat, n: nat | Behind(d.ip, t, m) && Behind(d.ip, t, n) :: m == n
  {
    FieldReaches(word, v, t);
    forall n: nat | Behind(d.ip, t, n)
      ensures Sub(d.ip, t) % 4 == 0 && Sub(d.ip, t) / 4 == n
    {
      Backwards(d.ip, n);
    }
    if EncSppc(d).Ok? {
      Forwards(d.ip, t);
    }
  }

  lemma FieldReaches(word: bv32, v: Insn, t: U64)
    requires v.ops == []
    ensures SppcTarget(word, v).ops == [Label(t)] <==> Behind(v.ip, t, Field16(word) as int)
  {
    var n := Field16(word) as int;
    assert SppcTarget(word, v).ops == [Label(Sub(v.ip, 4 * n))];
  }

  lemma Forwards(ip: U64, t: U64)
    requires Sub(ip, t) % 4 == 0 && Sub(ip, t) / 4 <= 0xffff
    ensures Behind(ip, t, Sub(ip, t) / 4)
  {
  }

  // --- Compare and test branches. ---

  lemma CompareWordIs(word: bv32)
    requires word & 0x7e00_0000 == 0x3400_0000
    ensures CompareWord(Bit(word, 31), Bit(word, 24), ImmBits(word, Imm19), Bits(word, 0, 5) & 31) == word
  {
  }

  lemma EncodesCompare(d: Insn, r: Register, t: U64, k: nat)
    requires d.ops == [Reg(r, PLAIN), Label(t)] && RelImm(t, d.ip, Imm19) == Some(k)
    ensures EncCompareBranch(d) == Ok(CompareWord(if d.code.Cbz64? || d.code.Cbnz64? then 1 else 0,
                                                  if d.code.Cbnz32? || d.code.Cbnz64? then 1 else 0,
                                                  Low32(k), Number(r)))
  {
  }

  lemma CompareBranchRoundTrip(word: bv32, v: Insn)
    requires word & 0x7e00_0000 == 0x3400_0000
    ensures EncCompareBranch(CompareBranch(word, v)) == Ok(word)
  {
    var r := GpRegister(false, WidthOf(Bit(word, 31)), Bits(word, 0, 5));
    GpRegisterInvertible(false, WidthOf(Bit(word, 31)), Bits(word, 0, 5));
    var t, k := LabelField(word, v.ip, Imm19);
    CompareWordIs(word);
    EncodesCompare(CompareBranch(word, v), r, t, k);
  }

  lemma TestWordIs(word: bv32)
    requires word & 0x7e00_0000 == 0x3600_0000
    ensures BitPosition(word) <= 63
    ensures TestWord(Bit(word, 24), BitPosition(word), ImmBits(word, Imm14), Bits(word, 0, 5) & 31) == word
  {
  }

  lemma EncodesTest(d: Insn, r: Register, n: U64, t: U64, k: nat)
    requires d.ops == [Reg(r, PLAIN), ImmUnsigned(n), Label(t)] && Low32(n) <= 63
    requires RelImm(t, d.ip, Imm14) == Some(k)
    ensures EncTestBranch(d) == Ok(TestWord(if d.code.Tbnz? then 1 else 0, Low32(n), Low32(k), Number(r)))
  {
  }

  lemma TestBranchRoundTrip(word: bv32, v: Insn)
    requires word & 0x7e00_0000 == 0x3600_0000
    ensures EncTestBranch(TestBranch(word, v)) == Ok(word)
  {
    var r := GpRegister(false, WidthOf(Bit(word, 31)), Bits(word, 0, 5));
    GpRegisterInvertible(false, WidthOf(Bit(word, 31)), Bits(word, 0, 5));
    var t, k := LabelField(word, v.ip, Imm14);
    Low32Of(BitPosition(word));
    TestWordIs(word);
    EncodesTest(TestBranch(word, v), r, BitPosition(word) as int, t, k);
  }

  // --- FEAT_CMPBR. ---

  // The condition field a spelling decodes from is the one it encodes to.
  ghost predicate Inverts(size: bv32, cc: bv32, c: Option<Code>) {
    c.Some? ==> CmpbrFacets(c.value).0 == size && CmpbrFacets(c.value).1 == Some(cc) && IsCmpbr(c.value)
  }

  lemma CmpbrRegCodeInverts(size: bv32, cc: bv32)
    ensures Inverts(size, cc, CmpbrRegCode(size, cc))
  {
  }

  lemma CmpbrImmCodeInverts(cc: bv32)
    ensures var c := CmpbrImmCode(cc);
            c.Some? ==> CmpbrFacets(c.value).2 == Some(cc) && IsCmpbr(c.value)
  {
  }

  lemma CmpbrWordIs(word: bv32)
    ensures word & 0x7f00_0000 == 0x7400_0000 ==>
              CmpbrRegWord(Bit(word, 31), Bits(word, 21, 3), Bits(word, 16, 5) & 31, Bits(word, 14, 2),
                           ImmBits(word, Imm9), Bits(word, 0, 5) & 31) == word
    ensures word & 0x7f00_4000 == 0x7500_0000 ==>
              CmpbrImmWord(Bit(word, 31), Bits(word, 21, 3), Bits(word, 15, 6),
                           ImmBits(word, Imm9), Bits(word, 0, 5) & 31) == word
  {
  }

  lemma EncodesCmpbrImm(d: Insn, a: Register, n: U64, t: U64, k: nat)
    requires d.ops == [Reg(a, PLAIN), ImmUnsigned(n), Label(t)] && n <= 0x3f && RelImm(t, d.ip, Imm9) == Some(k)
    requires CmpbrFacets(d.code).2.Some?
    ensures EncCmpbr(d) == Ok(CmpbrImmWord(if WidthBits(a) == 64 then 1 else 0, CmpbrFacets(d.code).2.value, Low32(n),
                                           Low32(k), Number(a)))
  {
  }

  lemma CmpbrRegOperands(word: bv32, v: Insn) returns (a: Register, b: Register, t: U64, k: nat)
    requires v.IsInvalid() && !CmpbrReg(word, v).IsInvalid()
    ensures var d, c := CmpbrReg(word, v), CmpbrRegCode(Bits(word, 14, 2), Bits(word, 21, 3));
            && c == Some(d.code) && d.ip == v.ip && d.ops == [Reg(a, PLAIN), Reg(b, PLAIN), Label(t)]
    ensures Number(a) == Bits(word, 0, 5) & 31 && Number(b) == Bits(word, 16, 5) & 31
    ensures WidthBits(a) == WidthBits(b) == if Bit(word, 31) == 1 then 64 else 32
    ensures Bits(word, 14, 2) == 0 || Bit(word, 31) == 0
    ensures RelImm(t, v.ip, Imm9) == Some(k) && Low32(k) == ImmBits(word, Imm9)
  {
    t, k := LabelField(word, v.ip, Imm9);
    var w := WidthOf(Bit(word, 31));
    a, b := GpRegister(false, w, Bits(word, 0, 5)), GpRegister(false, w, Bits(word, 16, 5));
    GpRegisterInvertible(false, w, Bits(word, 0, 5));
    GpRegisterInvertible(false, w, Bits(word, 16, 5));
  }

  lemma CmpbrRegRoundTrip(word: bv32, v: Insn)
    requires word & 0x7f00_0000 == 0x7400_0000 && v.IsInvalid()
    ensures var d := CmpbrReg(word, v);
            !d.IsInvalid() ==> IsCmpbr(d.code) && EncCmpbr(d) == Ok(word)
  {
    var d := CmpbrReg(word, v);
    if !d.IsInvalid() {
      var a, b, t, k := CmpbrRegOperands(word, v);
      CmpbrRegCodeInverts(Bits(word, 14, 2), Bits(word, 21, 3));
      CmpbrWordIs(word);
    }
  }

  lemma CmpbrImmOperands(word: bv32, v: Insn) returns (a: Register, n: U64, t: U64, k: nat)
    requires v.IsInvalid() && !CmpbrImm(word, v).IsInvalid()
    ensures var d, c := CmpbrImm(word, v), CmpbrImmCode(Bits(word, 21, 3));
            && c == Some(d.code) && d.ip == v.ip && d.ops == [Reg(a, PLAIN), ImmUnsigned(n), Label(t)]
    ensures Number(a) == Bits(word, 0, 5) & 31 && WidthBits(a) == if Bit(word, 31) == 1 then 64 else 32
    ensures n <= 0x3f && Low32(n) == Bits(word, 15, 6) && Bit(word, 14) == 0
    ensures RelImm(t, v.ip, Imm9) == Some(k) && Low32(k) == ImmBits(word, Imm9)
  {
    t, k := LabelField(word, v.ip, Imm9);
    n := Bits(word, 15, 6) as int;
    Below6(Bits(word, 15, 6));
    Low32Of(Bits(word, 15, 6));
    a := GpRegister(false, WidthOf(Bit(word, 31)), Bits(word, 0, 5));
    GpRegisterInvertible(false, WidthOf(Bit(word, 31)), Bits(word, 0, 5));
  }

  lemma CmpbrImmRoundTrip(word: bv32, v: Insn)
    requires word & 0x7f00_0000 == 0x7500_0000 && v.IsInvalid()
    ensures var d := CmpbrImm(word, v);
            !d.IsInvalid() ==> IsCmpbr(d.code) && EncCmpbr(d) == Ok(word)
  {
    var d := CmpbrImm(word, v);
    if !d.IsInvalid() {
      var a, n, t, k := CmpbrImmOperands(word, v);
      CmpbrImmCodeInverts(Bits(word, 21, 3));
      CmpbrWordIs(word);
      EncodesCmpbrImm(d, a, n, t, k);
    }
  }

  lemma Below6(x: bv32)
    requires x <= 0x3f
    ensures x as int <= 0x3f
  {
  }

  // --- B and BL. ---

  lemma UncondRoundTrip(word: bv32, v: Insn)
    requires word & 0x7c00_0000 == 0x1400_0000
    ensures EncUncondBranchImm(UncondBranchImm(word, v)) == Ok(word)
  {
    var t, k := LabelField(word, v.ip, Imm26);
  }

  // --- Register branches. ---

  lemma RegWordIs(word: bv32)
    requires word & 0xfe00_0000 == 0xd600_0000 && Bits(word, 16, 5) == 31
    ensures RegBranchWord(Bits(word, 21, 4), Bits(word, 10, 6), Bits(word, 5, 5), Bits(word, 0, 5)) == word
  {
  }

  lemma PlainRegDispatch(d: Insn, opc: bv32)
    requires (d.code.Br? && opc == 0) || (d.code.Blr? && opc == 1) || (d.code.Ret? && |d.ops| == 1 && opc == 2)
    ensures EncBranchReg(d) == EncOneReg(d, opc, 0, 0)
  {
  }

  lemma SignedReturnDispatch(d: Insn, opc: bv32, op3: bv32)
    requires || (d.code.Retaa? && opc == 2 && op3 == 2) || (d.code.Retab? && opc == 2 && op3 == 3)
             || (d.code.Eretaa? && opc == 4 && op3 == 2) || (d.code.Eretab? && opc == 4 && op3 == 3)
    ensures EncBranchReg(d) == Ok(RegBranchWord(opc, op3, 31, 31))
  {
  }

  lemma ModifierDispatch(d: Insn, op3: bv32)
    requires (d.code == Code.Retaasppcr && op3 == 2) || (d.code == Code.Retabsppcr && op3 == 3)
    ensures EncBranchReg(d) == EncModifier(d, op3)
  {
  }

  lemma EncodesOneReg(d: Insn, opc: bv32, op3: bv32, op4: bv32, rn: bv32)
    requires d.Op(0) == XReg(false, rn) && rn < 32
    ensures EncOneReg(d, opc, op3, op4) == Ok(RegBranchWord(opc, op3, rn, op4))
    ensures EncModifier(d, op3) == Ok(RegBranchWord(2, op3, 31, rn))
  {
    XRegNumber(false, rn);
  }

  lemma EncodesTwoRegs(d: Insn, opc: bv32, op3: bv32, rn: bv32, op4: bv32)
    requires d.Op(0) == XReg(false, rn) && d.Op(1) == XReg(true, op4) && rn < 32 && op4 < 32
    ensures EncTwoRegs(d, opc, op3) == Ok(RegBranchWord(opc, op3, rn, op4))
  {
    XRegNumber(false, rn);
    XRegNumber(true, op4);
  }

  lemma PlainBranchRoundTrip(opc: bv32, rn: bv32, v: Insn)
    requires rn < 32 && v.IsInvalid()
    ensures var d := PlainBranch(opc, rn, v);
            !d.IsInvalid() ==> EncBranchReg(d) == Ok(RegBranchWord(opc, 0, rn, 0))
  {
    var d := PlainBranch(opc, rn, v);
    if opc <= 2 && !(opc == 2 && rn == 30) {
      OneRegShape(opc, rn, v);
      OneOperand(if opc == 0 then Code.Br else if opc == 1 then Code.Blr else Code.Ret, XReg(false, rn), v);
      PlainRegDispatch(d, opc);
      EncodesOneReg(d, opc, 0, 0, rn);
    } else {
      BareBranchRoundTrip(opc, rn, v);
    }
  }

  lemma OneOperand(c: Code, a: Operand, v: Insn)
    ensures var d := v.Set(c).Push(a); d.code == c && |d.ops| == 1 && d.ops[0] == a
  {
  }

  lemma OneRegShape(opc: bv32, rn: bv32, v: Insn)
    requires opc <= 2 && !(opc == 2 && rn == 30)
    ensures var c := if opc == 0 then Code.Br else if opc == 1 then Code.Blr else Code.Ret;
            PlainBranch(opc, rn, v) == v.Set(c).Push(XReg(false, rn))
  {
  }

  lemma BareBranchRoundTrip(opc: bv32, rn: bv32, v: Insn)
    requires rn < 32 && v.IsInvalid() && !(opc <= 2 && !(opc == 2 && rn == 30))
    ensures var d := PlainBranch(opc, rn, v);
            !d.IsInvalid() ==> EncBranchReg(d) == Ok(RegBranchWord(opc, 0, rn, 0))
  {
  }

  function PairCode(opc: bv32, keyA: bool): Code {
    if opc == 8 then (if keyA then Code.Braa else Code.Brab) else (if keyA then Code.Blraa else Code.Blrab)
  }

  lemma SignedPairShape(opc: bv32, keyA: bool, rn: bv32, op4: bv32, f: Gate, v: Insn)
    requires f(Feature.PAuth) && (opc == 8 || opc == 9)
    ensures var d := SignedBranch(opc, keyA, rn, op4, f, v);
            d.code == PairCode(opc, keyA) && d.Op(0) == XReg(false, rn) && d.Op(1) == XReg(true, op4)
  {
    TwoOperands(PairCode(opc, keyA), XReg(false, rn), XReg(true, op4), v);
  }

  lemma TwoOperands(c: Code, a: Operand, b: Operand, v: Insn)
    ensures var d := v.Set(c).Push(a).Push(b); d.code == c && d.Op(0) == a && d.Op(1) == b
  {
  }

  lemma EncodesSignedPair(d: Insn, opc: bv32, keyA: bool, rn: bv32, op4: bv32)
    requires rn < 32 && op4 < 32 && (opc == 8 || opc == 9) && d.code == PairCode(opc, keyA)
    requires d.Op(0) == XReg(false, rn) && d.Op(1) == XReg(true, op4)
    ensures EncBranchReg(d) == Ok(RegBranchWord(opc, if keyA then 2 else 3, rn, op4))
  {
    EncodesTwoRegs(d, opc, if keyA then 2 else 3, rn, op4);
  }

  lemma SignedPairRoundTrip(opc: bv32, keyA: bool, rn: bv32, op4: bv32, f: Gate, v: Insn)
    requires rn < 32 && op4 < 32 && f(Feature.PAuth) && (opc == 8 || opc == 9)
    ensures EncBranchReg(SignedBranch(opc, keyA, rn, op4, f, v))
            == Ok(RegBranchWord(opc, if keyA then 2 else 3, rn, op4))
  {
    SignedPairShape(opc, keyA, rn, op4, f, v);
    EncodesSignedPair(SignedBranch(opc, keyA, rn, op4, f, v), opc, keyA, rn, op4);
  }

  function ZeroCode(opc: bv32, keyA: bool): Code {
    if opc == 0 then (if keyA then Code.Braaz else Code.Brabz) else (if keyA then Code.Blraaz else Code.Blrabz)
  }

  lemma SignedZeroShape(opc: bv32, keyA: bool, rn: bv32, f: Gate, v: Insn)
    requires f(Feature.PAuth) && (opc == 0 || opc == 1)
    ensures var d := SignedBranch(opc, keyA, rn, 31, f, v);
            d.code == ZeroCode(opc, keyA) && d.Op(0) == XReg(false, rn)
  {
  }

  lemma EncodesSignedZero(d: Insn, opc: bv32, keyA: bool, rn: bv32)
    requires rn < 32 && (opc == 0 || opc == 1) && d.code == ZeroCode(opc, keyA) && d.Op(0) == XReg(false, rn)
    ensures EncBranchReg(d) == Ok(RegBranchWord(opc, if keyA then 2 else 3, rn, 31))
  {
    EncodesOneReg(d, opc, if keyA then 2 else 3, 31, rn);
  }

  lemma SignedZeroRoundTrip(opc: bv32, keyA: bool, rn: bv32, f: Gate, v: Insn)
    requires rn < 32 && f(Feature.PAuth) && (opc == 0 || opc == 1)
    ensures EncBranchReg(SignedBranch(opc, keyA, rn, 31, f, v)) == Ok(RegBranchWord(opc, if keyA then 2 else 3, rn, 31))
  {
    SignedZeroShape(opc, keyA, rn, f, v);
    EncodesSignedZero(SignedBranch(opc, keyA, rn, 31, f, v), opc, keyA, rn);
  }

  lemma SignedBranchRoundTrip(opc: bv32, keyA: bool, rn: bv32, op4: bv32, f: Gate, v: Insn)
    requires rn < 32 && op4 < 32 && v.IsInvalid() && f(Feature.PAuth) && opc != 2
    ensures var d, op3: bv32 := SignedBranch(opc, keyA, rn, op4, f, v), if keyA then 2 else 3;
            !d.IsInvalid() ==> EncBranchReg(d) == Ok(RegBranchWord(opc, op3, rn, op4))
  {
    if opc == 8 || opc == 9 {
      SignedPairRoundTrip(opc, keyA, rn, op4, f, v);
    } else if (opc == 0 || opc == 1) && op4 == 31 {
      SignedZeroRoundTrip(opc, keyA, rn, f, v);
    } else if opc == 4 && op4 == 31 && rn == 31 {
      SignedReturnDispatch(SignedBranch(opc, keyA, rn, op4, f, v), 4, if keyA then 2 else 3);
    }
  }

  lemma SignedReturnIs(keyA: bool, rn: bv32, op4: bv32, f: Gate, v: Insn)
    requires v.IsInvalid() && !SignedReturn(keyA, rn, op4, f, v).IsInvalid()
    ensures rn == 31
    ensures SignedReturn(keyA, rn, op4, f, v) ==
            if op4 == 31 then v.Set(if keyA then Code.Retaa else Code.Retab)
            else v.Set(if keyA then Code.Retaasppcr else Code.Retabsppcr).Push(XReg(false, op4))
  {
  }

  lemma ModifierShape(c: Code, a: Operand, v: Insn)
    ensures var d := v.Set(c).Push(a); d.code == c && d.Op(0) == a
  {
  }

  lemma SignedReturnRoundTrip(keyA: bool, rn: bv32, op4: bv32, f: Gate, v: Insn)
    requires rn < 32 && op4 < 32 && v.IsInvalid()
    ensures var d, op3: bv32 := SignedReturn(keyA, rn, op4, f, v), if keyA then 2 else 3;
            !d.IsInvalid() ==> EncBranchReg(d) == Ok(RegBranchWord(2, op3, rn, op4))
  {
    var d, op3: bv32 := SignedReturn(keyA, rn, op4, f, v), if keyA then 2 else 3;
    if !d.IsInvalid() {
      SignedReturnIs(keyA, rn, op4, f, v);
      if op4 == 31 {
        SignedReturnDispatch(d, 2, op3);
      } else {
        ModifierShape(if keyA then Code.Retaasppcr else Code.Retabsppcr, XReg(false, op4), v);
        ModifierDispatch(d, op3);
        EncodesOneReg(d, 0, op3, 0, op4);
      }
    }
  }

  lemma RegBranchRoundTrip(word: bv32, f: Gate, v: Insn)
    requires word & 0xfe00_0000 == 0xd600_0000 && v.IsInvalid()
    ensures var d := UncondBranchReg(word, f, v);
            !d.IsInvalid() ==> EncBranchReg(d) == Ok(word)
  {
    if Bits(word, 16, 5) == 31 {
      var opc, op3, rn, op4 := Bits(word, 21, 4), Bits(word, 10, 6), Bits(word, 5, 5), Bits(word, 0, 5);
      RegWordIs(word);
      if op3 == 0 && op4 == 0 {
        PlainBranchRoundTrip(opc, rn, v);
      } else if op3 == 2 || op3 == 3 {
        if opc == 2 {
          SignedReturnRoundTrip(op3 == 2, rn, op4, f, v);
        } else if f(Feature.PAuth) {
          SignedBranchRoundTrip(opc, op3 == 2, rn, op4, f, v);
        }
      }
    }
  }

  // --- Exceptions. ---

  // The number a field is pushed as, and what the encoder makes of it.
  lemma Number16(imm16: bv32) returns (n: U64)
    requires imm16 <= 0xffff
    ensures n == imm16 as int && n <= 0xffff && Low32(n) == imm16
  {
    n := imm16 as int;
    Below16(imm16);
    Low32Of(imm16);
  }

  lemma EncodesImm16(d: Insn, opc: bv32, ll: bv32, n: U64, imm16: bv32)
    requires d.Op(0) == ImmUnsigned(n) && n <= 0xffff && Low32(n) == imm16
    ensures EncImm16(d, opc, ll) == Ok(ExceptionWord(opc, ll, imm16))
  {
  }

  lemma ImmForm(opc: bv32, ll: bv32, imm16: bv32, f: Gate, v: Insn)
    requires opc <= 3 && ll <= 3 && (opc == 0 <==> ll != 0) && (opc == 3 ==> f(Feature.Tme))
    requires imm16 <= 0xffff
    ensures ExceptionBy(opc, ll, imm16, f, v).Op(0) == ImmUnsigned(imm16 as int)
    ensures EncException(ExceptionBy(opc, ll, imm16, f, v)) == EncImm16(ExceptionBy(opc, ll, imm16, f, v), opc, ll)
  {
  }

  lemma ImmExceptionRoundTrip(opc: bv32, ll: bv32, imm16: bv32, f: Gate, v: Insn)
    requires imm16 <= 0xffff && opc <= 3 && ll <= 3 && (opc == 0 <==> ll != 0) && (opc == 3 ==> f(Feature.Tme))
    ensures EncException(ExceptionBy(opc, ll, imm16, f, v)) == Ok(ExceptionWord(opc, ll, imm16))
  {
    var n := Number16(imm16);
    ImmForm(opc, ll, imm16, f, v);
    EncodesImm16(ExceptionBy(opc, ll, imm16, f, v), opc, ll, n, imm16);
  }

  lemma EncodesDcps(v: Insn, ll: bv32, n: U64, imm16: bv32)
    requires v.ops == [] && n == imm16 as int && n <= 0xffff && Low32(n) == imm16
    ensures EncDcps(OptionalImm(v, imm16), ll) == Ok(ExceptionWord(5, ll, imm16))
  {
    if imm16 != 0 {
      EncodesImm16(OptionalImm(v, imm16), 5, ll, n, imm16);
    }
  }

  lemma DcpsRoundTrip(ll: bv32, imm16: bv32, f: Gate, v: Insn)
    requires imm16 <= 0xffff && 1 <= ll <= 3
    ensures EncException(ExceptionBy(5, ll, imm16, f, v)) == Ok(ExceptionWord(5, ll, imm16))
  {
    var n := Number16(imm16);
    EncodesDcps(v.Set(if ll == 1 then Code.Dcps1 else if ll == 2 then Code.Dcps2 else Code.Dcps3), ll, n, imm16);
  }

  lemma TenterBits(imm16: bv32)
    requires imm16 <= 0xffff && imm16 & 0xef80 == 0
    ensures ((imm16 & 0x7f) & 0x7f) | (if imm16 & 0x1000 != 0 then 0x1000 else 0) == imm16
  {
  }

  lemma EncodesTenter(d: Insn, n: U64, imm7: bv32)
    requires |d.ops| >= 1 && d.ops[0] == ImmUnsigned(n) && Low32(n) == imm7
    ensures EncTenter(d) == Ok(ExceptionWord(7, 0, (imm7 & 0x7f) | (if |d.ops| > 1 then 0x1000 else 0)))
  {
  }

  lemma TenterRoundTrip(imm16: bv32, v: Insn)
    requires imm16 <= 0xffff && v.IsInvalid()
    ensures var d := TenterOf(imm16, v);
            !d.IsInvalid() ==> d.code == Code.Tenter && EncTenter(d) == Ok(ExceptionWord(7, 0, imm16))
  {
    if imm16 & 0xef80 == 0 {
      TenterBits(imm16);
      Low32Of(imm16 & 0x7f);
      TenterShape(imm16, (imm16 & 0x7f) as int, v);
      EncodesTenter(TenterOf(imm16, v), (imm16 & 0x7f) as int, imm16 & 0x7f);
    }
  }

  lemma TenterShape(imm16: bv32, n: U64, v: Insn)
    requires imm16 & 0xef80 == 0 && n == (imm16 & 0x7f) as int
    ensures var d := TenterOf(imm16, v);
            && d.code == Code.Tenter && |d.ops| == (if imm16 & 0x1000 != 0 then 2 else 1) && d.ops[0] == ImmUnsigned(n)
  {
  }

  lemma TevRoundTrip(imm16: bv32, f: Gate, v: Insn)
    requires imm16 <= 0xffff && v.IsInvalid()
    ensures var d := ExceptionBy(7, 0, imm16, f, v);
            !d.IsInvalid() ==> EncException(d) == Ok(ExceptionWord(7, 0, imm16))
  {
    TenterRoundTrip(imm16, v);
  }

  lemma ExceptionByRoundTrip(opc: bv32, ll: bv32, imm16: bv32, f: Gate, v: Insn)
    requires opc <= 7 && ll <= 3 && imm16 <= 0xffff && v.IsInvalid()
    ensures var d := ExceptionBy(opc, ll, imm16, f, v);
            !d.IsInvalid() ==> EncException(d) == Ok(ExceptionWord(opc, ll, imm16))
  {
    if opc == 7 && ll == 0 {
      TevRoundTrip(imm16, f, v);
    } else if opc == 5 && ll != 0 {
      DcpsRoundTrip(ll, imm16, f, v);
    } else if opc <= 3 && (opc == 0 <==> ll != 0) && (opc == 3 ==> f(Feature.Tme)) {
      ImmExceptionRoundTrip(opc, ll, imm16, f, v);
    } else {
    }
  }

  lemma ExceptionRoundTrip(word: bv32, f: Gate, v: Insn)
    requires word & 0xff00_0000 == 0xd400_0000 && v.IsInvalid()
    ensures var d := ExceptionGen(word, f, v);
            !d.IsInvalid() ==> EncException(d) == Ok(word)
  {
    if Bits(word, 2, 3) == 0 {
      ExceptionByRoundTrip(Bits(word, 21, 3), Bits(word, 0, 2), Bits(word, 5, 16), f, v);
    }
  }

  // --- TCHANGE. ---

  lemma TchangeRegWordIs(word: bv32)
    requires word & 0xfff9_fc00 == 0xd580_0000
    ensures WithNbBit(TchangeRegWord(Bit(word, 18), Bits(word, 5, 5), Bits(word, 0, 5)), Bit(word, 17)) == word
  {
  }

  lemma TchangeImmWordIs(word: bv32)
    requires word & 0xfff9_f000 == 0xd590_0000
    ensures WithNbBit(TchangeImmWord(Bit(word, 18), Bits(word, 5, 7), Bits(word, 0, 5)), Bit(word, 17)) == word
  {
  }

  lemma TchangeFixed(word: bv32)
    requires word & 0xffc0_0000 == 0xd580_0000 && Bit(word, 21) == 0 && Bit(word, 16) == 0 && Bits(word, 12, 4) == 0
    ensures Bits(word, 19, 2) == 0 && Bits(word, 10, 2) == 0 ==> word & 0xfff9_fc00 == 0xd580_0000
    ensures Bits(word, 19, 2) == 2 ==> word & 0xfff9_f000 == 0xd590_0000
  {
  }

  lemma EncodesNb(d: Insn, base: bv32, b17: bv32)
    requires TchangeWord(d) == Ok(base) && b17 <= 1
    requires d.Op(2) == if b17 == 1 then SysOp(Keyword.Nb) else NoOperand
    ensures EncTchange(d) == Ok(WithNbBit(base, b17))
  {
  }

  lemma TchangeRegFamily(c: Code)
    ensures c.TchangefReg? || c.TchangebReg? ==> IsTchange(c)
  {
  }

  lemma TchangeImmFamily(c: Code)
    ensures c.TchangefImm? || c.TchangebImm? ==> IsTchange(c)
  {
  }

  lemma NbShape(c: Code, a: Operand, b: Operand, nb: bool, v: Insn)
    ensures var d := WithNb(v.Set(c).Push(a).Push(b), nb);
            d.code == c && d.Op(0) == a && d.Op(1) == b && d.Op(2) == if nb then SysOp(Keyword.Nb) else NoOperand
  {
  }

  // An X register operand, by its register and number.
  lemma XOperand(sp: bool, n: bv32) returns (r: Register)
    requires n < 32
    ensures XReg(sp, n) == Reg(r, PLAIN) && Number(r) == n
  {
    r := GpRegister(sp, X64, n);
    XRegNumber(sp, n);
  }

  // A seven-bit immediate, by its number.
  lemma Number7(x: bv32) returns (n: U64)
    requires x <= 0x7f
    ensures n == x as int && n <= 0x7f && Low32(n) == x
  {
    n := x as int;
    Below7(x);
    Low32Of(x);
  }

  lemma TchangeRegOperands(word: bv32, f: Gate, v: Insn) returns (a: Register, b: Register)
    requires f(Feature.Tchange) && Bit(word, 21) == 0 && Bit(word, 16) == 0 && Bits(word, 12, 4) == 0
    requires Bits(word, 19, 2) == 0 && Bits(word, 10, 2) == 0
    ensures var d := TchangeOf(word, f, v);
            && d.code == (if Bit(word, 18) == 1 then Code.TchangebReg else Code.TchangefReg)
            && d.Op(0) == Reg(a, PLAIN) && d.Op(1) == Reg(b, PLAIN)
            && d.Op(2) == if Bit(word, 17) == 1 then SysOp(Keyword.Nb) else NoOperand
    ensures Number(a) == Bits(word, 0, 5) && Number(b) == Bits(word, 5, 5)
  {
    a := XOperand(false, Bits(word, 0, 5));
    b := XOperand(false, Bits(word, 5, 5));
    NbShape(if Bit(word, 18) == 1 then Code.TchangebReg else Code.TchangefReg, Reg(a, PLAIN), Reg(b, PLAIN),
            Bit(word, 17) == 1, v);
  }

  lemma TchangeImmOperands(word: bv32, f: Gate, v: Insn) returns (a: Register, n: U64)
    requires f(Feature.Tchange) && Bit(word, 21) == 0 && Bit(word, 16) == 0 && Bits(word, 12, 4) == 0
    requires Bits(word, 19, 2) == 2
    ensures var d := TchangeOf(word, f, v);
            && d.code == (if Bit(word, 18) == 1 then Code.TchangebImm else Code.TchangefImm)
            && d.Op(0) == Reg(a, PLAIN) && d.Op(1) == ImmUnsigned(n)
            && d.Op(2) == if Bit(word, 17) == 1 then SysOp(Keyword.Nb) else NoOperand
    ensures Number(a) == Bits(word, 0, 5) && n <= 0x7f && Low32(n) == Bits(word, 5, 7)
  {
    a := XOperand(false, Bits(word, 0, 5));
    n := Number7(Bits(word, 5, 7));
    NbShape(if Bit(word, 18) == 1 then Code.TchangebImm else Code.TchangefImm, Reg(a, PLAIN), ImmUnsigned(n),
            Bit(word, 17) == 1, v);
  }

  lemma TchangeRegRoundTrip(word: bv32, d: Insn, b18: bv32, a: Register, b: Register, b17: bv32)
    requires d.code == (if b18 == 1 then Code.TchangebReg else Code.TchangefReg) && b18 <= 1 && b17 <= 1
    requires d.Op(0) == Reg(a, PLAIN) && d.Op(1) == Reg(b, PLAIN)
    requires d.Op(2) == if b17 == 1 then SysOp(Keyword.Nb) else NoOperand
    requires WithNbBit(TchangeRegWord(b18, Number(b), Number(a)), b17) == word
    ensures IsTchange(d.code) && EncTchange(d) == Ok(word)
  {
    TchangeRegFamily(d.code);
    EncodesNb(d, TchangeRegWord(b18, Number(b), Number(a)), b17);
  }

  lemma TchangeImmRoundTrip(word: bv32, d: Insn, b18: bv32, n: U64, a: Register, b17: bv32)
    requires d.code == (if b18 == 1 then Code.TchangebImm else Code.TchangefImm) && b18 <= 1 && b17 <= 1
    requires d.Op(0) == Reg(a, PLAIN) && d.Op(1) == ImmUnsigned(n) && n <= 0x7f
    requires d.Op(2) == if b17 == 1 then SysOp(Keyword.Nb) else NoOperand
    requires WithNbBit(TchangeImmWord(b18, Low32(n), Number(a)), b17) == word
    ensures IsTchange(d.code) && EncTchange(d) == Ok(word)
  {
    TchangeImmFamily(d.code);
    EncodesNb(d, TchangeImmWord(b18, Low32(n), Number(a)), b17);
  }

  lemma TchangeRoundTrip(word: bv32, f: Gate, v: Insn)
    requires word & 0xffc0_0000 == 0xd580_0000 && v.IsInvalid()
    ensures var d := TchangeOf(word, f, v);
            !d.IsInvalid() ==> IsTchange(d.code) && EncTchange(d) == Ok(word)
  {
    var d := TchangeOf(word, f, v);
    if f(Feature.Tchange) && Bit(word, 21) == 0 && Bit(word, 16) == 0 && Bits(word, 12, 4) == 0 {
      TchangeFixed(word);
      if Bits(word, 19, 2) == 0 && Bits(word, 10, 2) == 0 {
        var a, b := TchangeRegOperands(word, f, v);
        TchangeRegWordIs(word);
        TchangeRegRoundTrip(word, d, Bit(word, 18), a, b, Bit(word, 17));
      } else if Bits(word, 19, 2) == 2 {
        var a, n := TchangeImmOperands(word, f, v);
        TchangeImmWordIs(word);
        TchangeImmRoundTrip(word, d, Bit(word, 18), n, a, Bit(word, 17));
      }
    }
  }
}
