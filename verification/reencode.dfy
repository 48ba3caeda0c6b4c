/** Encode, then decode: what becomes of a direct branch that was edited or built by hand.
    The encoder takes some operands that its decoder never makes, so the word it gives may
    denote another instruction; when it does not is a condition on the operands. */
module Reencode {
  import opened Wrappers
  import opened Ints
  import opened Fields
  import opened Features
  import opened Isa
  import opened Instructions
  import opened Encoding
  import opened BranchSpec
  import opened BranchEncode
  import opened BranchLaws
  import opened Retarget

  // --- Operands as the decoder writes them. ---

  // The W or X register a number names, never a stack pointer, with nothing attached.
  predicate PlainOf(op: Operand, w: RegWidth) {
    op.Reg? && op == PlainReg(false, w, Number(op.reg))
  }

  function WidthOfReg(r: Register): RegWidth {
    if WidthBits(r) == 64 then X64 else W32
  }

  // --- What each kind of edited branch decodes to again. ---

  lemma LabelBack(w: bv32, t: U64, ip: U64, s: Span)
    requires RelImm(t, ip, s).Some? && ImmBits(w, s) == Low32(RelImm(t, ip, s).value)
    ensures LabelAt(ip, w, s) == Label(t)
  {
    var k := RelImm(t, ip, s).value;
    var x := FieldWord(k, s);
    FieldToTarget(t, ip, s);
    LabelIs(w, ip, s, k, t);
  }

  lemma FieldBelow(k: nat, s: Span) returns (x: bv32)
    requires k < 2 * Half(s)
    ensures Low32(k) == x && Fits(x, s)
  {
    x := FieldWord(k, s);
  }

  lemma CompareWordClass(sf: bv32, op: bv32, imm19: bv32, rt: bv32)
    requires sf <= 1 && op <= 1 && imm19 & 0x7_ffff == imm19 && rt < 32
    ensures ClassOf(CompareWord(sf, op, imm19, rt)).CompareBlock?
  {
  }

  predicate IsWide(c: Code) { c.Cbz64? || c.Cbnz64? }

  lemma CompareAgain(d: Insn, v: Insn)
    requires IsCompareCode(d.code) && EncCompareBranch(d).Ok? && v.ip == d.ip
    ensures var w := EncCompareBranch(d).value;
            && ClassOf(w).CompareBlock? && d.Op(0).Reg?
            && CompareBranch(w, v) ==
               v.Set(d.code).Push(PlainReg(false, if IsWide(d.code) then X64 else W32, Number(d.Op(0).reg)))
                .Push(d.Op(1))
  {
    var sf: bv32, op: bv32 := if IsWide(d.code) then 1 else 0, if d.code.Cbnz32? || d.code.Cbnz64? then 1 else 0;
    var t := d.Op(1).target;
    var x := FieldBelow(RelImm(t, d.ip, Imm19).value, Imm19);
    CompareWordClass(sf, op, x, Number(d.Op(0).reg));
    LabelBack(CompareWord(sf, op, x, Number(d.Op(0).reg)), t, d.ip, Imm19);
  }

  lemma TestWordWidth(op: bv32, bitpos: bv32, imm14: bv32, rt: bv32)
    requires op <= 1 && bitpos <= 63 && imm14 & 0x3fff == imm14 && rt < 32
    ensures var w := TestWord(op, bitpos, imm14, rt); Bit(w, 31) == (if bitpos >= 32 then 1 else 0) && Bit(w, 24) == op
  {
  }

  lemma TestWordPosition(op: bv32, bitpos: bv32, imm14: bv32, rt: bv32)
    requires op <= 1 && bitpos <= 63 && imm14 & 0x3fff == imm14 && rt < 32
    ensures var w := TestWord(op, bitpos, imm14, rt); BitPosition(w) == bitpos
  {
  }

  lemma TestWordLow(op: bv32, bitpos: bv32, imm14: bv32, rt: bv32)
    requires op <= 1 && bitpos <= 63 && imm14 & 0x3fff == imm14 && rt < 32
    ensures var w := TestWord(op, bitpos, imm14, rt); Bits(w, 5, 14) == imm14 && Bits(w, 0, 5) == rt
  {
  }

  lemma TestWordFields(op: bv32, bitpos: bv32, imm14: bv32, rt: bv32)
    requires op <= 1 && bitpos <= 63 && imm14 & 0x3fff == imm14 && rt < 32
    ensures var w := TestWord(op, bitpos, imm14, rt);
            && Bit(w, 31) == (if bitpos >= 32 then 1 else 0) && Bit(w, 24) == op
            && BitPosition(w) == bitpos && Bits(w, 5, 14) == imm14 && Bits(w, 0, 5) == rt
  {
    TestWordWidth(op, bitpos, imm14, rt);
    TestWordPosition(op, bitpos, imm14, rt);
    TestWordLow(op, bitpos, imm14, rt);
  }

  lemma TestParts(d: Insn)
    requires EncTestBranch(d).Ok?
    ensures d.Op(0).Reg? && ImmU(d, 1).Ok? && Low32(ImmU(d, 1).value) <= 63
    ensures d.Op(2).Label? && RelImm(d.Op(2).target, d.ip, Imm14).Some?
    ensures EncTestBranch(d) ==
            Ok(TestWord(if d.code.Tbnz? then 1 else 0, Low32(ImmU(d, 1).value),
                        Low32(RelImm(d.Op(2).target, d.ip, Imm14).value), Number(d.Op(0).reg)))
  {
  }

  // The number of the tested bit, cut to 32 bits as the encoder reads it.
  function BitOf(d: Insn): bv32
    requires ImmU(d, 1).Ok?
  {
    Low32(ImmU(d, 1).value)
  }

  lemma TestAgain(d: Insn, v: Insn)
    requires IsTestCode(d.code) && EncTestBranch(d).Ok? && v.ip == d.ip
    ensures var w := EncTestBranch(d).value;
            && ClassOf(w).TestBlock? && d.Op(0).Reg? && ImmU(d, 1).Ok?
            && TestBranch(w, v) ==
               v.Set(d.code).Push(PlainReg(false, if BitOf(d) >= 32 then X64 else W32, Number(d.Op(0).reg)))
                .Push(ImmUnsigned(BitOf(d) as int)).Push(d.Op(2))
  {
    TestParts(d);
    var op: bv32, n, t := if d.code.Tbnz? then 1 else 0, Number(d.Op(0).reg), d.Op(2).target;
    var x := FieldBelow(RelImm(t, d.ip, Imm14).value, Imm14);
    TestWordFields(op, BitOf(d), x, n);
    LabelBack(TestWord(op, BitOf(d), x, n), t, d.ip, Imm14);
  }

  lemma UncondWordClass(op: bv32, imm26: bv32)
    requires op <= 1 && imm26 & 0x03ff_ffff == imm26
    ensures ClassOf(UncondWord(op, imm26)).ImmBranch?
  {
  }

  lemma UncondAgain(d: Insn, v: Insn)
    requires IsUncondCode(d.code) && EncUncondBranchImm(d).Ok? && v.ip == d.ip
    ensures var w := EncUncondBranchImm(d).value;
            ClassOf(w).ImmBranch? && UncondBranchImm(w, v) == v.Set(d.code).Push(d.Op(0))
  {
    var op: bv32, t := if d.code.BlImm? then 1 else 0, d.Op(0).target;
    var x := FieldBelow(RelImm(t, d.ip, Imm26).value, Imm26);
    UncondWordClass(op, x);
    UncondWordBits(op, x);
    LabelBack(UncondWord(op, x), t, d.ip, Imm26);
  }

  lemma UncondWordBits(op: bv32, imm26: bv32)
    requires op <= 1 && imm26 & 0x03ff_ffff == imm26
    ensures var w := UncondWord(op, imm26); ImmBits(w, Imm26) == imm26 && (Bit(w, 31) == 1 <==> op == 1)
  {
    assert Bits(UncondWord(op, imm26), 0, 26) == imm26;
  }

  lemma CondWordFields(imm19: bv32, o0: bv32, cond: bv32)
    requires imm19 & 0x7_ffff == imm19 && o0 <= 1 && cond <= 15
    ensures var w := CondWord(imm19, o0, cond);
            && ClassOf(w).CondBlock? && Bit(w, 24) == 0 && Bit(w, 4) == o0 && Bits(w, 0, 4) == cond
            && Bits(w, 5, 19) == imm19
  {
  }

  lemma CondBack(c: Condition)
    ensures ConditionAsU4(c) <= 15 && ConditionFromU4(ConditionAsU4(c)) == c
  {
  }

  lemma CondParts(d: Insn)
    requires EncCondBranch(d).Ok?
    ensures d.Op(0).Cond? && d.Op(1).Label? && RelImm(d.Op(1).target, d.ip, Imm19).Some?
    ensures EncCondBranch(d) ==
            Ok(CondWord(Low32(RelImm(d.Op(1).target, d.ip, Imm19).value), if d.code.BcCond? then 1 else 0,
                        ConditionAsU4(d.Op(0).cond)))
  {
  }

  lemma CondAgain(d: Insn, f: Gate, v: Insn)
    requires IsCondCode(d.code) && EncCondBranch(d).Ok? && v.ip == d.ip
    ensures var w := EncCondBranch(d).value;
            && ClassOf(w).CondBlock?
            && CondBranch(w, f, v) ==
               if d.code.BcCond? && !f(Feature.Hbc) then v else v.Set(d.code).Push(d.Op(0)).Push(d.Op(1))
  {
    CondParts(d);
    var o0: bv32, t := if d.code.BcCond? then 1 else 0, d.Op(1).target;
    var x := FieldBelow(RelImm(t, d.ip, Imm19).value, Imm19);
    CondBack(d.Op(0).cond);
    CondWordFields(x, o0, ConditionAsU4(d.Op(0).cond));
    LabelBack(CondWord(x, o0, ConditionAsU4(d.Op(0).cond)), t, d.ip, Imm19);
  }

  // --- The fused compares. ---

  lemma FacetsBack(c: Code)
    requires IsCmpbr(c)
    ensures var (size, reg, imm) := CmpbrFacets(c);
            && (reg.Some? ==> CmpbrRegCode(size, reg.value) == Some(c) && reg.value <= 7 && size <= 3)
            && (imm.Some? ==> CmpbrImmCode(imm.value) == Some(c) && imm.value <= 7)
  {
  }

  lemma RegWordTop(sf: bv32, cc: bv32, rm: bv32, size: bv32, imm9: bv32, rt: bv32)
    requires sf <= 1 && cc <= 7 && rm < 32 && size <= 3 && imm9 & 0x1ff == imm9 && rt < 32
    ensures var w := CmpbrRegWord(sf, cc, rm, size, imm9, rt);
            Bit(w, 31) == sf && Bit(w, 24) == 0 && w & 0x7e00_0000 == 0x7400_0000
  {
  }

  lemma RegWordCondition(sf: bv32, cc: bv32, rm: bv32, size: bv32, imm9: bv32, rt: bv32)
    requires sf <= 1 && cc <= 7 && rm < 32 && size <= 3 && imm9 & 0x1ff == imm9 && rt < 32
    ensures var w := CmpbrRegWord(sf, cc, rm, size, imm9, rt); Bits(w, 21, 3) == cc
  {
  }

  lemma RegWordSecond(sf: bv32, cc: bv32, rm: bv32, size: bv32, imm9: bv32, rt: bv32)
    requires sf <= 1 && cc <= 7 && rm < 32 && size <= 3 && imm9 & 0x1ff == imm9 && rt < 32
    ensures var w := CmpbrRegWord(sf, cc, rm, size, imm9, rt); Bits(w, 16, 5) == rm
  {
  }

  lemma RegWordSize(sf: bv32, cc: bv32, rm: bv32, size: bv32, imm9: bv32, rt: bv32)
    requires sf <= 1 && cc <= 7 && rm < 32 && size <= 3 && imm9 & 0x1ff == imm9 && rt < 32
    ensures var w := CmpbrRegWord(sf, cc, rm, size, imm9, rt); Bits(w, 14, 2) == size
  {
  }

  lemma RegWordLow(sf: bv32, cc: bv32, rm: bv32, size: bv32, imm9: bv32, rt: bv32)
    requires sf <= 1 && cc <= 7 && rm < 32 && size <= 3 && imm9 & 0x1ff == imm9 && rt < 32
    ensures var w := CmpbrRegWord(sf, cc, rm, size, imm9, rt); Bits(w, 5, 9) == imm9 && Bits(w, 0, 5) == rt
  {
  }

  lemma CmpbrRegWordFields(sf: bv32, cc: bv32, rm: bv32, size: bv32, imm9: bv32, rt: bv32)
    requires sf <= 1 && cc <= 7 && rm < 32 && size <= 3 && imm9 & 0x1ff == imm9 && rt < 32
    ensures var w := CmpbrRegWord(sf, cc, rm, size, imm9, rt);
            && Bit(w, 31) == sf && Bit(w, 24) == 0 && w & 0x7e00_0000 == 0x7400_0000
            && Bits(w, 21, 3) == cc && Bits(w, 16, 5) == rm && Bits(w, 14, 2) == size
            && Bits(w, 5, 9) == imm9 && Bits(w, 0, 5) == rt
  {
    RegWordTop(sf, cc, rm, size, imm9, rt);
    RegWordCondition(sf, cc, rm, size, imm9, rt);
    RegWordSecond(sf, cc, rm, size, imm9, rt);
    RegWordSize(sf, cc, rm, size, imm9, rt);
    RegWordLow(sf, cc, rm, size, imm9, rt);
  }

  lemma ImmWordTop(sf: bv32, cc: bv32, imm6: bv32, imm9: bv32, rt: bv32)
    requires sf <= 1 && cc <= 7 && imm6 <= 63 && imm9 & 0x1ff == imm9 && rt < 32
    ensures var w := CmpbrImmWord(sf, cc, imm6, imm9, rt);
            Bit(w, 31) == sf && Bit(w, 24) == 1 && w & 0x7e00_0000 == 0x7400_0000
  {
  }

  lemma ImmWordCondition(sf: bv32, cc: bv32, imm6: bv32, imm9: bv32, rt: bv32)
    requires sf <= 1 && cc <= 7 && imm6 <= 63 && imm9 & 0x1ff == imm9 && rt < 32
    ensures var w := CmpbrImmWord(sf, cc, imm6, imm9, rt); Bits(w, 21, 3) == cc && Bit(w, 14) == 0
  {
  }

  lemma ImmWordSecond(sf: bv32, cc: bv32, imm6: bv32, imm9: bv32, rt: bv32)
    requires sf <= 1 && cc <= 7 && imm6 <= 63 && imm9 & 0x1ff == imm9 && rt < 32
    ensures var w := CmpbrImmWord(sf, cc, imm6, imm9, rt); Bits(w, 15, 6) == imm6
  {
  }

  lemma ImmWordLow(sf: bv32, cc: bv32, imm6: bv32, imm9: bv32, rt: bv32)
    requires sf <= 1 && cc <= 7 && imm6 <= 63 && imm9 & 0x1ff == imm9 && rt < 32
    ensures var w := CmpbrImmWord(sf, cc, imm6, imm9, rt); Bits(w, 5, 9) == imm9 && Bits(w, 0, 5) == rt
  {
  }

  lemma CmpbrImmWordFields(sf: bv32, cc: bv32, imm6: bv32, imm9: bv32, rt: bv32)
    requires sf <= 1 && cc <= 7 && imm6 <= 63 && imm9 & 0x1ff == imm9 && rt < 32
    ensures var w := CmpbrImmWord(sf, cc, imm6, imm9, rt);
            && Bit(w, 31) == sf && Bit(w, 24) == 1 && w & 0x7e00_0000 == 0x7400_0000
            && Bits(w, 21, 3) == cc && Bit(w, 14) == 0 && Bits(w, 15, 6) == imm6 && Bits(w, 5, 9) == imm9
            && Bits(w, 0, 5) == rt
  {
    ImmWordTop(sf, cc, imm6, imm9, rt);
    ImmWordCondition(sf, cc, imm6, imm9, rt);
    ImmWordSecond(sf, cc, imm6, imm9, rt);
    ImmWordLow(sf, cc, imm6, imm9, rt);
  }

  lemma CmpbrBits(w: bv32)
    requires w & 0x7e00_0000 == 0x7400_0000
    ensures ClassOf(w).CmpbrBlock?
  {
  }

  lemma CmpbrRegParts(d: Insn)
    requires EncCmpbr(d).Ok? && d.Op(1).Reg?
    ensures var (size, reg, imm) := CmpbrFacets(d.code);
            && d.Op(0).Reg? && d.Op(2).Label? && RelImm(d.Op(2).target, d.ip, Imm9).Some? && reg.Some?
            && (size != 0 ==> WidthBits(d.Op(0).reg) != 64)
            && EncCmpbr(d) ==
               Ok(CmpbrRegWord(if size == 0 && WidthBits(d.Op(0).reg) == 64 then 1 else 0, reg.value,
                               Number(d.Op(1).reg), size, Low32(RelImm(d.Op(2).target, d.ip, Imm9).value),
                               Number(d.Op(0).reg)))
  {
  }

  lemma CmpbrRegAgain(d: Insn, v: Insn)
    requires IsCmpbr(d.code) && EncCmpbr(d).Ok? && d.Op(1).Reg? && v.ip == d.ip
    ensures var w := EncCmpbr(d).value;
            && ClassOf(w).CmpbrBlock? && Bit(w, 24) == 0 && d.Op(0).Reg?
            && CmpbrReg(w, v) ==
               v.Set(d.code).Push(PlainReg(false, WidthOfReg(d.Op(0).reg), Number(d.Op(0).reg)))
                .Push(PlainReg(false, WidthOfReg(d.Op(0).reg), Number(d.Op(1).reg))).Push(d.Op(2))
  {
    CmpbrRegParts(d);
    FacetsBack(d.code);
    var (size, reg, imm) := CmpbrFacets(d.code);
    var sf: bv32 := if size == 0 && WidthBits(d.Op(0).reg) == 64 then 1 else 0;
    var a, b, t := Number(d.Op(0).reg), Number(d.Op(1).reg), d.Op(2).target;
    var x := FieldBelow(RelImm(t, d.ip, Imm9).value, Imm9);
    CmpbrRegWordFields(sf, reg.value, b, size, x, a);
    CmpbrBits(CmpbrRegWord(sf, reg.value, b, size, x, a));
    LabelBack(CmpbrRegWord(sf, reg.value, b, size, x, a), t, d.ip, Imm9);
  }

  // A number below 64 is the number of its low bits.
  lemma SmallNumber(n: U64)
    requires n <= 63
    ensures Low32(n) <= 63 && Low32(n) as int == n
  {
    var x := WordOf(n);
  }

  lemma CmpbrImmAgain(d: Insn, v: Insn)
    requires IsCmpbr(d.code) && EncCmpbr(d).Ok? && !d.Op(1).Reg? && v.ip == d.ip
    ensures var w := EncCmpbr(d).value;
            && ClassOf(w).CmpbrBlock? && Bit(w, 24) == 1 && d.Op(0).Reg? && ImmU(d, 1).Ok?
            && CmpbrImm(w, v) ==
               v.Set(d.code).Push(PlainReg(false, WidthOfReg(d.Op(0).reg), Number(d.Op(0).reg)))
                .Push(ImmUnsigned(ImmU(d, 1).value)).Push(d.Op(2))
  {
    FacetsBack(d.code);
    var (size, reg, imm) := CmpbrFacets(d.code);
    var sf: bv32 := if WidthBits(d.Op(0).reg) == 64 then 1 else 0;
    var a, n, t := Number(d.Op(0).reg), ImmU(d, 1).value, d.Op(2).target;
    var x := FieldBelow(RelImm(t, d.ip, Imm9).value, Imm9);
    SmallNumber(n);
    CmpbrImmWordFields(sf, imm.value, Low32(n), x, a);
    CmpbrBits(CmpbrImmWord(sf, imm.value, Low32(n), x, a));
    LabelBack(CmpbrImmWord(sf, imm.value, Low32(n), x, a), t, d.ip, Imm9);
  }

  // --- When the edited instruction comes back. ---

  // The direct branches, whose encodings a caller may edit the operands of.
  predicate IsDirectCode(c: Code) {
    IsCondCode(c) || IsUncondCode(c) || IsCompareCode(c) || IsTestCode(c) || IsCmpbr(c)
  }

  // The operands are those the decoder makes for the encoding: nothing is left over, a
  // register is plain and as wide as the encoding, the tested bit or the other operand of
  // a fused compare asks for, and a number is an unsigned one.
  predicate AsDecoded(d: Insn) {
    if IsCondCode(d.code) then |d.ops| == 2
    else if IsUncondCode(d.code) then |d.ops| == 1
    else if IsCompareCode(d.code) then AsCompare(d)
    else if IsTestCode(d.code) then AsTest(d)
    else AsCmpbr(d)
  }

  predicate AsCompare(d: Insn) {
    |d.ops| == 2 && PlainOf(d.ops[0], if IsWide(d.code) then X64 else W32)
  }

  predicate AsTest(d: Insn) {
    && |d.ops| == 3 && d.ops[1].ImmUnsigned? && d.ops[1].value <= 63
    && PlainOf(d.ops[0], if d.ops[1].value >= 32 then X64 else W32)
  }

  predicate AsCmpbr(d: Insn) {
    && |d.ops| == 3 && d.ops[0].Reg? && PlainOf(d.ops[0], WidthOfReg(d.ops[0].reg))
    && (d.ops[1].ImmUnsigned? || PlainOf(d.ops[1], WidthOfReg(d.ops[0].reg)))
  }

  // The extensions of the two families of them that have one.
  predicate Admitted(c: Code, f: Gate) {
    (c.BcCond? ==> f(Feature.Hbc)) && (IsCmpbr(c) ==> f(Feature.Cmpbr))
  }

  lemma PushTwo(c: Code, a: Operand, b: Operand, v: Insn)
    ensures v.Set(c).Push(a).Push(b) == v.(code := c, mnemonic := MnemonicOf(c), ops := [a, b])
  {
  }

  lemma PushThree(c: Code, a: Operand, b: Operand, l: Operand, v: Insn)
    ensures v.Set(c).Push(a).Push(b).Push(l) == v.(code := c, mnemonic := MnemonicOf(c), ops := [a, b, l])
  {
  }

  lemma AreTwo(d: Insn, a: Operand, b: Operand)
    ensures d.ops == [a, b] <==> |d.ops| == 2 && d.Op(0) == a && d.Op(1) == b
  {
  }

  lemma AreThree(d: Insn, a: Operand, b: Operand, l: Operand)
    ensures d.ops == [a, b, l] <==> |d.ops| == 3 && d.Op(0) == a && d.Op(1) == b && d.Op(2) == l
  {
  }

  lemma CompareReturns(d: Insn, v: Insn)
    requires IsCompareCode(d.code) && EncCompareBranch(d).Ok? && v.ip == d.ip
    ensures SameMeaning(CompareBranch(EncCompareBranch(d).value, v), d) <==>
            d.mnemonic == MnemonicOf(d.code) && AsCompare(d)
  {
    CompareAgain(d, v);
    var r := PlainReg(false, if IsWide(d.code) then X64 else W32, Number(d.Op(0).reg));
    PushTwo(d.code, r, d.Op(1), v);
    AreTwo(d, r, d.Op(1));
  }

  lemma TestReturns(d: Insn, v: Insn)
    requires IsTestCode(d.code) && EncTestBranch(d).Ok? && v.ip == d.ip
    ensures SameMeaning(TestBranch(EncTestBranch(d).value, v), d) <==> d.mnemonic == MnemonicOf(d.code) && AsTest(d)
  {
    TestAgain(d, v);
    TestParts(d);
    var r := PlainReg(false, if BitOf(d) >= 32 then X64 else W32, Number(d.Op(0).reg));
    PushThree(d.code, r, ImmUnsigned(BitOf(d) as int), d.Op(2), v);
    TestIsNormal(d);
  }

  // A test is as decoded exactly when it is what it decodes to.
  lemma TestIsNormal(d: Insn)
    requires d.Op(0).Reg? && ImmU(d, 1).Ok? && BitOf(d) <= 63
    ensures AsTest(d) <==>
            d.ops == [PlainReg(false, if BitOf(d) >= 32 then X64 else W32, Number(d.Op(0).reg)),
                      ImmUnsigned(BitOf(d) as int), d.Op(2)]
  {
    AreThree(d, PlainReg(false, if BitOf(d) >= 32 then X64 else W32, Number(d.Op(0).reg)),
             ImmUnsigned(BitOf(d) as int), d.Op(2));
    BitReturns(d);
  }

  // The tested bit comes back exactly if it was one.
  lemma BitReturns(d: Insn)
    requires ImmU(d, 1).Ok? && BitOf(d) <= 63
    ensures d.Op(1) == ImmUnsigned(BitOf(d) as int) <==> d.Op(1).ImmUnsigned? && d.Op(1).value <= 63
    ensures d.Op(1).ImmUnsigned? && d.Op(1).value <= 63 ==> (BitOf(d) >= 32 <==> d.Op(1).value >= 32)
  {
    Below6(BitOf(d));
    if d.Op(1).ImmUnsigned? && d.Op(1).value <= 63 {
      SmallNumber(d.Op(1).value);
    }
  }

  lemma UncondReturns(d: Insn, v: Insn)
    requires IsUncondCode(d.code) && EncUncondBranchImm(d).Ok? && v.ip == d.ip
    ensures SameMeaning(UncondBranchImm(EncUncondBranchImm(d).value, v), d) <==>
            d.mnemonic == MnemonicOf(d.code) && |d.ops| == 1
  {
    UncondAgain(d, v);
  }

  lemma CondReturns(d: Insn, f: Gate, v: Insn)
    requires IsCondCode(d.code) && EncCondBranch(d).Ok? && v.ip == d.ip && v.IsInvalid()
    ensures SameMeaning(CondBranch(EncCondBranch(d).value, f, v), d) <==>
            d.mnemonic == MnemonicOf(d.code) && |d.ops| == 2 && (d.code.BcCond? ==> f(Feature.Hbc))
  {
    CondAgain(d, f, v);
    PushTwo(d.code, d.Op(0), d.Op(1), v);
    AreTwo(d, d.Op(0), d.Op(1));
  }

  lemma CmpbrReturns(d: Insn, f: Gate, v: Insn)
    requires IsCmpbr(d.code) && EncCmpbr(d).Ok? && v.ip == d.ip && v.IsInvalid()
    ensures SameMeaning(CmpbrOf(EncCmpbr(d).value, f, v), d) <==>
            d.mnemonic == MnemonicOf(d.code) && f(Feature.Cmpbr) && AsCmpbr(d)
  {
    if f(Feature.Cmpbr) {
      if d.Op(1).Reg? { CmpbrRegReturns(d, f, v); } else { CmpbrImmReturns(d, f, v); }
    } else {
      CmpbrCodes(EncCmpbr(d).value, f, v);
    }
  }

  lemma CmpbrRegReturns(d: Insn, f: Gate, v: Insn)
    requires IsCmpbr(d.code) && EncCmpbr(d).Ok? && d.Op(1).Reg? && v.ip == d.ip && f(Feature.Cmpbr)
    ensures SameMeaning(CmpbrOf(EncCmpbr(d).value, f, v), d) <==>
            && d.mnemonic == MnemonicOf(d.code)
            && |d.ops| == 3 && d.ops[0].Reg? && PlainOf(d.ops[0], WidthOfReg(d.ops[0].reg))
            && PlainOf(d.ops[1], WidthOfReg(d.ops[0].reg))
  {
    CmpbrRegAgain(d, v);
    var w := WidthOfReg(d.Op(0).reg);
    var a, b := PlainReg(false, w, Number(d.Op(0).reg)), PlainReg(false, w, Number(d.Op(1).reg));
    PushThree(d.code, a, b, d.Op(2), v);
    AreThree(d, a, b, d.Op(2));
  }

  // What a compare with a number comes back with.
  function ImmForm(d: Insn): seq<Operand>
    requires d.Op(0).Reg? && ImmU(d, 1).Ok?
  {
    [PlainReg(false, WidthOfReg(d.Op(0).reg), Number(d.Op(0).reg)), ImmUnsigned(ImmU(d, 1).value), d.Op(2)]
  }

  lemma CmpbrImmBack(d: Insn, f: Gate, v: Insn)
    requires IsCmpbr(d.code) && EncCmpbr(d).Ok? && !d.Op(1).Reg? && v.ip == d.ip && f(Feature.Cmpbr)
    ensures d.Op(0).Reg? && ImmU(d, 1).Ok?
    ensures CmpbrOf(EncCmpbr(d).value, f, v) == v.(code := d.code, mnemonic := MnemonicOf(d.code), ops := ImmForm(d))
  {
    CmpbrImmAgain(d, v);
    PushThree(d.code, PlainReg(false, WidthOfReg(d.Op(0).reg), Number(d.Op(0).reg)), ImmUnsigned(ImmU(d, 1).value),
              d.Op(2), v);
  }

  lemma CmpbrImmReturns(d: Insn, f: Gate, v: Insn)
    requires IsCmpbr(d.code) && EncCmpbr(d).Ok? && !d.Op(1).Reg? && v.ip == d.ip && f(Feature.Cmpbr)
    ensures SameMeaning(CmpbrOf(EncCmpbr(d).value, f, v), d) <==>
            && d.mnemonic == MnemonicOf(d.code)
            && |d.ops| == 3 && d.ops[0].Reg? && PlainOf(d.ops[0], WidthOfReg(d.ops[0].reg)) && d.ops[1].ImmUnsigned?
  {
    CmpbrImmBack(d, f, v);
    ImmIsNormal(d);
  }

  // A compare with a number is as decoded exactly when it is what it comes back with.
  lemma ImmIsNormal(d: Insn)
    requires d.Op(0).Reg? && ImmU(d, 1).Ok?
    ensures |d.ops| == 3 && PlainOf(d.ops[0], WidthOfReg(d.Op(0).reg)) && d.ops[1].ImmUnsigned? <==>
            d.ops == ImmForm(d)
  {
    AreThree(d, PlainReg(false, WidthOfReg(d.Op(0).reg), Number(d.Op(0).reg)), ImmUnsigned(ImmU(d, 1).value), d.Op(2));
  }

  // No encoding is in two classes.
  lemma ClassesApart(c: Code)
    ensures IsUncondCode(c) ==> !IsCondCode(c)
    ensures IsCompareCode(c) ==> !IsCondCode(c) && !IsUncondCode(c)
    ensures IsTestCode(c) ==> !IsCondCode(c) && !IsUncondCode(c) && !IsCompareCode(c)
  {
  }

  lemma CmpbrApart(c: Code)
    requires IsCmpbr(c)
    ensures !IsCondCode(c) && !IsUncondCode(c) && !IsCompareCode(c) && !IsTestCode(c) && !c.BcCond?
  {
  }

  // What the theorem says of an instruction that encodes to w.
  ghost predicate ReturnsIff(d: Insn, w: bv32, f: Gate, table: SysTable) {
    SameMeaning(Branch(w, f, table, NewInvalid(w, d.ip)), d) <==>
    d.mnemonic == MnemonicOf(d.code) && Admitted(d.code, f) && AsDecoded(d)
  }

  lemma CondClassReturns(d: Insn, f: Gate, table: SysTable, names: SysNames)
    requires IsCondCode(d.code) && Encode(d, names).Ok?
    ensures ReturnsIff(d, Encode(d, names).value, f, table)
  {
    var w := Encode(d, names).value;
    ClassEncodes(CondBlock, d, names);
    CondAgain(d, f, NewInvalid(w, d.ip));
    CondReturns(d, f, NewInvalid(w, d.ip));
    BranchInJump(CondBlock, w, f, table, NewInvalid(w, d.ip));
    CondIsNoCmpbr(d.code);
  }

  lemma CondIsNoCmpbr(c: Code)
    ensures IsCondCode(c) || IsUncondCode(c) || IsCompareCode(c) || IsTestCode(c) ==> !IsCmpbr(c)
    ensures IsUncondCode(c) || IsCompareCode(c) || IsTestCode(c) ==> !c.BcCond?
  {
  }

  lemma UncondClassReturns(d: Insn, f: Gate, table: SysTable, names: SysNames)
    requires IsUncondCode(d.code) && Encode(d, names).Ok?
    ensures ReturnsIff(d, Encode(d, names).value, f, table)
  {
    var w := Encode(d, names).value;
    ClassEncodes(ImmBranch, d, names);
    UncondAgain(d, NewInvalid(w, d.ip));
    UncondReturns(d, NewInvalid(w, d.ip));
    BranchInJump(ImmBranch, w, f, table, NewInvalid(w, d.ip));
    CondIsNoCmpbr(d.code);
    ClassesApart(d.code);
  }

  lemma CompareClassReturns(d: Insn, f: Gate, table: SysTable, names: SysNames)
    requires IsCompareCode(d.code) && Encode(d, names).Ok?
    ensures ReturnsIff(d, Encode(d, names).value, f, table)
  {
    var w := Encode(d, names).value;
    ClassEncodes(CompareBlock, d, names);
    CompareAgain(d, NewInvalid(w, d.ip));
    CompareReturns(d, NewInvalid(w, d.ip));
    BranchInJump(CompareBlock, w, f, table, NewInvalid(w, d.ip));
    CondIsNoCmpbr(d.code);
    ClassesApart(d.code);
  }

  lemma TestClassReturns(d: Insn, f: Gate, table: SysTable, names: SysNames)
    requires IsTestCode(d.code) && Encode(d, names).Ok?
    ensures ReturnsIff(d, Encode(d, names).value, f, table)
  {
    var w := Encode(d, names).value;
    ClassEncodes(TestBlock, d, names);
    TestAgain(d, NewInvalid(w, d.ip));
    TestReturns(d, NewInvalid(w, d.ip));
    BranchInJump(TestBlock, w, f, table, NewInvalid(w, d.ip));
    CondIsNoCmpbr(d.code);
    ClassesApart(d.code);
  }

  lemma CmpbrInBlock(d: Insn, v: Insn)
    requires IsCmpbr(d.code) && EncCmpbr(d).Ok? && v.ip == d.ip
    ensures ClassOf(EncCmpbr(d).value).CmpbrBlock?
  {
    if d.Op(1).Reg? { CmpbrRegAgain(d, v); } else { CmpbrImmAgain(d, v); }
  }

  lemma CmpbrClassReturns(d: Insn, f: Gate, table: SysTable, names: SysNames)
    requires IsCmpbr(d.code) && Encode(d, names).Ok?
    ensures ReturnsIff(d, Encode(d, names).value, f, table)
  {
    var w := Encode(d, names).value;
    ClassEncodes(CmpbrBlock, d, names);
    CmpbrInBlock(d, NewInvalid(w, d.ip));
    CmpbrReturns(d, f, NewInvalid(w, d.ip));
    BranchInJump(CmpbrBlock, w, f, table, NewInvalid(w, d.ip));
    CmpbrApart(d.code);
  }

  // A direct branch with any operands at all, if it encodes, comes back as it was exactly
  // when its operands are as the decoder makes them, its mnemonic is that of its encoding
  // and the extension of the encoding is accepted.
  lemma DirectBranchReturnsIff(d: Insn, f: Gate, table: SysTable, names: SysNames)
    requires IsDirectCode(d.code) && Encode(d, names).Ok?
    ensures ReturnsIff(d, Encode(d, names).value, f, table)
  {
    if IsCondCode(d.code) {
      CondClassReturns(d, f, table, names);
    } else if IsUncondCode(d.code) {
      UncondClassReturns(d, f, table, names);
    } else if IsCompareCode(d.code) {
      CompareClassReturns(d, f, table, names);
    } else if IsTestCode(d.code) {
      TestClassReturns(d, f, table, names);
    } else {
      CmpbrClassReturns(d, f, table, names);
    }
  }

  lemma ToItself(ip: U64, s: Span)
    ensures RelImm(ip, ip, s) == Some(0)
  {
  }

  // CBZ of 64 bits whose register was replaced by W1 encodes, and comes back with X1.
  lemma NarrowRegisterIsLost(ip: U64, f: Gate, table: SysTable, names: SysNames)
    ensures var d := Insn(0, ip, Code.Cbz64, Mnemonic.Cbz, [Reg(W(1), PLAIN), Label(ip)], true);
            && Encode(d, names).Ok?
            && !SameMeaning(Branch(Encode(d, names).value, f, table, NewInvalid(Encode(d, names).value, ip)), d)
  {
    var d := Insn(0, ip, Code.Cbz64, Mnemonic.Cbz, [Reg(W(1), PLAIN), Label(ip)], true);
    ToItself(ip, Imm19);
    ClassEncodes(CompareBlock, d, names);
    CompareClassReturns(d, f, table, names);
    NarrowIsNotWide(d);
  }

  lemma NarrowIsNotWide(d: Insn)
    requires IsCompareCode(d.code) && IsWide(d.code) && d.Op(0) == Reg(W(1), PLAIN)
    ensures !AsDecoded(d)
  {
    ClassesApart(d.code);
  }

  // TBZ of bit 2^32 encodes, and comes back testing bit 0.
  lemma HighBitIsLost(ip: U64, f: Gate, table: SysTable, names: SysNames)
    ensures var d := Insn(0, ip, Code.Tbz, Own(Code.Tbz), [Reg(W(1), PLAIN), ImmUnsigned(0x1_0000_0000), Label(ip)],
                          true);
            && Encode(d, names).Ok?
            && !SameMeaning(Branch(Encode(d, names).value, f, table, NewInvalid(Encode(d, names).value, ip)), d)
  {
    var d := Insn(0, ip, Code.Tbz, Own(Code.Tbz), [Reg(W(1), PLAIN), ImmUnsigned(0x1_0000_0000), Label(ip)], true);
    ToItself(ip, Imm14);
    ClassEncodes(TestBlock, d, names);
    LowOfHigh();
    TestClassReturns(d, f, table, names);
    HighIsNoBit(d);
  }

  lemma LowOfHigh()
    ensures Low32(0x1_0000_0000) == 0
  {
    var x := WordOf(0x8000_0000);
    TopBit(x);
    var u: U64 := 0x1_0000_0000;
    assert u / 2 == 0x8000_0000 && u % 2 == 0;
    assert Low32(u) == (x << 1) | 0;
  }

  lemma TopBit(x: bv32)
    requires x as int == 0x8000_0000
    ensures (x << 1) | 0 == 0
  {
    assert x == 0x8000_0000;
  }

  lemma HighIsNoBit(d: Insn)
    requires IsTestCode(d.code) && d.Op(1) == ImmUnsigned(0x1_0000_0000)
    ensures !AsDecoded(d)
  {
    ClassesApart(d.code);
  }
}
