/** The system block: what the encoder makes of a decoded instruction is the word in
    canonical form, the one whose ignored fields hold their fixed values. */
module SystemLaws {
  import opened Wrappers
  import opened Ints
  import opened Fields
  import opened Features
  import opened Isa
  import opened Instructions
  import opened BranchSpec
  import opened BranchValidity
  import opened BranchEncode
  import opened BranchLaws

  predicate InRange(s: SysFields) {
    s.op0 <= 3 && s.op1 <= 7 && s.crn <= 15 && s.crm <= 15 && s.op2 <= 7 && s.rt <= 31
  }

  function SystemWordOf(s: SysFields): bv32 {
    SystemWord(if s.read then 1 else 0, s.op0, s.op1, s.crn, s.crm, s.op2, s.rt)
  }

  lemma FieldsInRange(word: bv32)
    ensures InRange(FieldsOf(word))
  {
  }

  lemma WordOfFields(word: bv32)
    requires word & 0xffc0_0000 == 0xd500_0000
    ensures SystemWordOf(FieldsOf(word)) == word
  {
    OneBit(word);
  }

  lemma OneBit(word: bv32)
    ensures Bit(word, 21) == 0 || Bit(word, 21) == 1
  {
  }

  lemma FieldsOfWord(s: SysFields)
    requires InRange(s)
    ensures FieldsOf(SystemWordOf(s)) == s && SystemWordOf(s) & 0xffc0_0000 == 0xd500_0000
  {
    PartsOfWord(if s.read then 1 else 0, s.op0, s.op1, s.crn, s.crm, s.op2, s.rt);
  }

  lemma PartsOfWord(l: bv32, op0: bv32, op1: bv32, crn: bv32, crm: bv32, op2: bv32, rt: bv32)
    requires l <= 1 && op0 <= 3 && op1 <= 7 && crn <= 15 && crm <= 15 && op2 <= 7 && rt <= 31
    ensures var w := SystemWord(l, op0, op1, crn, crm, op2, rt);
            && Bit(w, 21) == l && Bits(w, 19, 2) == op0 && Bits(w, 16, 3) == op1 && Bits(w, 12, 4) == crn
            && Bits(w, 8, 4) == crm && Bits(w, 5, 3) == op2 && Bits(w, 0, 5) == rt && w & 0xffc0_0000 == 0xd500_0000
  {
    HighParts(l, op0, op1, crn, crm, op2, rt);
    MiddleParts(l, op0, op1, crn, crm, op2, rt);
    LowParts(l, op0, op1, crn, crm, op2, rt);
  }

  lemma HighParts(l: bv32, op0: bv32, op1: bv32, crn: bv32, crm: bv32, op2: bv32, rt: bv32)
    requires l <= 1 && op0 <= 3
    ensures var w := SystemWord(l, op0, op1, crn, crm, op2, rt);
            Bit(w, 21) == l && Bits(w, 19, 2) == op0 && w & 0xffc0_0000 == 0xd500_0000
  {
  }

  lemma MiddleParts(l: bv32, op0: bv32, op1: bv32, crn: bv32, crm: bv32, op2: bv32, rt: bv32)
    requires op1 <= 7 && crn <= 15
    ensures var w := SystemWord(l, op0, op1, crn, crm, op2, rt); Bits(w, 16, 3) == op1 && Bits(w, 12, 4) == crn
  {
  }

  lemma LowParts(l: bv32, op0: bv32, op1: bv32, crn: bv32, crm: bv32, op2: bv32, rt: bv32)
    requires crm <= 15 && op2 <= 7 && rt <= 31
    ensures var w := SystemWord(l, op0, op1, crn, crm, op2, rt);
            Bits(w, 8, 4) == crm && Bits(w, 5, 3) == op2 && Bits(w, 0, 5) == rt
  {
  }

  // --- The canonical form of a named encoding. ---

  // HINT, barrier and WFxT encodings ignore op1; CFINV, XAFLAG, AXFLAG and SB ignore CRm;
  // SMSTART and SMSTOP ignore CRm<3> and read ZA = SM = 0 as both set.
  function Canonical(s: SysFields): SysFields {
    if s.read then s
    else if s.crn == 4 then
      if s.op1 == 3 && s.op2 == 3 then s.(crm := if s.crm & 6 == 0 then 6 | (s.crm & 1) else s.crm & 7)
      else if s.op1 == 0 && s.op2 <= 2 then s.(crm := 0)
      else s
    else if s.crn == 3 && s.op2 == 7 then s.(op1 := 3, crm := 0)
    else s.(op1 := 3)
  }

  // --- TSTART, TTEST, WFET, WFIT. ---

  lemma ResultShape(s: SysFields, f: Gate, v: Insn)
    requires v.IsInvalid() && !SystemResult(s, f, v).IsInvalid()
    ensures var d := SystemResult(s, f, v);
            && s.op1 == 3 && s.crn == 3 && s.op2 == 3 && s.crm <= 1
            && d.code == (if s.crm == 1 then Code.Ttest else Code.Tstart) && d.Op(0) == XReg(false, s.rt)
  {
  }

  lemma ResultRoundTrip(s: SysFields, f: Gate, v: Insn)
    requires InRange(s) && s.read && s.op0 == 0 && v.IsInvalid() && !SystemResult(s, f, v).IsInvalid()
    ensures EncSystemResult(SystemResult(s, f, v)) == Ok(SystemWordOf(s))
  {
    ResultShape(s, f, v);
    var r := XOperand(false, s.rt);
  }

  lemma WfxtShape(s: SysFields, f: Gate, v: Insn)
    requires v.IsInvalid() && !WfxtOf(s, f, v).IsInvalid()
    ensures var d := WfxtOf(s, f, v);
            && s.crm == 0 && s.op2 <= 1
            && d.code == (if s.op2 == 1 then Code.Wfit else Code.Wfet) && d.Op(0) == XReg(false, s.rt)
  {
    ModifierShape(if s.op2 == 1 then Code.Wfit else Code.Wfet, XReg(false, s.rt), v);
  }

  lemma WfxtRoundTrip(s: SysFields, f: Gate, v: Insn)
    requires InRange(s) && !s.read && s.op0 == 0 && s.crn == 1 && v.IsInvalid() && !WfxtOf(s, f, v).IsInvalid()
    ensures EncWfxt(WfxtOf(s, f, v)) == Ok(SystemWordOf(s.(op1 := 3)))
  {
    WfxtShape(s, f, v);
    var r := XOperand(false, s.rt);
  }

  // --- Barriers. ---

  lemma EncodesDefaulted(d: Insn, crm: bv32, n: U64, op2: bv32)
    requires crm <= 15 && Low32(n) == crm
    requires if crm == 15 then d.ops == [] else d.ops == [ImmUnsigned(n)]
    ensures EncDefaulted(d, op2) == Ok(BarrierWord(crm, op2))
  {
    assert crm & 15 == crm;
  }

  lemma OptionInverts(d: Insn, crm: bv32)
    requires crm <= 15 && d.Op(0) == BarrierOption(crm)
    ensures BarrierCrm(d) == Ok(crm)
    ensures d.Op(0).SysOp? ==> NxsField(d.Op(0).keyword).None?
  {
    if !BarrierOption(crm).SysOp? {
      Low32Of(crm);
      assert crm & 15 == crm;
    }
  }

  lemma EncodesOptionDsb(d: Insn, crm: bv32)
    requires d.code.Dsb? && d.mnemonic == Own(Code.Dsb) && crm <= 15 && d.Op(0) == BarrierOption(crm)
    ensures EncBarrier(d) == Ok(BarrierWord(crm, 4))
  {
    OptionInverts(d, crm);
    assert EncBarrier(d) == EncDsb(d);
  }

  lemma EncodesDsb(d: Insn, crm: bv32)
    requires d.code.Dsb? && crm <= 15
    requires if crm == 0 then d.mnemonic.Ssbb? && d.ops == []
             else if crm == 4 then d.mnemonic.Pssbb? && d.ops == []
             else d.mnemonic == Own(Code.Dsb) && d.Op(0) == BarrierOption(crm)
    ensures EncBarrier(d) == Ok(BarrierWord(crm, 4))
  {
    if crm != 0 && crm != 4 { EncodesOptionDsb(d, crm); }
  }

  lemma DsbShape(crm: bv32, v: Insn)
    ensures var d := DsbOf(crm, v);
            && d.code.Dsb?
            && (if crm == 0 then d.mnemonic.Ssbb? && d.ops == []
                else if crm == 4 then d.mnemonic.Pssbb? && d.ops == []
                else d.mnemonic == Own(Code.Dsb) && d.Op(0) == BarrierOption(crm))
  {
    if crm == 0 {
      RenamedBare(Code.Dsb, Mnemonic.Ssbb, v);
    } else if crm == 4 {
      RenamedBare(Code.Dsb, Mnemonic.Pssbb, v);
    } else {
      OneOperand(Code.Dsb, BarrierOption(crm), v);
      NamedByCode(Code.Dsb, BarrierOption(crm), v);
    }
  }

  lemma RenamedBare(c: Code, m: Mnemonic, v: Insn)
    ensures var d := v.Set(c).SetAlias(m); d.code == c && d.mnemonic == m && d.ops == []
  {
  }

  lemma EncodesDmb(d: Insn, crm: bv32)
    requires crm <= 15 && d.code.Dmb? && d.Op(0) == BarrierOption(crm)
    ensures EncBarrier(d) == Ok(BarrierWord(crm, 5))
  {
    OptionInverts(d, crm);
  }

  lemma EncodesOptional(d: Insn, crm: bv32, n: U64)
    requires crm <= 15 && Low32(n) == crm
    requires if crm == 15 then d.ops == [] else d.ops == [ImmUnsigned(n)]
    ensures d.code.Clrex? ==> EncBarrier(d) == Ok(BarrierWord(crm, 2))
    ensures d.code.Isb? ==> EncBarrier(d) == Ok(BarrierWord(crm, 6))
  {
    EncodesDefaulted(d, crm, n, 2);
    EncodesDefaulted(d, crm, n, 6);
  }

  lemma OptionalLeaf(c: Code, crm: bv32, v: Insn)
    requires crm <= 15
    ensures c == Code.Clrex ==> EncBarrier(UnlessDefault(v.Set(c), crm)) == Ok(BarrierWord(crm, 2))
    ensures c == Code.Isb ==> EncBarrier(UnlessDefault(v.Set(c), crm)) == Ok(BarrierWord(crm, 6))
  {
    var n := Number7(crm);
    EncodesOptional(UnlessDefault(v.Set(c), crm), crm, n);
  }

  lemma OptionalBarrierRoundTrip(s: SysFields, f: Gate, v: Insn)
    requires InRange(s) && s.rt == 31 && (s.op2 == 2 || s.op2 == 6)
    ensures EncBarrier(BarrierOf(s, f, v)) == Ok(BarrierWord(s.crm, s.op2))
  {
    OptionalLeaf(if s.op2 == 2 then Code.Clrex else Code.Isb, s.crm, v);
  }

  lemma DsbRoundTrip(crm: bv32, v: Insn)
    requires crm <= 15
    ensures EncBarrier(DsbOf(crm, v)) == Ok(BarrierWord(crm, 4))
  {
    DsbShape(crm, v);
    EncodesDsb(DsbOf(crm, v), crm);
  }

  lemma DmbRoundTrip(crm: bv32, v: Insn)
    requires crm <= 15
    ensures EncBarrier(v.Set(Code.Dmb).Push(BarrierOption(crm))) == Ok(BarrierWord(crm, 5))
  {
    EncodesDmb(v.Set(Code.Dmb).Push(BarrierOption(crm)), crm);
  }

  lemma DataBarrierRoundTrip(s: SysFields, f: Gate, v: Insn)
    requires InRange(s) && s.rt == 31 && (s.op2 == 4 || s.op2 == 5)
    ensures EncBarrier(BarrierOf(s, f, v)) == Ok(BarrierWord(s.crm, s.op2))
  {
    DsbRoundTrip(s.crm, v);
    DmbRoundTrip(s.crm, v);
  }

  lemma OtherBarrierRoundTrip(s: SysFields, f: Gate, v: Insn)
    requires InRange(s) && s.rt == 31 && v.IsInvalid() && (s.op2 < 2 || s.op2 == 3 || s.op2 == 7)
    requires !BarrierOf(s, f, v).IsInvalid()
    ensures EncBarrier(BarrierOf(s, f, v)) == Ok(BarrierWord(if s.op2 == 7 then 0 else s.crm, s.op2))
  {
  }

  lemma BarrierRoundTrip(s: SysFields, f: Gate, v: Insn)
    requires InRange(s) && !s.read && s.op0 == 0 && s.crn == 3 && v.IsInvalid() && !BarrierOf(s, f, v).IsInvalid()
    ensures EncBarrier(BarrierOf(s, f, v)) == Ok(SystemWordOf(Canonical(s)))
  {
    if s.op2 == 4 || s.op2 == 5 {
      DataBarrierRoundTrip(s, f, v);
    } else if s.op2 == 2 || s.op2 == 6 {
      OptionalBarrierRoundTrip(s, f, v);
    } else {
      OtherBarrierRoundTrip(s, f, v);
    }
  }

  // --- Hints. ---

  lemma PlainHintSelected(sel: bv32, v: Insn)
    requires IsPlainHint(sel)
    ensures HintSelector(PlainHint(sel, v)) == Ok(sel)
  {
    var d := PlainHint(sel, v);
    assert d.code == PlainHintCode(sel);
    PlainCodeSelected(d, sel);
  }

  function PlainHintCode(sel: bv32): Code
    requires IsPlainHint(sel)
  {
    if sel == 0 then Code.Nop
    else if sel == 1 then Code.Yield
    else if sel == 2 then Code.Wfe
    else if sel == 3 then Code.Wfi
    else if sel == 4 then Code.Sev
    else if sel == 5 then Code.Sevl
    else if sel == 16 then Code.Esb
    else Code.Csdb
  }

  lemma NopSelected(d: Insn)
    requires d.code.Nop?
    ensures HintSelector(d) == Ok(0)
  {
  }

  lemma YieldSelected(d: Insn)
    requires d.code.Yield?
    ensures HintSelector(d) == Ok(1)
  {
  }

  lemma WfeSelected(d: Insn)
    requires d.code.Wfe?
    ensures HintSelector(d) == Ok(2)
  {
  }

  lemma WfiSelected(d: Insn)
    requires d.code.Wfi?
    ensures HintSelector(d) == Ok(3)
  {
  }

  lemma SevSelected(d: Insn)
    requires d.code.Sev?
    ensures HintSelector(d) == Ok(4)
  {
  }

  lemma SevlSelected(d: Insn)
    requires d.code.Sevl?
    ensures HintSelector(d) == Ok(5)
  {
  }

  lemma EsbSelected(d: Insn)
    requires d.code.Esb?
    ensures HintSelector(d) == Ok(16)
  {
  }

  lemma CsdbSelected(d: Insn)
    requires d.code.Csdb?
    ensures HintSelector(d) == Ok(20)
  {
  }

  lemma PlainCodeSelected(d: Insn, sel: bv32)
    requires IsPlainHint(sel) && d.code == PlainHintCode(sel)
    ensures HintSelector(d) == Ok(sel)
  {
    if sel == 0 { NopSelected(d); }
    else if sel == 1 { YieldSelected(d); }
    else if sel == 2 { WfeSelected(d); }
    else if sel == 3 { WfiSelected(d); }
    else if sel == 4 { SevSelected(d); }
    else if sel == 5 { SevlSelected(d); }
    else if sel == 16 { EsbSelected(d); }
    else { CsdbSelected(d); }
  }

  lemma StripSelected(d: Insn)
    ensures d.mnemonic.Xpaclri? ==> GenericSelector(d) == Ok(7)
    ensures d.mnemonic.Pacia1716? ==> GenericSelector(d) == Ok(8)
  {
  }

  lemma MiddlePauthSelected(d: Insn)
    ensures d.mnemonic.Pacib1716? ==> GenericSelector(d) == Ok(10)
    ensures d.mnemonic.Autia1716? ==> GenericSelector(d) == Ok(12)
  {
  }

  lemma OuterPauthSelected(d: Insn)
    ensures d.mnemonic.Autib1716? ==> GenericSelector(d) == Ok(14)
    ensures d.mnemonic.Pacm? ==> GenericSelector(d) == Ok(39)
  {
  }

  lemma PacASelected(d: Insn)
    ensures d.mnemonic.Paciaz? ==> GenericSelector(d) == Ok(24)
    ensures d.mnemonic.Paciasp? ==> GenericSelector(d) == Ok(25)
  {
  }

  lemma PacBSelected(d: Insn)
    ensures d.mnemonic.Pacibz? ==> GenericSelector(d) == Ok(26)
    ensures d.mnemonic.Pacibsp? ==> GenericSelector(d) == Ok(27)
  {
  }

  lemma AutASelected(d: Insn)
    ensures d.mnemonic.Autiaz? ==> GenericSelector(d) == Ok(28)
    ensures d.mnemonic.Autiasp? ==> GenericSelector(d) == Ok(29)
  {
  }

  lemma AutBSelected(d: Insn)
    ensures d.mnemonic.Autibz? ==> GenericSelector(d) == Ok(30)
    ensures d.mnemonic.Autibsp? ==> GenericSelector(d) == Ok(31)
  {
  }

  lemma PauthSelected(d: Insn, sel: bv32)
    requires IsPauthHint(sel) && d.mnemonic == PauthHint(sel)
    ensures GenericSelector(d) == Ok(sel)
  {
    if sel == 7 || sel == 8 { StripSelected(d); }
    else if sel == 10 || sel == 12 { MiddlePauthSelected(d); }
    else if sel == 14 || sel == 39 { OuterPauthSelected(d); }
    else if sel == 24 || sel == 25 { PacASelected(d); }
    else if sel == 26 || sel == 27 { PacBSelected(d); }
    else if sel == 28 || sel == 29 { AutASelected(d); }
    else { AutBSelected(d); }
  }

  lemma GenericDispatch(d: Insn)
    requires d.code.HintGeneric?
    ensures HintSelector(d) == GenericSelector(d)
  {
  }

  lemma GatedCodeSelected(d: Insn)
    ensures d.code.Dgh? ==> HintSelector(d) == Ok(6)
    ensures d.code.Psb? ==> HintSelector(d) == Ok(17)
    ensures d.code.Tsb? ==> HintSelector(d) == Ok(18)
  {
  }

  lemma LaterCodeSelected(d: Insn)
    ensures d.code.Gcsb? ==> HintSelector(d) == Ok(19)
    ensures d.code.Clrbhb? ==> HintSelector(d) == Ok(22)
    ensures d.code.Chkfeat? ==> HintSelector(d) == Ok(40)
  {
  }

  lemma ShuhSelected(d: Insn)
    requires d.code.Shuh?
    ensures d.Op(0) == NoOperand ==> HintSelector(d) == Ok(50)
    ensures d.Op(0) == SysOp(Keyword.Ph) ==> HintSelector(d) == Ok(51)
  {
  }

  lemma StshhSelected(d: Insn, n: U64)
    requires d.code.Stshh?
    ensures d.Op(0) == SysOp(Keyword.Keep) ==> HintSelector(d) == Ok(48)
    ensures d.Op(0) == SysOp(Keyword.Strm) ==> HintSelector(d) == Ok(49)
    ensures d.Op(0) == ImmUnsigned(n) ==> HintSelector(d) == Ok(48 | (Low32(n) & 7))
  {
  }

  lemma StcphSelected(d: Insn)
    requires d.code.Stcph?
    ensures HintSelector(d) == Ok(52)
  {
  }

  lemma StashLow(op2: bv32)
    requires 5 <= op2 <= 7
    ensures 48 | (op2 & 7) == 48 | op2
  {
  }

  lemma StashSelected(op2: bv32, v: Insn)
    requires op2 <= 7
    ensures HintSelector(StashHint(op2, v)) == Ok(48 | op2)
  {
    var d := StashHint(op2, v);
    if op2 == 2 || op2 == 3 {
      ShuhSelected(d);
    } else if op2 == 4 {
      StcphSelected(d);
    } else {
      if op2 >= 5 { StashLow(op2); }
      Low32Of(op2);
      StshhSelected(d, op2 as int);
    }
  }

  lemma BtiHintSelected(op2: bv32, v: Insn)
    requires op2 <= 7 && op2 & 1 == 0
    ensures HintSelector(BtiHint(op2, v)) == Ok(32 | op2)
  {
  }

  // A selector is CRm:op2.
  lemma SelectorParts(crm: bv32, op2: bv32)
    requires crm <= 15 && op2 <= 7
    ensures var sel := (crm << 3) | op2;
            && sel <= 0x7f && (sel >> 3) & 15 == crm && sel & 7 == op2
            && (crm == 6 ==> sel == 48 | op2) && (crm == 4 ==> sel == 32 | op2)
  {
  }

  function UngatedHint(sel: bv32, crm: bv32, op2: bv32, f: Gate, v: Insn): Insn {
    if crm == 6 && f(Feature.Pcdphint) then StashHint(op2, v)
    else if crm == 4 && op2 & 1 == 0 then BtiHint(op2, v)
    else v.Set(Code.HintGeneric).Push(ImmUnsigned(sel as int))
  }

  lemma GatedIs(sel: bv32, crm: bv32, op2: bv32, f: Gate, v: Insn) returns (named: bool)
    ensures named ==> sel == 6 || sel == 17 || sel == 18 || sel == 19 || sel == 22 || sel == 40
    ensures named ==> var d := GatedHint(sel, crm, op2, f, v);
              d.code == (if sel == 6 then Code.Dgh else if sel == 17 then Code.Psb else if sel == 18 then Code.Tsb
                         else if sel == 19 then Code.Gcsb else if sel == 22 then Code.Clrbhb else Code.Chkfeat)
    ensures !named ==> GatedHint(sel, crm, op2, f, v) == UngatedHint(sel, crm, op2, f, v)
  {
    named := || (sel == 6 && f(Feature.Dgh)) || sel == 17 || (sel == 18 && f(Feature.Trf))
             || (sel == 19 && f(Feature.Gcs)) || (sel == 22 && f(Feature.Clrbhb)) || (sel == 40 && f(Feature.Chk));
  }

  lemma NumberedShape(n: U64, v: Insn)
    ensures var d := v.Set(Code.HintGeneric).Push(ImmUnsigned(n));
            d.code.HintGeneric? && d.mnemonic == Own(Code.HintGeneric) && d.Op(0) == ImmUnsigned(n)
  {
    OneOperand(Code.HintGeneric, ImmUnsigned(n), v);
    NamedByCode(Code.HintGeneric, ImmUnsigned(n), v);
  }

  lemma NamedByCode(c: Code, op: Operand, v: Insn)
    ensures v.Set(c).Push(op).mnemonic == MnemonicOf(c)
  {
  }

  lemma EncodesNumbered(d: Insn, n: U64)
    requires d.code.HintGeneric? && d.mnemonic == Own(Code.HintGeneric) && d.Op(0) == ImmUnsigned(n)
    ensures HintSelector(d) == Ok(Low32(n))
  {
    GenericDispatch(d);
  }

  lemma NumberedHintAt(n: U64, v: Insn)
    ensures HintSelector(v.Set(Code.HintGeneric).Push(ImmUnsigned(n))) == Ok(Low32(n))
  {
    NumberedShape(n, v);
    EncodesNumbered(v.Set(Code.HintGeneric).Push(ImmUnsigned(n)), n);
  }

  lemma NumberedHint(sel: bv32, v: Insn)
    ensures HintSelector(v.Set(Code.HintGeneric).Push(ImmUnsigned(sel as int))) == Ok(sel)
  {
    var n := NumberOf(sel);
    NumberedHintAt(n, v);
  }

  lemma NumberOf(x: bv32) returns (n: U64)
    ensures n == x as int && Low32(n) == x
  {
    Low32Of(x);
    n := x as int;
  }

  lemma GatedSelected(sel: bv32, crm: bv32, op2: bv32, f: Gate, v: Insn)
    requires crm <= 15 && op2 <= 7 && sel == (crm << 3) | op2
    ensures HintSelector(GatedHint(sel, crm, op2, f, v)) == Ok(sel)
  {
    var named := GatedIs(sel, crm, op2, f, v);
    SelectorParts(crm, op2);
    if named {
      if sel <= 18 {
        GatedCodeSelected(GatedHint(sel, crm, op2, f, v));
      } else {
        LaterCodeSelected(GatedHint(sel, crm, op2, f, v));
      }
    } else if crm == 6 && f(Feature.Pcdphint) {
      StashSelected(op2, v);
    } else if crm == 4 && op2 & 1 == 0 {
      BtiHintSelected(op2, v);
    } else {
      NumberedHint(sel, v);
    }
  }

  lemma PauthHintSelected(sel: bv32, v: Insn)
    requires IsPauthHint(sel)
    ensures HintSelector(v.Set(Code.HintGeneric).SetAlias(PauthHint(sel))) == Ok(sel)
  {
    var d := v.Set(Code.HintGeneric).SetAlias(PauthHint(sel));
    GenericDispatch(d);
    PauthSelected(d, sel);
  }

  lemma HintSelected(sel: bv32, crm: bv32, op2: bv32, f: Gate, v: Insn)
    requires crm <= 15 && op2 <= 7 && sel == (crm << 3) | op2
    ensures HintSelector(HintBy(sel, crm, op2, f, v)) == Ok(sel)
  {
    if IsPlainHint(sel) {
      PlainHintSelected(sel, v);
    } else if f(Feature.PAuth) && IsPauthHint(sel) {
      PauthHintSelected(sel, v);
    } else {
      GatedSelected(sel, crm, op2, f, v);
    }
  }

  lemma HintRoundTrip(s: SysFields, f: Gate, v: Insn)
    requires InRange(s) && !s.read && s.op0 == 0 && s.crn == 2 && v.IsInvalid() && !HintOf(s, f, v).IsInvalid()
    ensures EncHint(HintOf(s, f, v)) == Ok(SystemWordOf(s.(op1 := 3)))
  {
    HintNeverGated(s, f, v);
    SelectorParts(s.crm, s.op2);
    HintSelected((s.crm << 3) | s.op2, s.crm, s.op2, f, v);
  }

  // --- MSR (immediate), SMSTART and SMSTOP. ---

  lemma PstateInverts(op1: bv32, op2: bv32, crm: bv32)
    requires PstateField(op1, op2, crm).Some?
    ensures PstateSelector(PstateField(op1, op2, crm).value) == Some((op1, op2))
  {
  }

  lemma EncodesPstate(d: Insn, k: Keyword, n: U64, crm: bv32)
    requires d.code.MsrImm? && d.Op(0) == SysOp(k) && d.Op(1) == ImmUnsigned(n)
    requires PstateSelector(k).Some? && Low32(n) == crm && crm <= 15
    ensures EncMsrImm(d) == Ok(PstateWord(PstateSelector(k).value.0, PstateSelector(k).value.1, crm))
  {
  }

  lemma SmstartShape(crm: bv32, v: Insn)
    ensures var d := SmstartOf(crm, v);
            && d.code == (if crm & 1 != 0 then Code.Smstart else Code.Smstop)
            && d.Op(0) == if crm & 6 == 2 then SysOp(Keyword.Sm)
                          else if crm & 6 == 4 then SysOp(Keyword.ZaOption) else NoOperand
  {
  }

  lemma SmstartRoundTrip(crm: bv32, v: Insn)
    requires crm <= 15
    ensures EncMsrImm(SmstartOf(crm, v)) == Ok(PstateWord(3, 3, if crm & 6 == 0 then 6 | (crm & 1) else crm & 7))
  {
    SmstartShape(crm, v);
  }

  // The selectors no PSTATE name claims are generic moves.
  predicate IsPstateMove(s: SysFields) {
    !(s.op1 == 3 && s.op2 == 3) && !(s.op1 == 0 && s.op2 <= 2) && PstateField(s.op1, s.op2, s.crm).None?
  }

  lemma MsrImmediateIs(s: SysFields, v: Insn)
    requires s.rt == 31 && s.op0 == 0 && s.crn == 4 && !s.read && s.op2 <= 7
    ensures s.op1 == 3 && s.op2 == 3 ==> MsrImmediate(s, v) == SmstartOf(s.crm, v)
    ensures IsPstateMove(s) ==> MsrImmediate(s, v) == SysRegMove(s, v)
  {
  }

  lemma BarePstateIs(s: SysFields, v: Insn)
    requires s.rt == 31 && s.op1 == 0 && s.op2 <= 2
    ensures s.op2 == 0 ==> MsrImmediate(s, v) == v.Set(Code.Cfinv)
    ensures s.op2 == 1 ==> MsrImmediate(s, v) == v.Set(Code.Xaflag)
    ensures s.op2 == 2 ==> MsrImmediate(s, v) == v.Set(Code.Axflag)
  {
  }

  lemma BarePstateRoundTrip(s: SysFields, v: Insn)
    requires s.rt == 31 && s.op1 == 0 && s.op2 <= 2
    ensures EncMsrImm(MsrImmediate(s, v)) == Ok(PstateWord(0, s.op2, 0))
  {
    BarePstateIs(s, v);
  }

  lemma NamedPstateIs(s: SysFields, k: Keyword, n: U64, v: Insn)
    requires s.rt == 31 && PstateField(s.op1, s.op2, s.crm) == Some(k) && n == s.crm as int
    ensures MsrImmediate(s, v) == v.Set(Code.MsrImm).SetAlias(Mnemonic.Msr).Push(SysOp(k)).Push(ImmUnsigned(n))
  {
  }

  lemma NamedPstateShape(k: Keyword, n: U64, v: Insn)
    ensures var d := v.Set(Code.MsrImm).SetAlias(Mnemonic.Msr).Push(SysOp(k)).Push(ImmUnsigned(n));
            d.code.MsrImm? && d.Op(0) == SysOp(k) && d.Op(1) == ImmUnsigned(n)
  {
  }

  lemma NamedPstateRoundTrip(s: SysFields, v: Insn)
    requires InRange(s) && s.rt == 31 && PstateField(s.op1, s.op2, s.crm).Some?
    ensures EncMsrImm(MsrImmediate(s, v)) == Ok(PstateWord(s.op1, s.op2, s.crm))
  {
    var k := PstateField(s.op1, s.op2, s.crm).value;
    var n := Number7(s.crm);
    NamedPstateIs(s, k, n, v);
    NamedPstateShape(k, n, v);
    PstateInverts(s.op1, s.op2, s.crm);
    EncodesPstate(MsrImmediate(s, v), k, n, s.crm);
  }

  // --- MSR and MRS (register). ---

  lemma MoveWordIs(l: bv32, op0: bv32, op1: bv32, crn: bv32, crm: bv32, op2: bv32, rt: bv32)
    requires op0 <= 3 && op1 <= 7 && crn <= 15 && crm <= 15 && op2 <= 7
    ensures MoveWord(l, SysRegOf(op0, op1, crn, crm, op2), rt) == SystemWord(l, op0, op1, crn, crm, op2, rt)
  {
  }

  lemma EncodesMsr(d: Insn, r: Register, sr: bv32)
    requires d.code.MsrReg? && d.Op(0) == SysReg(sr) && d.Op(1) == Reg(r, PLAIN)
    ensures EncSysRegMove(d) == Ok(MoveWord(0, sr, Number(r)))
  {
  }

  lemma MrsRoundTrip(n: bv32, sr: bv32, v: Insn)
    requires n <= 31
    ensures EncSysRegMove(v.Set(Code.Mrs).Push(XReg(false, n)).Push(SysReg(sr))) == Ok(MoveWord(1, sr, n))
  {
    var r := XOperand(false, n);
    TwoOperands(Code.Mrs, Reg(r, PLAIN), SysReg(sr), v);
  }

  lemma MsrRoundTrip(n: bv32, sr: bv32, v: Insn)
    requires n <= 31
    ensures EncSysRegMove(v.Set(Code.MsrReg).Push(SysReg(sr)).Push(XReg(false, n))) == Ok(MoveWord(0, sr, n))
  {
    var r := XOperand(false, n);
    TwoOperands(Code.MsrReg, SysReg(sr), Reg(r, PLAIN), v);
    EncodesMsr(v.Set(Code.MsrReg).Push(SysReg(sr)).Push(Reg(r, PLAIN)), r, sr);
  }

  lemma MoveRoundTrip(s: SysFields, v: Insn)
    requires InRange(s)
    ensures EncSysRegMove(SysRegMove(s, v)) == Ok(SystemWordOf(s))
  {
    var sr := SysRegOf(s.op0, s.op1, s.crn, s.crm, s.op2);
    MoveWordIs(if s.read then 1 else 0, s.op0, s.op1, s.crn, s.crm, s.op2, s.rt);
    MrsRoundTrip(s.rt, sr, v);
    MsrRoundTrip(s.rt, sr, v);
  }

  // --- GCS stack maintenance. ---

  // The operand-less forms ignore Rt.
  function CanonicalGcs(s: SysFields, c: Code): SysFields {
    if c.Gcspushx? || c.Gcspopcx? || c.Gcspopx? then s.(rt := 31) else s
  }

  lemma EncodesPushx(d: Insn)
    ensures d.code.Gcspushx? ==> EncGcs(d) == Ok(SystemWord(0, 1, 0, 7, 7, 4, 31))
  {
  }

  lemma EncodesPopcx(d: Insn)
    ensures d.code.Gcspopcx? ==> EncGcs(d) == Ok(SystemWord(0, 1, 0, 7, 7, 5, 31))
  {
  }

  lemma EncodesPopx(d: Insn)
    ensures d.code.Gcspopx? ==> EncGcs(d) == Ok(SystemWord(0, 1, 0, 7, 7, 6, 31))
  {
  }

  lemma EncodesPushm(d: Insn, r: Register)
    requires |d.ops| == 1 && d.ops[0] == Reg(r, PLAIN)
    ensures d.code.Gcspushm? ==> EncGcs(d) == Ok(SystemWord(0, 1, 3, 7, 7, 0, Number(r)))
  {
  }

  lemma EncodesSs1(d: Insn, r: Register)
    requires |d.ops| == 1 && d.ops[0] == Reg(r, PLAIN)
    ensures d.code.Gcsss1? ==> EncGcs(d) == Ok(SystemWord(0, 1, 3, 7, 7, 2, Number(r)))
  {
  }

  lemma EncodesPopm(d: Insn, r: Register)
    requires |d.ops| == 1 && d.ops[0] == Reg(r, PLAIN)
    ensures d.code.Gcspopm? ==> EncGcs(d) == Ok(SystemWord(1, 1, 3, 7, 7, 1, Number(r)))
  {
  }

  lemma EncodesSs2(d: Insn, r: Register)
    requires |d.ops| == 1 && d.ops[0] == Reg(r, PLAIN)
    ensures d.code.Gcsss2? ==> EncGcs(d) == Ok(SystemWord(1, 1, 3, 7, 7, 3, Number(r)))
  {
  }

  lemma EncodesElidedGcs(d: Insn)
    requires d.code.Gcspopm? && d.ops == []
    ensures EncGcs(d) == Ok(SystemWord(1, 1, 3, 7, 7, 1, 31))
  {
  }

  lemma GcsIs(s: SysFields, c: Code, v: Insn)
    ensures GcsOf(s, c, v) == if c.Gcspushx? || c.Gcspopcx? || c.Gcspopx? || (c.Gcspopm? && s.rt == 31) then v.Set(c)
                              else v.Set(c).Push(XReg(false, s.rt))
  {
  }

  lemma BareGcsRoundTrip(c: Code, v: Insn)
    ensures c == Code.Gcspushx ==> EncGcs(v.Set(c)) == Ok(SystemWord(0, 1, 0, 7, 7, 4, 31))
    ensures c == Code.Gcspopcx ==> EncGcs(v.Set(c)) == Ok(SystemWord(0, 1, 0, 7, 7, 5, 31))
    ensures c == Code.Gcspopx ==> EncGcs(v.Set(c)) == Ok(SystemWord(0, 1, 0, 7, 7, 6, 31))
    ensures c == Code.Gcspopm ==> EncGcs(v.Set(c)) == Ok(SystemWord(1, 1, 3, 7, 7, 1, 31))
  {
    EncodesPushx(v.Set(c));
    EncodesPopcx(v.Set(c));
    EncodesPopx(v.Set(c));
    if c == Code.Gcspopm { EncodesElidedGcs(v.Set(c)); }
  }

  lemma RegGcsRoundTrip(c: Code, n: bv32, v: Insn)
    requires n <= 31
    ensures var d := v.Set(c).Push(XReg(false, n));
            && (c == Code.Gcspushm ==> EncGcs(d) == Ok(SystemWord(0, 1, 3, 7, 7, 0, n)))
            && (c == Code.Gcsss1 ==> EncGcs(d) == Ok(SystemWord(0, 1, 3, 7, 7, 2, n)))
            && (c == Code.Gcspopm ==> EncGcs(d) == Ok(SystemWord(1, 1, 3, 7, 7, 1, n)))
            && (c == Code.Gcsss2 ==> EncGcs(d) == Ok(SystemWord(1, 1, 3, 7, 7, 3, n)))
  {
    var r := XOperand(false, n);
    OneOperand(c, Reg(r, PLAIN), v);
    EncodesPushm(v.Set(c).Push(Reg(r, PLAIN)), r);
    EncodesSs1(v.Set(c).Push(Reg(r, PLAIN)), r);
    EncodesPopm(v.Set(c).Push(Reg(r, PLAIN)), r);
    EncodesSs2(v.Set(c).Push(Reg(r, PLAIN)), r);
  }

  lemma GcsFields(s: SysFields)
    requires GcsCode(s).Some?
    ensures s.crn == 7 && s.crm == 7
    ensures GcsCode(s) == Some(if s.read then (if s.op2 == 1 then Code.Gcspopm else Code.Gcsss2)
                               else if s.op1 == 0 then
                                 (if s.op2 == 4 then Code.Gcspushx
                                  else if s.op2 == 5 then Code.Gcspopcx else Code.Gcspopx)
                               else (if s.op2 == 0 then Code.Gcspushm else Code.Gcsss1))
    ensures if s.read then s.op1 == 3 && (s.op2 == 1 || s.op2 == 3)
            else if s.op1 == 0 then s.op2 == 4 || s.op2 == 5 || s.op2 == 6
            else s.op1 == 3 && (s.op2 == 0 || s.op2 == 2)
  {
  }

  lemma GcsRoundTrip(s: SysFields, v: Insn)
    requires InRange(s) && s.op0 == 1 && GcsCode(s).Some?
    ensures EncGcs(GcsOf(s, GcsCode(s).value, v)) == Ok(SystemWordOf(CanonicalGcs(s, GcsCode(s).value)))
  {
    var c := GcsCode(s).value;
    GcsFields(s);
    GcsIs(s, c, v);
    BareGcsRoundTrip(c, v);
    RegGcsRoundTrip(c, s.rt, v);
  }
}
