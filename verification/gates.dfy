/** Gate soundness: whatever the group decodes, the extension of its encoding is on.
    Only SMSTART and SMSTOP are decoded without theirs. */
module Gates {
  import opened Wrappers
  import opened Fields
  import opened Features
  import opened Isa
  import opened Instructions
  import opened BranchSpec
  import opened BranchEncode
  import opened BranchLaws
  import SystemLaws

  predicate CodeGated(c: Code, f: Gate) {
    c.Invalid? || c.Smstart? || c.Smstop? || f(FeatureOf(c))
  }

  // --- The extension of each family of encodings. ---

  predicate IsPauthCode(c: Code) {
    || c.Braaz? || c.Brabz? || c.Blraaz? || c.Blrabz?
    || c.Braa? || c.Brab? || c.Blraa? || c.Blrab?
    || c.Retaa? || c.Retab? || c.Eretaa? || c.Eretab?
  }

  lemma PauthFeature(c: Code)
    requires IsPauthCode(c)
    ensures FeatureOf(c) == Feature.PAuth
  {
  }

  predicate IsSppcCode(c: Code) {
    c.Retaasppc? || c.Retabsppc? || c.Retaasppcr? || c.Retabsppcr?
  }

  lemma SppcFeature(c: Code)
    requires IsSppcCode(c)
    ensures FeatureOf(c) == Feature.PauthLr
  {
  }

  lemma CmpbrFeature(c: Code)
    requires IsCmpbr(c)
    ensures FeatureOf(c) == Feature.Cmpbr
  {
  }

  lemma TmeFeature(c: Code)
    requires c.Tcancel? || c.Tcommit? || c.Tstart? || c.Ttest?
    ensures FeatureOf(c) == Feature.Tme
  {
  }

  lemma TchangeFeature(c: Code)
    requires IsTchange(c)
    ensures FeatureOf(c) == Feature.Tchange
  {
  }

  lemma PairFeature(c: Code)
    requires c.Mrrs? || c.Msrr? || c.Sysp?
    ensures FeatureOf(c) == Feature.D128
  {
  }

  lemma WfxtFeature(c: Code)
    requires c.Wfet? || c.Wfit?
    ensures FeatureOf(c) == Feature.Wfxt
  {
  }

  lemma GcsBareFeature(c: Code)
    requires c.Gcspushx? || c.Gcspopx? || c.Gcspopcx?
    ensures FeatureOf(c) == Feature.Gcs
  {
  }

  lemma GcsRegFeature(c: Code)
    requires c.Gcspushm? || c.Gcspopm?
    ensures FeatureOf(c) == Feature.Gcs
  {
  }

  lemma GcsSwitchFeature(c: Code)
    requires c.Gcsss1? || c.Gcsss2?
    ensures FeatureOf(c) == Feature.Gcs
  {
  }

  lemma HintFeatures(c: Code)
    ensures c.Dgh? ==> FeatureOf(c) == Feature.Dgh
    ensures c.Tsb? ==> FeatureOf(c) == Feature.Trf
    ensures c.Gcsb? ==> FeatureOf(c) == Feature.Gcs
  {
  }

  lemma MoreHintFeatures(c: Code)
    ensures c.Clrbhb? ==> FeatureOf(c) == Feature.Clrbhb
    ensures c.Chkfeat? ==> FeatureOf(c) == Feature.Chk
  {
  }

  lemma OtherFeatures(c: Code)
    ensures c.Tenter? ==> FeatureOf(c) == Feature.Tev
    ensures c.BcCond? ==> FeatureOf(c) == Feature.Hbc
  {
  }

  lemma StashFeature(c: Code)
    requires c.Shuh? || c.Stshh? || c.Stcph?
    ensures FeatureOf(c) == Feature.Pcdphint
  {
  }

  // The encodings of the base instruction set.
  predicate IsPlainBranch(c: Code) {
    c.Br? || c.Blr? || c.Ret? || c.Eret? || c.Drps?
  }

  lemma PlainBranchFeature(c: Code)
    requires IsPlainBranch(c)
    ensures FeatureOf(c) == Feature.Base
  {
  }

  predicate IsImmBranch(c: Code) {
    || c.BCond? || c.BUncond? || c.BlImm?
    || c.Cbz32? || c.Cbz64? || c.Cbnz32? || c.Cbnz64? || c.Tbz? || c.Tbnz?
  }

  lemma ImmBranchFeature(c: Code)
    requires IsImmBranch(c)
    ensures FeatureOf(c) == Feature.Base
  {
    if c.Cbz32? || c.Cbz64? || c.Cbnz32? || c.Cbnz64? { CompareFeature(c); }
  }

  lemma CompareFeature(c: Code)
    requires c.Cbz32? || c.Cbz64? || c.Cbnz32? || c.Cbnz64?
    ensures FeatureOf(c) == Feature.Base
  {
  }

  predicate IsBaseException(c: Code) {
    || c.Svc? || c.Hvc? || c.Smc? || c.Brk? || c.Hlt?
    || c.Dcps1? || c.Dcps2? || c.Dcps3?
  }

  lemma BaseExceptionFeature(c: Code)
    requires IsBaseException(c)
    ensures FeatureOf(c) == Feature.Base
  {
    if c.Svc? || c.Hvc? || c.Smc? || c.Brk? { BaseCallFeature(c); }
  }

  lemma BaseCallFeature(c: Code)
    requires c.Svc? || c.Hvc? || c.Smc? || c.Brk?
    ensures FeatureOf(c) == Feature.Base
  {
  }

  predicate IsBaseHint(c: Code) {
    || c.Nop? || c.Yield? || c.Wfe? || c.Wfi? || c.Sev? || c.Sevl?
    || c.Esb? || c.Csdb? || c.Psb? || c.Bti? || c.HintGeneric?
  }

  lemma BaseHintFeature(c: Code)
    requires IsBaseHint(c)
    ensures FeatureOf(c) == Feature.Base
  {
    if c.Nop? || c.Yield? || c.Wfe? || c.Wfi? {
      WaitFeature(c);
    } else if c.Sev? || c.Sevl? || c.Esb? || c.Csdb? {
      EventFeature(c);
    }
  }

  lemma WaitFeature(c: Code)
    requires c.Nop? || c.Yield? || c.Wfe? || c.Wfi?
    ensures FeatureOf(c) == Feature.Base
  {
  }

  lemma EventFeature(c: Code)
    requires c.Sev? || c.Sevl? || c.Esb? || c.Csdb?
    ensures FeatureOf(c) == Feature.Base
  {
  }

  predicate IsBaseSystem(c: Code) {
    || c.Clrex? || c.Dmb? || c.Dsb? || c.Isb? || c.Sb?
    || c.Cfinv? || c.Xaflag? || c.Axflag? || c.MsrImm?
  }

  lemma BaseSystemFeature(c: Code)
    requires IsBaseSystem(c)
    ensures FeatureOf(c) == Feature.Base
  {
    if c.Cfinv? || c.Xaflag? || c.Axflag? || c.MsrImm? {
      BaseStateFeature(c);
    } else if c.Clrex? || c.Dmb? || c.Dsb? {
      BaseBarrierFeature(c);
    }
  }

  lemma BaseStateFeature(c: Code)
    requires c.Cfinv? || c.Xaflag? || c.Axflag? || c.MsrImm?
    ensures FeatureOf(c) == Feature.Base
  {
  }

  lemma BaseBarrierFeature(c: Code)
    requires c.Clrex? || c.Dmb? || c.Dsb?
    ensures FeatureOf(c) == Feature.Base
  {
  }

  lemma BaseMoveFeature(c: Code)
    requires c.MsrReg? || c.Mrs? || c.Sys? || c.Sysl?
    ensures FeatureOf(c) == Feature.Base
  {
  }

  // --- Class by class. ---

  function PlainCode(opc: bv32): Code {
    if opc == 0 then Code.Br
    else if opc == 1 then Code.Blr
    else if opc == 2 then Code.Ret
    else if opc == 4 then Code.Eret
    else Code.Drps
  }

  lemma PlainCodes(opc: bv32, rn: bv32, v: Insn)
    requires v.IsInvalid()
    ensures var d := PlainBranch(opc, rn, v); d.IsInvalid() || d.code == PlainCode(opc)
  {
  }

  lemma PlainFamily(opc: bv32)
    ensures IsPlainBranch(PlainCode(opc))
  {
  }

  lemma SignedReturnCodes(keyA: bool, rn: bv32, op4: bv32, f: Gate, v: Insn)
    requires v.IsInvalid()
    ensures var d := SignedReturn(keyA, rn, op4, f, v);
            d.IsInvalid() || (f(Feature.PAuth) && IsPauthCode(d.code)) || (f(Feature.PauthLr) && IsSppcCode(d.code))
  {
  }

  lemma SignedCodes(opc: bv32, keyA: bool, rn: bv32, op4: bv32, f: Gate, v: Insn)
    requires v.IsInvalid() && opc != 2
    ensures var d := SignedBranch(opc, keyA, rn, op4, f, v); d.IsInvalid() || (f(Feature.PAuth) && IsPauthCode(d.code))
  {
  }

  lemma PlainGated(opc: bv32, rn: bv32, f: Gate, v: Insn)
    requires v.IsInvalid() && f(Feature.Base)
    ensures CodeGated(PlainBranch(opc, rn, v).code, f)
  {
    var c := PlainBranch(opc, rn, v).code;
    PlainCodes(opc, rn, v);
    PlainFamily(opc);
    if IsPlainBranch(c) { PlainBranchFeature(c); }
  }

  lemma SignedGated(opc: bv32, keyA: bool, rn: bv32, op4: bv32, f: Gate, v: Insn)
    requires v.IsInvalid()
    ensures CodeGated(SignedBranch(opc, keyA, rn, op4, f, v).code, f)
  {
    var c := SignedBranch(opc, keyA, rn, op4, f, v).code;
    if opc == 2 { SignedReturnCodes(keyA, rn, op4, f, v); } else { SignedCodes(opc, keyA, rn, op4, f, v); }
    if IsPauthCode(c) { PauthFeature(c); }
    if IsSppcCode(c) { SppcFeature(c); }
  }

  lemma RegBranchGated(word: bv32, f: Gate, v: Insn)
    requires v.IsInvalid() && f(Feature.Base)
    ensures CodeGated(UncondBranchReg(word, f, v).code, f)
  {
    var opc, op3, rn, op4 := Bits(word, 21, 4), Bits(word, 10, 6), Bits(word, 5, 5), Bits(word, 0, 5);
    RegBranchIs(word, opc, op3, rn, op4, f, v);
    RegBranchByGated(opc, op3, rn, op4, f, v);
  }

  lemma RegBranchIs(word: bv32, opc: bv32, op3: bv32, rn: bv32, op4: bv32, f: Gate, v: Insn)
    requires opc == Bits(word, 21, 4) && op3 == Bits(word, 10, 6) && rn == Bits(word, 5, 5) && op4 == Bits(word, 0, 5)
    ensures UncondBranchReg(word, f, v) == v || UncondBranchReg(word, f, v) == RegBranchBy(opc, op3, rn, op4, f, v)
  {
  }

  lemma RegBranchByGated(opc: bv32, op3: bv32, rn: bv32, op4: bv32, f: Gate, v: Insn)
    requires v.IsInvalid() && f(Feature.Base)
    ensures CodeGated(RegBranchBy(opc, op3, rn, op4, f, v).code, f)
  {
    if op3 == 0 {
      PlainGated(opc, rn, f, v);
    } else {
      SignedGated(opc, op3 == 2, rn, op4, f, v);
    }
  }

  lemma CondCodes(word: bv32, f: Gate, v: Insn)
    requires v.IsInvalid()
    ensures var d := CondBranch(word, f, v);
            d.IsInvalid() || d.code.BCond? || (f(Feature.Hbc) && d.code.BcCond?)
            || (f(Feature.PauthLr) && IsSppcCode(d.code))
  {
  }

  lemma CondGated(word: bv32, f: Gate, v: Insn)
    requires v.IsInvalid() && f(Feature.Base)
    ensures CodeGated(CondBranch(word, f, v).code, f)
  {
    var c := CondBranch(word, f, v).code;
    CondCodes(word, f, v);
    OtherFeatures(c);
    if c.BCond? { ImmBranchFeature(c); }
    if IsSppcCode(c) { SppcFeature(c); }
  }

  lemma CmpbrForms(word: bv32, v: Insn)
    requires v.IsInvalid()
    ensures var d, c := CmpbrReg(word, v), CmpbrRegCode(Bits(word, 14, 2), Bits(word, 21, 3));
            d.IsInvalid() || (c.Some? && d.code == c.value)
    ensures var d, c := CmpbrImm(word, v), CmpbrImmCode(Bits(word, 21, 3));
            d.IsInvalid() || (c.Some? && d.code == c.value)
  {
  }

  lemma CmpbrCodes(word: bv32, v: Insn)
    requires v.IsInvalid()
    ensures CmpbrReg(word, v).IsInvalid() || IsCmpbr(CmpbrReg(word, v).code)
    ensures CmpbrImm(word, v).IsInvalid() || IsCmpbr(CmpbrImm(word, v).code)
  {
    CmpbrForms(word, v);
    CmpbrRegCodeInverts(Bits(word, 14, 2), Bits(word, 21, 3));
    CmpbrImmCodeInverts(Bits(word, 21, 3));
  }

  lemma CmpbrGated(word: bv32, f: Gate, v: Insn)
    requires v.IsInvalid()
    ensures CodeGated(CmpbrOf(word, f, v).code, f)
  {
    var c := CmpbrOf(word, f, v).code;
    CmpbrCodes(word, v);
    if IsCmpbr(c) { CmpbrFeature(c); }
  }

  lemma JumpGated(c: BranchSpec.Class, word: bv32, f: Gate, v: Insn)
    requires v.IsInvalid() && f(Feature.Base)
    ensures CodeGated(Jump(c, word, f, v).code, f)
  {
    match c
    case RegBranch => RegBranchGated(word, f, v);
    case CondBlock => CondGated(word, f, v);
    case _ => OtherJumpGated(c, word, f, v);
  }

  lemma OtherJumpGated(c: BranchSpec.Class, word: bv32, f: Gate, v: Insn)
    requires v.IsInvalid() && f(Feature.Base) && c != RegBranch && c != CondBlock
    ensures CodeGated(Jump(c, word, f, v).code, f)
  {
    if c.CmpbrBlock? {
      CmpbrGated(word, f, v);
    } else {
      ImmBranchGated(word, f, v);
    }
  }

  lemma ImmBranchGated(word: bv32, f: Gate, v: Insn)
    requires f(Feature.Base)
    ensures CodeGated(UncondBranchImm(word, v).code, f) && CodeGated(CompareBranch(word, v).code, f)
    ensures CodeGated(TestBranch(word, v).code, f)
  {
    ImmBranchFeature(UncondBranchImm(word, v).code);
    ImmBranchFeature(CompareBranch(word, v).code);
    ImmBranchFeature(TestBranch(word, v).code);
  }

  lemma ExceptionCodes(opc: bv32, ll: bv32, imm16: bv32, f: Gate, v: Insn)
    requires v.IsInvalid()
    ensures var d := ExceptionBy(opc, ll, imm16, f, v);
            d.IsInvalid() || IsBaseException(d.code) || (f(Feature.Tme) && d.code.Tcancel?)
            || (f(Feature.Tev) && d.code.Tenter?)
  {
  }

  lemma ExceptionGated(word: bv32, f: Gate, v: Insn)
    requires v.IsInvalid() && f(Feature.Base)
    ensures CodeGated(ExceptionGen(word, f, v).code, f)
  {
    var c := ExceptionGen(word, f, v).code;
    ExceptionCodes(Bits(word, 21, 3), Bits(word, 0, 2), Bits(word, 5, 16), f, v);
    OtherFeatures(c);
    if IsBaseException(c) { BaseExceptionFeature(c); }
    if c.Tcancel? { TmeFeature(c); }
  }

  lemma TchangeCodes(word: bv32, f: Gate, v: Insn)
    requires v.IsInvalid()
    ensures var d := TchangeOf(word, f, v); d.IsInvalid() || (f(Feature.Tchange) && IsTchange(d.code))
  {
    TchangeRegFamily(TchangeOf(word, f, v).code);
    TchangeImmFamily(TchangeOf(word, f, v).code);
  }

  lemma TchangeGated(word: bv32, f: Gate, v: Insn)
    requires v.IsInvalid()
    ensures CodeGated(TchangeOf(word, f, v).code, f)
  {
    var c := TchangeOf(word, f, v).code;
    TchangeCodes(word, f, v);
    if IsTchange(c) { TchangeFeature(c); }
  }

  // --- The system block. ---

  lemma PairCodes(word: bv32, f: Gate, table: SysTable, v: Insn)
    requires v.IsInvalid()
    ensures var d := SystemPair(word, f, table, v);
            d.IsInvalid()
            || (f(Feature.D128) && (d.code.Mrrs? || d.code.Msrr? || d.code.Sysp?))
  {
    SyspCodes(FieldsOf(word), table, v);
  }

  lemma SyspCodes(s: SysFields, table: SysTable, v: Insn)
    requires v.IsInvalid()
    ensures var d := SyspOf(s, table, v); d.IsInvalid() || d.code.Sysp?
  {
    var d, b := SyspOf(s, table, v), v.Set(Code.Sysp);
    var entry := table(false, s.op1, s.crn, s.crm, s.op2);
    if entry.Some? && entry.value.mnem == Mnemonic.Tlbi {
      assert d == v || d == TlbipOf(s, entry.value, v);
    } else {
      assert d == v || d == WithSysFields(s, b) || d == WithSysFields(s, b).Push(RegPairOf(s.rt));
      SyspFormCode(s, b);
    }
  }

  lemma SyspFormCode(s: SysFields, v: Insn)
    ensures WithSysFields(s, v).code == v.code && WithSysFields(s, v).Push(RegPairOf(s.rt)).code == v.code
  {
    SysFieldsCode(s, v);
  }

  lemma SysFieldsCode(s: SysFields, v: Insn)
    ensures WithSysFields(s, v).code == v.code
  {
  }

  lemma PairGated(word: bv32, f: Gate, table: SysTable, v: Insn)
    requires v.IsInvalid()
    ensures CodeGated(SystemPair(word, f, table, v).code, f)
  {
    var c := SystemPair(word, f, table, v).code;
    PairCodes(word, f, table, v);
    if !c.Invalid? { PairFeature(c); }
  }

  lemma SysCodes(s: SysFields, f: Gate, table: SysTable, v: Insn)
    requires GcsCode(s).None? || !f(Feature.Gcs) || RctxAlias(s).Some?
    ensures SysOf(s, f, table, v).code == Code.Sys || SysOf(s, f, table, v).code == Code.Sysl
  {
  }

  lemma GcsCodeFeature(s: SysFields)
    requires GcsCode(s).Some?
    ensures FeatureOf(GcsCode(s).value) == Feature.Gcs
  {
    var c := GcsCode(s).value;
    GcsFamily(s);
    if c.Gcspushx? || c.Gcspopx? || c.Gcspopcx? {
      GcsBareFeature(c);
    } else if c.Gcspushm? || c.Gcspopm? {
      GcsRegFeature(c);
    } else {
      GcsSwitchFeature(c);
    }
  }

  lemma GcsFamily(s: SysFields)
    requires GcsCode(s).Some?
    ensures var c := GcsCode(s).value;
            || c.Gcspushx? || c.Gcspopx? || c.Gcspopcx?
            || c.Gcspushm? || c.Gcspopm? || c.Gcsss1? || c.Gcsss2?
  {
  }

  lemma SysGated(s: SysFields, f: Gate, table: SysTable, v: Insn)
    requires f(Feature.Base)
    ensures CodeGated(SysOf(s, f, table, v).code, f)
  {
    if GcsCode(s).Some? && f(Feature.Gcs) && RctxAlias(s).None? {
      GcsCodeFeature(s);
    } else {
      SysCodes(s, f, table, v);
      BaseMoveFeature(SysOf(s, f, table, v).code);
    }
  }

  lemma MoveGated(s: SysFields, f: Gate, v: Insn)
    requires f(Feature.Base)
    ensures CodeGated(SysRegMove(s, v).code, f)
  {
    MoveCodes(s, v);
    BaseMoveFeature(SysRegMove(s, v).code);
  }

  lemma MoveCodes(s: SysFields, v: Insn)
    ensures SysRegMove(s, v).code == if s.read then Code.Mrs else Code.MsrReg
  {
  }

  lemma TimedCodes(s: SysFields, f: Gate, v: Insn)
    requires v.IsInvalid()
    ensures var d := SystemResult(s, f, v);
            d.IsInvalid() || (f(Feature.Tme) && (d.code.Tstart? || d.code.Ttest?))
    ensures var d := WfxtOf(s, f, v);
            d.IsInvalid() || (f(Feature.Wfxt) && (d.code.Wfet? || d.code.Wfit?))
  {
  }

  lemma BarrierCodes(s: SysFields, f: Gate, v: Insn)
    requires v.IsInvalid() && s.op2 != 3
    ensures var d := BarrierOf(s, f, v);
            || d.IsInvalid() || d.code.Dsb? || d.code.Dmb?
            || d.code == (if s.op2 == 2 then Code.Clrex else if s.op2 == 6 then Code.Isb else Code.Sb)
  {
    if s.op2 == 2 || s.op2 == 6 {
      OptionalCodes(s, f, v);
    } else if s.op2 == 1 || s.op2 == 5 {
      DataBarrierCodes(s, f, v);
    } else {
      LastBarrierCodes(s, f, v);
    }
  }

  lemma LastBarrierCodes(s: SysFields, f: Gate, v: Insn)
    requires s.op2 != 1 && s.op2 != 2 && s.op2 != 3 && s.op2 != 5 && s.op2 != 6
    ensures var d := BarrierOf(s, f, v); d == v || d.code.Dsb? || d.code.Sb?
  {
  }

  lemma OptionalCodes(s: SysFields, f: Gate, v: Insn)
    requires s.op2 == 2 || s.op2 == 6
    ensures var d := BarrierOf(s, f, v); d == v || d.code == if s.op2 == 2 then Code.Clrex else Code.Isb
  {
    OptionalIs(s, f, v);
    UnlessDefaultCode(v.Set(Code.Clrex), s.crm);
    UnlessDefaultCode(v.Set(Code.Isb), s.crm);
  }

  lemma OptionalIs(s: SysFields, f: Gate, v: Insn)
    requires s.op2 == 2 || s.op2 == 6
    ensures BarrierOf(s, f, v) == if s.rt != 31 then v
                                  else UnlessDefault(v.Set(if s.op2 == 2 then Code.Clrex else Code.Isb), s.crm)
  {
  }

  lemma DataBarrierCodes(s: SysFields, f: Gate, v: Insn)
    requires s.op2 == 1 || s.op2 == 5
    ensures var d := BarrierOf(s, f, v); d == v || d.code.Dsb? || d.code.Dmb?
  {
  }

  lemma UnlessDefaultCode(v: Insn, crm: bv32)
    ensures UnlessDefault(v, crm).code == v.code
  {
  }

  lemma BarrierFamily(op2: bv32)
    ensures IsBaseSystem(Code.Dsb) && IsBaseSystem(Code.Dmb)
    ensures IsBaseSystem(if op2 == 2 then Code.Clrex else if op2 == 6 then Code.Isb else Code.Sb)
  {
  }

  lemma BarrierGated(s: SysFields, f: Gate, v: Insn)
    requires v.IsInvalid() && f(Feature.Base)
    ensures CodeGated(BarrierOf(s, f, v).code, f)
  {
    var c := BarrierOf(s, f, v).code;
    if s.op2 == 3 {
      if c.Tcommit? { TmeFeature(c); }
    } else {
      BarrierCodes(s, f, v);
      BarrierFamily(s.op2);
      if IsBaseSystem(c) { BaseSystemFeature(c); }
    }
  }

  lemma StashCodes(op2: bv32, v: Insn)
    ensures var c := StashHint(op2, v).code; c.Shuh? || c.Stshh? || c.Stcph?
  {
  }

  lemma GatedHintCodes(sel: bv32, crm: bv32, op2: bv32, f: Gate, v: Insn)
    requires !(crm == 6 && f(Feature.Pcdphint))
    ensures var c := GatedHint(sel, crm, op2, f, v).code;
            || IsBaseHint(c) || (f(Feature.Dgh) && c.Dgh?) || (f(Feature.Trf) && c.Tsb?)
            || (f(Feature.Gcs) && c.Gcsb?) || (f(Feature.Clrbhb) && c.Clrbhb?)
            || (f(Feature.Chk) && c.Chkfeat?)
  {
  }

  lemma HintGated(sel: bv32, crm: bv32, op2: bv32, f: Gate, v: Insn)
    requires f(Feature.Base)
    ensures CodeGated(HintBy(sel, crm, op2, f, v).code, f)
  {
    var c := HintBy(sel, crm, op2, f, v).code;
    if IsPlainHint(sel) {
      BaseHintFeature(c);
    } else if f(Feature.PAuth) && IsPauthHint(sel) {
      BaseHintFeature(c);
    } else {
      OtherHintGated(sel, crm, op2, f, v);
    }
  }

  lemma OtherHintGated(sel: bv32, crm: bv32, op2: bv32, f: Gate, v: Insn)
    requires f(Feature.Base)
    ensures CodeGated(GatedHint(sel, crm, op2, f, v).code, f)
  {
    var c := GatedHint(sel, crm, op2, f, v).code;
    HintFeatures(c);
    MoreHintFeatures(c);
    if crm == 6 && f(Feature.Pcdphint) {
      StashOrNamed(sel, crm, op2, f, v);
      GatedHintCodes(sel, 0, 1, f, v);
      if c == StashHint(op2, v).code {
        StashCodes(op2, v);
        StashFeature(c);
      }
    } else {
      GatedHintCodes(sel, crm, op2, f, v);
    }
    if IsBaseHint(c) { BaseHintFeature(c); }
  }

  // In that cluster a hint is one of its own or, named before, one of any other.
  lemma StashOrNamed(sel: bv32, crm: bv32, op2: bv32, f: Gate, v: Insn)
    requires crm == 6 && f(Feature.Pcdphint)
    ensures var d := GatedHint(sel, crm, op2, f, v); d == StashHint(op2, v) || d == GatedHint(sel, 0, 1, f, v)
  {
  }

  lemma PstateGated(s: SysFields, f: Gate, v: Insn)
    requires v.IsInvalid() && f(Feature.Base)
    ensures CodeGated(MsrImmediate(s, v).code, f)
  {
    var c := MsrImmediate(s, v).code;
    if IsBaseSystem(c) { BaseSystemFeature(c); }
    if c.MsrReg? { BaseMoveFeature(c); }
  }

  lemma NamedGated(s: SysFields, f: Gate, v: Insn)
    requires v.IsInvalid() && f(Feature.Base)
    ensures CodeGated(Op0Named(s, f, v).code, f)
  {
    var c := Op0Named(s, f, v).code;
    if s.read {
      TimedCodes(s, f, v);
      if !c.Invalid? { TmeFeature(c); }
    } else if s.crn == 4 {
      PstateGated(s, f, v);
    } else if s.crn == 2 {
      HintGated((s.crm << 3) | s.op2, s.crm, s.op2, f, v);
    } else if s.crn == 3 {
      BarrierGated(s, f, v);
    } else if s.crn == 1 {
      TimedCodes(s, f, v);
      if !c.Invalid? { WfxtFeature(c); }
    }
  }

  lemma SystemGated(word: bv32, f: Gate, table: SysTable, v: Insn)
    requires v.IsInvalid() && f(Feature.Base)
    ensures CodeGated(System(word, f, table, v).code, f)
  {
    var s := FieldsOf(word);
    if s.op0 == 0 {
      if Unallocated(s) { MoveGated(s, f, v); } else { NamedGated(s, f, v); }
    } else if s.op0 == 1 {
      SysGated(s, f, table, v);
    } else {
      MoveGated(s, f, v);
    }
  }

  lemma ClassGated(c: BranchSpec.Class, word: bv32, f: Gate, table: SysTable, v: Insn)
    requires v.IsInvalid() && f(Feature.Base)
    ensures CodeGated(BranchIn(c, word, f, table, v).code, f)
  {
    match c
    case Exceptions => ExceptionGated(word, f, v);
    case SystemBlock => SystemGated(word, f, table, v);
    case PairBlock => PairGated(word, f, table, v);
    case TchangeBlock => TchangeGated(word, f, v);
    case Outside =>
    case _ => JumpGated(c, word, f, v);
  }

  // Every word, every gate that has the base set.
  lemma GateSoundness(word: bv32, f: Gate, table: SysTable, v: Insn)
    requires v.IsInvalid() && f(Feature.Base)
    ensures var d := Branch(word, f, table, v);
            d.IsInvalid() || d.code.Smstart? || d.code.Smstop? || f(FeatureOf(d.code))
  {
    ClassGated(ClassOf(word), word, f, table, v);
  }
}
