/** The scalar flags of the access report, exactly: for every word decoded here, which
    fields of the word make the report say that NZCV is read or written, and which words
    make it say otherwise than the Arm ARM does. */
module FlagReport {
  import opened Wrappers
  import opened Ints
  import opened Fields
  import opened Features
  import opened Isa
  import opened Instructions
  import opened BranchSpec
  import opened BranchEncode
  import opened BranchValidity
  import opened Implicit
  import opened Info
  import opened DecodedInfo
  import opened Encoding
  import BranchLaws
  import RoundTrip
  import Retarget
  import SystemLaws
  import Gates
  import CanonicalForm
  import Apple
  import DecodeTree

  // --- By mnemonic. ---

  // The fused compare-and-branch forms.
  predicate IsFused(m: Mnemonic) { IsCmpbr(OwnerOf(m)) }

  // The mnemonics that make the report say that the flags are read, and those that make
  // it say that they are written.
  predicate NameReads(m: Mnemonic) { IsFused(m) || MnemonicReadsFlags(m) }

  predicate NameWrites(m: Mnemonic) { !FlagEffectFor(m).NoFlags? }

  lemma {:induction false} NoCondition(ops: seq<Operand>)
    requires forall i | 0 <= i < |ops| :: Simple(ops[i])
    ensures FirstCond(ops).None?
  {
    if ops != [] {
      assert forall i | 0 <= i < |ops[1..]| :: ops[1..][i] == ops[i + 1];
      NoCondition(ops[1..]);
    }
  }

  lemma ByName(d: Insn)
    requires AllSimple(d)
    ensures ReadsNzcv(d) <==> NameReads(d.mnemonic)
    ensures WritesFlags(d) <==> NameWrites(d.mnemonic)
  {
    NoCondition(d.ops);
  }

  // The names of one kind or the other.
  predicate NamesFlags(m: Mnemonic) { NameReads(m) || NameWrites(m) }

  // --- By encoding. ---

  // The encodings of these groups that name neither a fused compare nor a flag operation.
  predicate Quiet(c: Code) { !IsCmpbr(c) && !IsFlagOp(c) && !c.OtherCode? }

  lemma QuietIsSilent(c: Code)
    requires Quiet(c)
    ensures !NamesFlags(MnemonicOf(c))
  {
  }

  lemma BranchRegQuiet(d: Insn)
    requires EncBranchReg(d) != Err(Unsupported)
    ensures Quiet(d.code)
  {
  }

  lemma ExceptionQuiet(c: Code)
    requires IsExceptionCode(c)
    ensures Quiet(c)
  {
  }

  lemma HintQuiet(d: Insn)
    requires HintSelector(d) != Err(Unsupported)
    ensures Quiet(d.code)
  {
  }

  lemma BarrierQuiet(d: Insn)
    requires EncBarrier(d) != Err(Unsupported)
    ensures Quiet(d.code)
  {
  }

  lemma GcsQuiet(d: Insn)
    requires EncGcs(d) != Err(Unsupported)
    ensures Quiet(d.code)
  {
  }

  lemma TchangeQuiet(c: Code)
    requires IsTchange(c)
    ensures Quiet(c)
  {
  }

  lemma MoveQuiet(c: Code)
    requires IsMoveCode(c) || IsSysCode(c) || IsPairCode(c)
    ensures Quiet(c)
  {
  }

  // --- Class by class: what a decoded instruction is called. ---

  // An undecoded value, as the decoder starts from.
  predicate Blank(v: Insn) { v.IsInvalid() && v.mnemonic == Own(Code.Invalid) && v.ops == [] }

  // Called by the default name of its encoding.
  predicate ByCode(d: Insn) { d.mnemonic == MnemonicOf(d.code) }

  lemma BlankName(v: Insn)
    requires Blank(v)
    ensures ByCode(v) && Quiet(v.code)
  {
  }

  lemma RegBranchTop(word: bv32)
    requires ClassOf(word).RegBranch?
    ensures word & 0xfe00_0000 == 0xd600_0000
  {
  }

  lemma RegBranchSilent(word: bv32, f: Gate, v: Insn)
    requires ClassOf(word).RegBranch? && Blank(v)
    ensures !NamesFlags(UncondBranchReg(word, f, v).mnemonic)
  {
    var d := UncondBranchReg(word, f, v);
    RegBranchTop(word);
    BlankName(v);
    RegBranchByCode(word, f, v);
    if !d.IsInvalid() {
      BranchLaws.RegBranchRoundTrip(word, f, v);
      BranchRegQuiet(d);
    }
    QuietIsSilent(d.code);
  }

  lemma RegBranchByCode(word: bv32, f: Gate, v: Insn)
    requires ByCode(v)
    ensures ByCode(UncondBranchReg(word, f, v))
  {
    var opc, op3, rn, op4 := Bits(word, 21, 4), Bits(word, 10, 6), Bits(word, 5, 5), Bits(word, 0, 5);
    Gates.RegBranchIs(word, opc, op3, rn, op4, f, v);
    PlainByCode(opc, rn, v);
    SignedByCode(opc, op3 == 2, rn, op4, f, v);
  }

  lemma PlainByCode(opc: bv32, rn: bv32, v: Insn)
    requires ByCode(v)
    ensures ByCode(PlainBranch(opc, rn, v))
  {
  }

  lemma SignedByCode(opc: bv32, keyA: bool, rn: bv32, op4: bv32, f: Gate, v: Insn)
    requires ByCode(v)
    ensures ByCode(SignedBranch(opc, keyA, rn, op4, f, v))
  {
  }

  lemma ExceptionByCode(opc: bv32, ll: bv32, imm16: bv32, f: Gate, v: Insn)
    requires ByCode(v)
    ensures ByCode(ExceptionBy(opc, ll, imm16, f, v))
  {
  }

  lemma ExceptionSilent(opc: bv32, ll: bv32, imm16: bv32, f: Gate, v: Insn)
    requires Blank(v)
    ensures !NamesFlags(ExceptionBy(opc, ll, imm16, f, v).mnemonic)
  {
    var d := ExceptionBy(opc, ll, imm16, f, v);
    BlankName(v);
    ExceptionByCode(opc, ll, imm16, f, v);
    RoundTrip.ExceptionCodes(opc, ll, imm16, f, v);
    if IsExceptionCode(d.code) { ExceptionQuiet(d.code); }
    QuietIsSilent(d.code);
  }

  lemma TchangeByCode(word: bv32, f: Gate, v: Insn)
    requires ByCode(v)
    ensures ByCode(TchangeOf(word, f, v))
  {
  }

  lemma TchangeSilent(word: bv32, f: Gate, v: Insn)
    requires Blank(v)
    ensures !NamesFlags(TchangeOf(word, f, v).mnemonic)
  {
    var d := TchangeOf(word, f, v);
    BlankName(v);
    TchangeByCode(word, f, v);
    Gates.TchangeCodes(word, f, v);
    if IsTchange(d.code) { TchangeQuiet(d.code); }
    QuietIsSilent(d.code);
  }

  // A hint is called by its encoding, or by the alias its number selects.
  lemma HintNamed(sel: bv32, crm: bv32, op2: bv32, f: Gate, v: Insn)
    ensures var d := HintBy(sel, crm, op2, f, v); ByCode(d) || d.code == Code.HintGeneric
  {
  }

  lemma SelectorSilent(d: Insn)
    requires GenericSelector(d).Ok?
    ensures !NamesFlags(d.mnemonic)
  {
  }

  lemma HintSilent(s: SysFields, f: Gate, v: Insn)
    requires SystemLaws.InRange(s) && !s.read && s.op0 == 0 && s.crn == 2 && Blank(v)
    ensures !NamesFlags(HintOf(s, f, v).mnemonic)
  {
    var d := HintOf(s, f, v);
    BlankName(v);
    if s.rt != 31 {
      QuietIsSilent(v.code);
    } else {
      HintNamed((s.crm << 3) | s.op2, s.crm, s.op2, f, v);
      HintNeverGated(s, f, v);
      SystemLaws.HintRoundTrip(s, f, v);
      RoundTrip.HintSelectable(d);
      SelectedSilent(d);
    }
  }

  lemma SelectedSilent(d: Insn)
    requires HintSelector(d).Ok? && (ByCode(d) || d.code == Code.HintGeneric)
    ensures !NamesFlags(d.mnemonic)
  {
    if ByCode(d) {
      HintQuiet(d);
      QuietIsSilent(d.code);
    } else {
      SystemLaws.GenericDispatch(d);
      SelectorSilent(d);
    }
  }

  lemma BarrierNamed(s: SysFields, f: Gate, v: Insn)
    requires ByCode(v)
    ensures var d := BarrierOf(s, f, v); ByCode(d) || d.mnemonic == Mnemonic.Ssbb || d.mnemonic == Mnemonic.Pssbb
  {
  }

  lemma AliasSilent(m: Mnemonic)
    requires m == Mnemonic.Ssbb || m == Mnemonic.Pssbb || m == Mnemonic.Tlbip
             || m == Mnemonic.Cfp || m == Mnemonic.Dvp || m == Mnemonic.Cpp
    ensures !NamesFlags(m)
  {
  }

  lemma BarrierSilent(s: SysFields, f: Gate, v: Insn)
    requires SystemLaws.InRange(s) && !s.read && s.op0 == 0 && s.crn == 3 && Blank(v)
    ensures !NamesFlags(BarrierOf(s, f, v).mnemonic)
  {
    var d := BarrierOf(s, f, v);
    BlankName(v);
    BarrierNamed(s, f, v);
    if ByCode(d) {
      if !d.IsInvalid() {
        SystemLaws.BarrierRoundTrip(s, f, v);
        BarrierQuiet(d);
      }
      QuietIsSilent(d.code);
    } else {
      AliasSilent(d.mnemonic);
    }
  }

  lemma TimedByCode(s: SysFields, f: Gate, v: Insn)
    requires ByCode(v)
    ensures ByCode(SystemResult(s, f, v)) && ByCode(WfxtOf(s, f, v))
  {
  }

  lemma TimedQuiet(c: Code)
    requires IsResultCode(c) || IsWfxtCode(c)
    ensures Quiet(c)
  {
  }

  lemma ResultSilent(s: SysFields, f: Gate, v: Insn)
    requires Blank(v)
    ensures !NamesFlags(SystemResult(s, f, v).mnemonic)
  {
    var d := SystemResult(s, f, v);
    BlankName(v);
    TimedByCode(s, f, v);
    if !d.IsInvalid() {
      SystemLaws.ResultShape(s, f, v);
      TimedQuiet(d.code);
    }
    QuietIsSilent(d.code);
  }

  lemma WfxtSilent(s: SysFields, f: Gate, v: Insn)
    requires Blank(v)
    ensures !NamesFlags(WfxtOf(s, f, v).mnemonic)
  {
    var d := WfxtOf(s, f, v);
    BlankName(v);
    TimedByCode(s, f, v);
    if !d.IsInvalid() {
      SystemLaws.WfxtShape(s, f, v);
      TimedQuiet(d.code);
    }
    QuietIsSilent(d.code);
  }

  lemma MoveSilent(s: SysFields, v: Insn)
    ensures !NamesFlags(SysRegMove(s, v).mnemonic)
  {
    var d := SysRegMove(s, v);
    RoundTrip.MoveCodes(s, v);
    MoveQuiet(d.code);
    QuietIsSilent(d.code);
  }

  // CFINV, XAFLAG and AXFLAG.
  predicate SelectsFlagOp(s: SysFields) { s.rt == 31 && s.op1 == 0 && s.op2 <= 2 }

  lemma FlagOpNames(c: Code)
    requires IsFlagOp(c)
    ensures NameReads(MnemonicOf(c)) && NameWrites(MnemonicOf(c))
  {
  }

  lemma CarryOp(c: Code)
    ensures c == Code.Cfinv ==> IsFlagOp(c)
  {
  }

  lemma ToArmOp(c: Code)
    ensures c == Code.Xaflag ==> IsFlagOp(c)
  {
  }

  lemma FromArmOp(c: Code)
    ensures c == Code.Axflag ==> IsFlagOp(c)
  {
  }

  lemma FlagOpTouches(s: SysFields, v: Insn)
    requires SelectsFlagOp(s)
    ensures var m := MsrImmediate(s, v).mnemonic; NameReads(m) && NameWrites(m)
  {
    SystemLaws.BarePstateIs(s, v);
    var c := MsrImmediate(s, v).code;
    CarryOp(c);
    ToArmOp(c);
    FromArmOp(c);
    FlagOpNames(c);
  }

  lemma SmstartSilent(crm: bv32, v: Insn)
    ensures !NamesFlags(SmstartOf(crm, v).mnemonic)
  {
    var d := SmstartOf(crm, v);
    SystemLaws.SmstartShape(crm, v);
    QuietIsSilent(d.code);
  }

  lemma FieldSilent(s: SysFields, v: Insn)
    requires s.rt == 31 && PstateField(s.op1, s.op2, s.crm).Some?
    ensures !NamesFlags(MsrImmediate(s, v).mnemonic)
  {
    SystemLaws.NamedPstateIs(s, PstateField(s.op1, s.op2, s.crm).value, s.crm as int, v);
  }

  // Whether a name makes the report say that the flags are read and written, or neither.
  predicate Touches(m: Mnemonic, flags: bool) { NameReads(m) == flags && NameWrites(m) == flags }

  lemma PstateTouches(s: SysFields, v: Insn)
    requires SystemLaws.InRange(s) && s.op0 == 0 && s.crn == 4 && !s.read && Blank(v)
    ensures Touches(MsrImmediate(s, v).mnemonic, SelectsFlagOp(s))
  {
    if s.rt != 31 {
      BlankName(v);
      QuietIsSilent(v.code);
    } else if SelectsFlagOp(s) {
      FlagOpTouches(s, v);
    } else {
      SystemLaws.MsrImmediateIs(s, v);
      if s.op1 == 3 && s.op2 == 3 {
        SmstartSilent(s.crm, v);
      } else if PstateField(s.op1, s.op2, s.crm).Some? {
        FieldSilent(s, v);
      } else {
        MoveSilent(s, v);
      }
    }
  }

  lemma NamedTouches(s: SysFields, f: Gate, v: Insn)
    requires SystemLaws.InRange(s) && s.op0 == 0 && Blank(v)
    ensures Touches(Op0Named(s, f, v).mnemonic, !s.read && s.crn == 4 && SelectsFlagOp(s))
  {
    if s.read {
      ResultSilent(s, f, v);
    } else if s.crn == 4 {
      PstateTouches(s, v);
    } else if s.crn == 2 {
      HintSilent(s, f, v);
    } else if s.crn == 3 {
      BarrierSilent(s, f, v);
    } else if s.crn == 1 {
      WfxtSilent(s, f, v);
    } else {
      BlankName(v);
      QuietIsSilent(v.code);
    }
  }

  lemma Op0Touches(s: SysFields, f: Gate, v: Insn)
    requires SystemLaws.InRange(s) && s.op0 == 0 && Blank(v)
    ensures Touches(Op0(s, f, v).mnemonic, !s.read && s.crn == 4 && SelectsFlagOp(s))
  {
    CanonicalForm.UnallocatedIff(s);
    if Unallocated(s) {
      MoveSilent(s, v);
    } else {
      NamedTouches(s, f, v);
    }
  }

  // The mnemonic a row of the directory gives a SYS or SYSL word.
  function RowName(s: SysFields, f: Gate, table: SysTable): Option<Mnemonic> {
    if RctxAlias(s).Some? || (GcsCode(s).Some? && f(Feature.Gcs)) then None
    else
      match table(s.read, s.op1, s.crn, s.crm, s.op2)
      case Some(t) => Some(t.mnem)
      case None => None
  }

  lemma RctxSilent(s: SysFields)
    ensures RctxAlias(s).Some? ==> !NamesFlags(RctxAlias(s).value)
  {
    if RctxAlias(s).Some? { AliasSilent(RctxAlias(s).value); }
  }

  lemma GcsByCode(s: SysFields, c: Code, v: Insn)
    ensures ByCode(GcsOf(s, c, v))
  {
  }

  lemma GcsSilent(s: SysFields, v: Insn)
    requires SystemLaws.InRange(s) && s.op0 == 1 && GcsCode(s).Some?
    ensures !NamesFlags(GcsOf(s, GcsCode(s).value, v).mnemonic)
  {
    var d := GcsOf(s, GcsCode(s).value, v);
    GcsByCode(s, GcsCode(s).value, v);
    SystemLaws.GcsRoundTrip(s, v);
    GcsQuiet(d);
    QuietIsSilent(d.code);
  }

  lemma RowNamed(s: SysFields, t: SysEntry, v: Insn)
    ensures SysAlias(s, t, v).mnemonic == t.mnem
  {
  }

  lemma PushKeepsName(v: Insn, op: Operand)
    ensures v.Push(op).mnemonic == v.mnemonic && v.Push(op).code == v.code
  {
  }

  // The forms that spell their fields out.
  lemma SpelledOut(s: SysFields, c: Code, op: Operand, v: Insn)
    ensures var d := WithSysFields(s, v.Set(c).Push(op)); ByCode(d) && d.code == c
    ensures var d := WithSysFields(s, v.Set(c)); ByCode(d) && d.code == c
    ensures var d := WithSysFields(s, v.Set(c)).Push(op); ByCode(d) && d.code == c
  {
    var base := v.Set(c);
    PushKeepsName(base, op);
    Gates.SysFieldsCode(s, base.Push(op));
    SysFieldsName(s, base.Push(op));
    Gates.SysFieldsCode(s, base);
    SysFieldsName(s, base);
    PushKeepsName(WithSysFields(s, base), op);
  }

  lemma CanonicalByCode(s: SysFields, v: Insn)
    ensures var d := SysCanonical(s, v); ByCode(d) && d.code == if s.read then Code.Sysl else Code.Sys
  {
    SpelledOut(s, if s.read then Code.Sysl else Code.Sys, XReg(false, s.rt), v);
  }

  lemma SysFieldsName(s: SysFields, v: Insn)
    ensures WithSysFields(s, v).mnemonic == v.mnemonic
  {
  }

  lemma CanonicalSilent(s: SysFields, v: Insn)
    ensures !NamesFlags(SysCanonical(s, v).mnemonic)
  {
    var d := SysCanonical(s, v);
    CanonicalByCode(s, v);
    MoveQuiet(d.code);
    QuietIsSilent(d.code);
  }

  // A SYS or SYSL touches the flags only if its row's name does.
  lemma SysNames(s: SysFields, f: Gate, table: SysTable, v: Insn)
    requires SystemLaws.InRange(s) && s.op0 == 1
    ensures var m := SysOf(s, f, table, v).mnemonic;
            if RowName(s, f, table).Some? then m == RowName(s, f, table).value else !NamesFlags(m)
  {
    var t := table(s.read, s.op1, s.crn, s.crm, s.op2);
    if RctxAlias(s).Some? {
      RctxSilent(s);
    } else if GcsCode(s).Some? && f(Feature.Gcs) {
      RoundTrip.SysNamedIs(s, f, table, v);
      GcsSilent(s, v);
    } else {
      RoundTrip.SysTableIs(s, f, table, v);
      if t.Some? { RowNamed(s, t.value, v); } else { CanonicalSilent(s, v); }
    }
  }

  lemma PairNamed(word: bv32, f: Gate, table: SysTable, v: Insn)
    requires Blank(v)
    ensures var d := SystemPair(word, f, table, v); ByCode(d) || d.mnemonic == Mnemonic.Tlbip
  {
    var s := FieldsOf(word);
    BlankName(v);
    SyspNamed(s, table, v);
  }

  lemma SyspNamed(s: SysFields, table: SysTable, v: Insn)
    requires ByCode(v)
    ensures var d := SyspOf(s, table, v); ByCode(d) || d.mnemonic == Mnemonic.Tlbip
  {
    var d, base, entry := SyspOf(s, table, v), v.Set(Code.Sysp), table(false, s.op1, s.crn, s.crm, s.op2);
    if entry.Some? && entry.value.mnem == Mnemonic.Tlbi {
      assert d == v || d == TlbipOf(s, entry.value, v);
    } else {
      assert d == v || d == WithSysFields(s, base) || d == WithSysFields(s, base).Push(RegPairOf(s.rt));
      SpelledOut(s, Code.Sysp, RegPairOf(s.rt), v);
    }
  }

  lemma PairQuiet(c: Code)
    requires c == Code.Mrrs || c == Code.Msrr || c == Code.Sysp
    ensures Quiet(c)
  {
  }

  lemma PairSilent(word: bv32, f: Gate, table: SysTable, v: Insn)
    requires Blank(v)
    ensures !NamesFlags(SystemPair(word, f, table, v).mnemonic)
  {
    var d := SystemPair(word, f, table, v);
    BlankName(v);
    PairNamed(word, f, table, v);
    if ByCode(d) {
      Gates.PairCodes(word, f, table, v);
      if !d.IsInvalid() { PairQuiet(d.code); }
      QuietIsSilent(d.code);
    } else {
      AliasSilent(d.mnemonic);
    }
  }

  lemma ImmQuiet(c: Code)
    requires IsCompareCode(c) || IsTestCode(c) || IsUncondCode(c)
             || IsSppcCode(c) || IsCondCode(c)
    ensures Quiet(c)
  {
  }

  lemma ImmByCode(word: bv32, v: Insn)
    ensures ByCode(CompareBranch(word, v)) && ByCode(TestBranch(word, v)) && ByCode(UncondBranchImm(word, v))
  {
  }

  lemma ImmSilent(word: bv32, v: Insn)
    ensures !NamesFlags(CompareBranch(word, v).mnemonic) && !NamesFlags(TestBranch(word, v).mnemonic)
    ensures !NamesFlags(UncondBranchImm(word, v).mnemonic)
  {
    ImmByCode(word, v);
    RoundTrip.CompareCodes(word, v);
    RoundTrip.TestCodes(word, v);
    RoundTrip.UncondCodes(word, v);
    ImmQuiet(CompareBranch(word, v).code);
    ImmQuiet(TestBranch(word, v).code);
    ImmQuiet(UncondBranchImm(word, v).code);
    QuietIsSilent(CompareBranch(word, v).code);
    QuietIsSilent(TestBranch(word, v).code);
    QuietIsSilent(UncondBranchImm(word, v).code);
  }

  lemma CondByCode(word: bv32, f: Gate, v: Insn)
    requires ByCode(v)
    ensures ByCode(CondBranch(word, f, v))
  {
  }

  lemma CondQuiet(word: bv32, f: Gate, v: Insn)
    requires Blank(v)
    ensures Quiet(CondBranch(word, f, v).code)
  {
    var c := CondBranch(word, f, v).code;
    BlankName(v);
    Gates.CondCodes(word, f, v);
    CondQuietCode(c);
  }

  lemma CondQuietCode(c: Code)
    ensures c == Code.BCond || c == Code.BcCond || Gates.IsSppcCode(c) ==> Quiet(c)
  {
  }

  lemma CondSilent(word: bv32, f: Gate, v: Insn)
    requires Blank(v)
    ensures !NamesFlags(CondBranch(word, f, v).mnemonic)
  {
    BlankName(v);
    CondByCode(word, f, v);
    CondQuiet(word, f, v);
    QuietIsSilent(CondBranch(word, f, v).code);
  }

  lemma AppleByCode(word: bv32, f: Gate, v: Insn)
    requires ByCode(v)
    ensures ByCode(Apple.AppleOf(word, f, v))
  {
  }

  lemma AppleQuiet(d: Insn)
    requires Apple.EncodeApple(d).Ok?
    ensures Quiet(d.code)
  {
  }

  lemma AppleSilent(word: bv32, f: Gate, v: Insn)
    requires Blank(v) && word & 0xffff_f800 == 0x0020_1000
    ensures !NamesFlags(Apple.AppleOf(word, f, v).mnemonic)
  {
    var d := Apple.AppleOf(word, f, v);
    BlankName(v);
    AppleByCode(word, f, v);
    Apple.EncodeOfDecode(word, f, v);
    if !d.IsInvalid() { AppleQuiet(d); }
    QuietIsSilent(d.code);
  }

  lemma UdfSilent(word: bv32, v: Insn)
    ensures !NamesFlags(DecodeTree.UdfOf(word, v).mnemonic)
  {
    QuietIsSilent(DecodeTree.UdfOf(word, v).code);
  }

  lemma ReservedSilent(word: bv32, f: FeatureSet, others: DecodeTree.Others, v: Insn)
    requires Blank(v) && (word >> 16 == 0 || word >> 31 == 0)
    ensures !NamesFlags(DecodeTree.Reserved(word, f, others, v).mnemonic)
  {
    BlankName(v);
    UdfSilent(word, v);
    QuietIsSilent(v.code);
    if word & 0xffff_f800 == 0x0020_1000 { AppleSilent(word, f.Has, v); }
  }

  // --- By word. ---

  // B.cond and BC.cond.
  predicate ConditionalWord(word: bv32, f: Gate) {
    CarriesCondition(word) && (Bit(word, 4) == 0 || f(Feature.Hbc))
  }

  // The fused compare-and-branch words: every size and condition but the reserved ones,
  // and the byte and halfword forms on W registers only.
  predicate FusedWord(word: bv32, f: Gate) {
    && ClassOf(word).CmpbrBlock? && f(Feature.Cmpbr)
    && Bits(word, 21, 3) != 4 && Bits(word, 21, 3) != 5
    && if Bit(word, 24) == 1 then Bit(word, 14) == 0
       else Bits(word, 14, 2) == 0 || (Bits(word, 14, 2) != 1 && Bit(word, 31) == 0)
  }

  // CFINV, XAFLAG and AXFLAG, with any CRm.
  predicate FlagOpWord(word: bv32) {
    var s := FieldsOf(word);
    ClassOf(word).SystemBlock? && !s.read && s.op0 == 0 && s.crn == 4 && SelectsFlagOp(s)
  }

  function RowOf(word: bv32, f: Gate, table: SysTable): Option<Mnemonic> {
    if ClassOf(word).SystemBlock? && FieldsOf(word).op0 == 1 then RowName(FieldsOf(word), f, table) else None
  }

  lemma CmpbrValid(word: bv32, f: Gate, v: Insn)
    requires v.IsInvalid() && ClassOf(word).CmpbrBlock?
    ensures FusedWord(word, f) <==> !CmpbrOf(word, f, v).IsInvalid()
  {
    CmpbrRegValid(word, v);
    CmpbrImmValid(word, v);
  }

  lemma CmpbrRegValid(word: bv32, v: Insn)
    requires v.IsInvalid()
    ensures CmpbrReg(word, v).IsInvalid() <==>
            Bits(word, 21, 3) == 4 || Bits(word, 21, 3) == 5 || Bits(word, 14, 2) == 1
            || (Bits(word, 14, 2) != 0 && Bit(word, 31) == 1)
  {
    var size, cc := Bits(word, 14, 2), Bits(word, 21, 3);
    CmpbrFields(word);
    RegCodeOrNone(size, cc, Bit(word, 31), word, v);
  }

  lemma RegCodeOrNone(size: bv32, cc: bv32, sf: bv32, word: bv32, v: Insn)
    requires v.IsInvalid() && size == Bits(word, 14, 2) && cc == Bits(word, 21, 3) && sf == Bit(word, 31)
    ensures CmpbrReg(word, v).IsInvalid() <==> CmpbrRegCode(size, cc).None? || (size != 0 && sf == 1)
  {
    BranchLaws.CmpbrRegCodeInverts(size, cc);
  }

  lemma CmpbrFields(word: bv32)
    ensures Bits(word, 21, 3) <= 7 && Bits(word, 14, 2) <= 3 && Bit(word, 31) <= 1 && Bit(word, 24) <= 1
    ensures Bit(word, 14) <= 1
  {
  }

  lemma CmpbrImmValid(word: bv32, v: Insn)
    requires v.IsInvalid()
    ensures CmpbrImm(word, v).IsInvalid() <==>
            Bits(word, 21, 3) == 4 || Bits(word, 21, 3) == 5 || Bit(word, 14) != 0
  {
    BranchLaws.CmpbrImmCodeInverts(Bits(word, 21, 3));
    CmpbrFields(word);
  }

  // What the report of a decoded instruction says of the flags.
  ghost predicate Says(d: Insn, read: bool, written: bool) { ReadsNzcv(d) == read && WritesFlags(d) == written }

  lemma CondSays(word: bv32, f: Gate, v: Insn)
    requires CarriesCondition(word) && Blank(v)
    ensures Says(CondBranch(word, f, v), ConditionalWord(word, f), false)
  {
    var d := CondBranch(word, f, v);
    CondSilent(word, f, v);
    CondOperands(word, f, v);
  }

  lemma CondOperands(word: bv32, f: Gate, v: Insn)
    requires CarriesCondition(word) && Blank(v)
    ensures FirstCond(CondBranch(word, f, v).ops).Some? <==> Bit(word, 4) == 0 || f(Feature.Hbc)
  {
    var cond := ConditionFromU4(Bits(word, 0, 4));
    CarriesFirst(Code.BCond, cond, LabelAt(v.ip, word, Imm19), v);
    CarriesFirst(Code.BcCond, cond, LabelAt(v.ip, word, Imm19), v);
  }

  lemma CarriesFirst(c: Code, cond: Condition, l: Operand, v: Insn)
    ensures FirstCond(v.Set(c).Push(Operand.Cond(cond)).Push(l).ops) == Some(cond)
  {
  }

  lemma CmpbrSays(word: bv32, f: Gate, v: Insn)
    requires ClassOf(word).CmpbrBlock? && Blank(v)
    ensures Says(CmpbrOf(word, f, v), FusedWord(word, f), false)
  {
    CmpbrSimple(word, f, v);
    ByName(CmpbrOf(word, f, v));
    CmpbrValid(word, f, v);
    CmpbrNamed(word, f, v);
  }

  lemma CmpbrNamed(word: bv32, f: Gate, v: Insn)
    requires Blank(v)
    ensures var d := CmpbrOf(word, f, v); (NameReads(d.mnemonic) <==> !d.IsInvalid()) && !NameWrites(d.mnemonic)
  {
    var d := CmpbrOf(word, f, v);
    BlankName(v);
    CmpbrByCode(word, f, v);
    if d.IsInvalid() {
      QuietIsSilent(d.code);
    } else {
      Retarget.CmpbrCodes(word, f, v);
      FusedName(d.code);
      FusedWritesNothing(d.mnemonic);
    }
  }

  lemma CmpbrByCode(word: bv32, f: Gate, v: Insn)
    requires ByCode(v)
    ensures ByCode(CmpbrOf(word, f, v))
  {
  }

  lemma FusedName(c: Code)
    requires IsCmpbr(c)
    ensures IsFused(MnemonicOf(c))
  {
  }

  lemma FusedWritesNothing(m: Mnemonic)
    requires IsFused(m)
    ensures !NameWrites(m)
  {
  }

  // A word that neither carries a condition nor is called after one of the flags.
  lemma SilentSays(d: Insn)
    requires AllSimple(d) && !NamesFlags(d.mnemonic)
    ensures Says(d, false, false)
  {
    ByName(d);
  }

  lemma SystemSays(word: bv32, f: Gate, table: SysTable, v: Insn)
    requires ClassOf(word).SystemBlock? && Blank(v)
    ensures var row := RowOf(word, f, table);
            Says(System(word, f, table, v), FlagOpWord(word) || (row.Some? && NameReads(row.value)),
                 FlagOpWord(word) || (row.Some? && NameWrites(row.value)))
  {
    var s := FieldsOf(word);
    SystemLaws.FieldsInRange(word);
    SystemSimple(word, f, table, v);
    CanonicalForm.SystemOf(word, f, table, v);
    ByName(System(word, f, table, v));
    if s.op0 == 0 {
      Op0Touches(s, f, v);
    } else if s.op0 == 1 {
      SysNames(s, f, table, v);
    } else {
      MoveSilent(s, v);
    }
  }

  // --- The report, word by word. ---

  // The words after which the report says that the flags are read, and written.
  predicate ReportsRead(word: bv32, f: Gate, table: SysTable) {
    var row := RowOf(word, f, table);
    ConditionalWord(word, f) || FusedWord(word, f) || FlagOpWord(word) || (row.Some? && NameReads(row.value))
  }

  predicate ReportsWritten(word: bv32, f: Gate, table: SysTable) {
    var row := RowOf(word, f, table);
    FlagOpWord(word) || (row.Some? && NameWrites(row.value))
  }

  lemma InBlock(c: BranchSpec.Class, word: bv32, f: Gate, table: SysTable, v: Insn)
    ensures c.SystemBlock? ==> BranchIn(c, word, f, table, v) == System(word, f, table, v)
    ensures c.CondBlock? ==> BranchIn(c, word, f, table, v) == CondBranch(word, f, v)
    ensures c.CmpbrBlock? ==> BranchIn(c, word, f, table, v) == CmpbrOf(word, f, v)
  {
  }

  lemma SystemReported(word: bv32, f: Gate, table: SysTable, v: Insn)
    requires ClassOf(word).SystemBlock? && Blank(v)
    ensures Says(Branch(word, f, table, v), ReportsRead(word, f, table), ReportsWritten(word, f, table))
  {
    InBlock(ClassOf(word), word, f, table, v);
    SystemSays(word, f, table, v);
  }

  // No word outside the three classes is reported.
  lemma ElsewhereUnreported(word: bv32, f: Gate, table: SysTable)
    requires !ClassOf(word).SystemBlock?
    ensures !ReportsWritten(word, f, table)
    ensures ReportsRead(word, f, table) <==> ConditionalWord(word, f) || FusedWord(word, f)
  {
  }

  lemma JumpSilent(c: BranchSpec.Class, word: bv32, f: Gate, v: Insn)
    requires c == ClassOf(word) && Blank(v) && !c.CmpbrBlock?
    ensures !NamesFlags(Jump(c, word, f, v).mnemonic)
  {
    if c.RegBranch? { RegBranchSilent(word, f, v); } else { OtherJumpSilent(c, word, f, v); }
  }

  lemma InJump(c: BranchSpec.Class, word: bv32, f: Gate, v: Insn)
    ensures c.CondBlock? ==> Jump(c, word, f, v) == CondBranch(word, f, v)
    ensures c.CompareBlock? ==> Jump(c, word, f, v) == CompareBranch(word, v)
  {
  }

  lemma InLongJump(c: BranchSpec.Class, word: bv32, f: Gate, v: Insn)
    ensures c.TestBlock? ==> Jump(c, word, f, v) == TestBranch(word, v)
    ensures c.ImmBranch? ==> Jump(c, word, f, v) == UncondBranchImm(word, v)
  {
  }

  lemma NoJump(c: BranchSpec.Class, word: bv32, f: Gate, v: Insn)
    requires !c.RegBranch? && !c.CondBlock? && !c.CmpbrBlock? && !c.CompareBlock? && !c.TestBlock? && !c.ImmBranch?
    ensures Jump(c, word, f, v) == v
  {
  }

  lemma OtherJumpSilent(c: BranchSpec.Class, word: bv32, f: Gate, v: Insn)
    requires Blank(v) && !c.CmpbrBlock? && !c.RegBranch?
    ensures !NamesFlags(Jump(c, word, f, v).mnemonic)
  {
    InJump(c, word, f, v);
    InLongJump(c, word, f, v);
    if c.CondBlock? {
      CondSilent(word, f, v);
    } else if c.CompareBlock? || c.TestBlock? || c.ImmBranch? {
      ImmSilent(word, v);
    } else {
      NoJump(c, word, f, v);
      BlankName(v);
      QuietIsSilent(v.code);
    }
  }

  lemma BlockSilent(c: BranchSpec.Class, word: bv32, f: Gate, table: SysTable, v: Insn)
    requires Blank(v) && (c.PairBlock? || c.Exceptions? || c.TchangeBlock?)
    ensures !NamesFlags(BranchIn(c, word, f, table, v).mnemonic)
  {
    if c.PairBlock? {
      PairSilent(word, f, table, v);
    } else if c.Exceptions? {
      ExceptionGenSilent(word, f, v);
    } else {
      TchangeSilent(word, f, v);
    }
  }

  lemma BlankIsSilent(v: Insn)
    requires Blank(v)
    ensures !NamesFlags(v.mnemonic)
  {
    BlankName(v);
    QuietIsSilent(v.code);
  }

  lemma ExceptionGenSilent(word: bv32, f: Gate, v: Insn)
    requires Blank(v)
    ensures !NamesFlags(ExceptionGen(word, f, v).mnemonic)
  {
    if Bits(word, 2, 3) != 0 {
      BlankIsSilent(v);
    } else {
      ExceptionSilent(Bits(word, 21, 3), Bits(word, 0, 2), Bits(word, 5, 16), f, v);
    }
  }

  // The two classes besides are apart.
  lemma OneOfTwo(word: bv32, f: Gate)
    ensures CarriesCondition(word) ==> !FusedWord(word, f)
    ensures ClassOf(word).CmpbrBlock? ==> !ConditionalWord(word, f)
  {
  }

  lemma CondReported(word: bv32, f: Gate, table: SysTable, v: Insn)
    requires CarriesCondition(word) && Blank(v)
    ensures Says(Branch(word, f, table, v), ReportsRead(word, f, table), ReportsWritten(word, f, table))
  {
    InBlock(ClassOf(word), word, f, table, v);
    ElsewhereUnreported(word, f, table);
    OneOfTwo(word, f);
    CondSays(word, f, v);
  }

  lemma CmpbrReported(word: bv32, f: Gate, table: SysTable, v: Insn)
    requires ClassOf(word).CmpbrBlock? && Blank(v)
    ensures Says(Branch(word, f, table, v), ReportsRead(word, f, table), ReportsWritten(word, f, table))
  {
    InBlock(ClassOf(word), word, f, table, v);
    ElsewhereUnreported(word, f, table);
    OneOfTwo(word, f);
    CmpbrSays(word, f, v);
  }

  lemma OtherReported(word: bv32, f: Gate, table: SysTable, v: Insn)
    requires Blank(v) && !CarriesCondition(word) && !ClassOf(word).CmpbrBlock? && !ClassOf(word).SystemBlock?
    ensures Says(Branch(word, f, table, v), ReportsRead(word, f, table), ReportsWritten(word, f, table))
  {
    ElsewhereUnreported(word, f, table);
    BranchSimple(word, f, table, v);
    BranchSilent(ClassOf(word), word, f, table, v);
    SilentSays(Branch(word, f, table, v));
  }

  lemma BranchReported(word: bv32, f: Gate, table: SysTable, v: Insn)
    requires Blank(v)
    ensures Says(Branch(word, f, table, v), ReportsRead(word, f, table), ReportsWritten(word, f, table))
  {
    var c := ClassOf(word);
    if c.SystemBlock? {
      SystemReported(word, f, table, v);
    } else if c.CmpbrBlock? {
      CmpbrReported(word, f, table, v);
    } else if CarriesCondition(word) {
      CondReported(word, f, table, v);
    } else {
      OtherReported(word, f, table, v);
    }
  }

  lemma BranchSilent(c: BranchSpec.Class, word: bv32, f: Gate, table: SysTable, v: Insn)
    requires c == ClassOf(word) && Blank(v) && !c.SystemBlock? && !CarriesCondition(word) && !c.CmpbrBlock?
    ensures !NamesFlags(BranchIn(c, word, f, table, v).mnemonic)
  {
    if c.PairBlock? || c.Exceptions? || c.TchangeBlock? {
      BlockSilent(c, word, f, table, v);
    } else {
      JumpSilent(c, word, f, v);
    }
  }

  lemma OutsideUnreported(word: bv32, f: Gate, table: SysTable)
    requires DecodeTree.Op0Of(word) == 0
    ensures !ReportsRead(word, f, table) && !ReportsWritten(word, f, table) && !CarriesCondition(word)
  {
    DecodeTree.ClassesAreRouted(word);
  }

  lemma ReservedReported(word: bv32, ip: U64, f: FeatureSet, table: SysTable, others: DecodeTree.Others)
    requires DecodeTree.Modelled(word) && DecodeTree.Op0Of(word) == 0
    ensures Says(DecodeTree.DecodeWord(word, ip, f, table, others), false, false)
    ensures !ReportsRead(word, f.Has, table) && !ReportsWritten(word, f.Has, table)
  {
    OutsideUnreported(word, f.Has, table);
    ReservedSilent(word, f, others, NewInvalid(word, ip));
    DecodedIsSimple(word, ip, f, table, others);
    SilentSays(DecodeTree.DecodeWord(word, ip, f, table, others));
  }

  // The scalar flags of the report of every word decoded here: read for the conditional
  // branches, the fused compares and the flag operations, written for the flag operations;
  // besides them, for the SYS words whose directory row has the name of such an instruction.
  lemma FlagsReported(word: bv32, ip: U64, f: FeatureSet, table: SysTable, others: DecodeTree.Others, t: Tables)
    requires DecodeTree.Modelled(word)
    ensures var info := InfoOf(DecodeTree.DecodeWord(word, ip, f, table, others), t);
            && (info.flagsRead <==> ReportsRead(word, f.Has, table))
            && (info.flagsWritten <==> ReportsWritten(word, f.Has, table))
  {
    if DecodeTree.Op0Of(word) == 0 {
      ReservedReported(word, ip, f, table, others);
    } else {
      BranchReported(word, f.Has, table, NewInvalid(word, ip));
    }
  }

  // --- Against the Arm ARM. ---

  // A system instruction by its fields, whatever Rt.
  predicate InSystem(word: bv32, read: bool, op0: bv32, op1: bv32, crn: bv32, crm: bv32, op2: bv32) {
    var s := FieldsOf(word);
    && ClassOf(word).SystemBlock? && s.read == read && s.op0 == op0 && s.op1 == op1 && s.crn == crn && s.crm == crm
    && s.op2 == op2
  }

  predicate MovesNzcv(word: bv32, read: bool) { InSystem(word, read, 3, 3, 4, 2, 0) }

  // MRS of RNDR and RNDRRS, which leave in NZCV whether a number was there.
  predicate DrawsNumber(word: bv32) { InSystem(word, true, 3, 3, 2, 4, 0) || InSystem(word, true, 3, 3, 2, 4, 1) }

  // B.AL, B.NV and their BC forms, which branch without looking at a flag.
  predicate AlwaysWord(word: bv32, f: Gate) { ConditionalWord(word, f) && Bits(word, 0, 4) >= 14 }

  // SVC, HVC, SMC, BRK, HLT, TENTER and TSTART, which save the flags with the rest of the state.
  predicate SavesState(word: bv32, f: Gate) {
    || (ClassOf(word).Exceptions? && TakesException(Bits(word, 21, 3), Bits(word, 5, 16), Bits(word, 0, 5), f))
    || (InSystem(word, true, 0, 3, 3, 0, 3) && f(Feature.Tme))
  }

  predicate TakesException(opc: bv32, imm16: bv32, low: bv32, f: Gate) {
    || (opc == 0 && 1 <= low <= 3) || ((opc == 1 || opc == 2) && low == 0)
    || (opc == 7 && low == 0 && imm16 & 0xef80 == 0 && f(Feature.Tev))
  }

  // ERET, DRPS, ERETAA, ERETAB and TCANCEL, which restore them.
  predicate RestoresState(word: bv32, f: Gate) {
    || word == 0xd69f_03e0 || word == 0xd6bf_03e0
    || ((word == 0xd69f_0bff || word == 0xd69f_0fff) && f(Feature.PAuth))
    || (word & 0xffe0_001f == 0xd460_0000 && f(Feature.Tme))
  }

  // The words decoded here whose own operation reads NZCV, and writes it (sections C6.2 and
  // D24.2 of the Arm ARM).
  predicate InputsFlags(word: bv32, f: Gate) {
    || (ConditionalWord(word, f) && Bits(word, 0, 4) < 14)
    || FlagOpWord(word) || MovesNzcv(word, true) || SavesState(word, f)
  }

  predicate OutputsFlags(word: bv32, f: Gate) {
    FlagOpWord(word) || MovesNzcv(word, false) || DrawsNumber(word) || RestoresState(word, f)
  }

  // The words reported to read the flags that do not, and those not reported that do.
  predicate ReadWrong(word: bv32, f: Gate) {
    FusedWord(word, f) || AlwaysWord(word, f) || MovesNzcv(word, true) || SavesState(word, f)
  }

  // The words not reported to write them that do.
  predicate WriteWrong(word: bv32, f: Gate) {
    MovesNzcv(word, false) || DrawsNumber(word) || RestoresState(word, f)
  }

  // The rows of the directory name operations on caches, translations and the like.
  ghost predicate NamesOperations(table: SysTable) {
    forall read, op1, crn, crm, op2 ::
      var t := table(read, op1, crn, crm, op2); t.Some? ==> !NamesFlags(t.value.mnem)
  }

  lemma RowsSilent(word: bv32, f: Gate, table: SysTable)
    requires NamesOperations(table)
    ensures var row := RowOf(word, f, table); row.Some? ==> !NameReads(row.value) && !NameWrites(row.value)
  {
    var row := RowOf(word, f, table);
    if row.Some? {}
  }

  lemma FusedInputsNothing(word: bv32, f: Gate)
    requires ClassOf(word).CmpbrBlock?
    ensures !InputsFlags(word, f) && DecodeTree.Modelled(word)
  {
    DecodeTree.ClassesAreRouted(word);
  }

  // A fused compare reads no flag, and is reported to.
  lemma FusedMisread(word: bv32, ip: U64, f: FeatureSet, table: SysTable, others: DecodeTree.Others, t: Tables)
    requires FusedWord(word, f.Has)
    ensures InfoOf(DecodeTree.DecodeWord(word, ip, f, table, others), t).flagsRead && !InputsFlags(word, f.Has)
  {
    FusedInputsNothing(word, f.Has);
    FlagsReported(word, ip, f, table, others, t);
  }

  // The system block but for SYS and the flag operations, exceptions, and branches to a register.
  predicate Unnamed(word: bv32) {
    var c := ClassOf(word);
    c.Exceptions? || c.RegBranch? || (c.SystemBlock? && FieldsOf(word).op0 != 1 && !FlagOpWord(word))
  }

  lemma UnnamedIsElsewhere(word: bv32, f: Gate)
    requires Unnamed(word)
    ensures !FlagOpWord(word) && !ConditionalWord(word, f) && !FusedWord(word, f)
    ensures !(ClassOf(word).SystemBlock? && FieldsOf(word).op0 == 1)
    ensures DecodeTree.Modelled(word)
  {
    DecodeTree.ClassesAreRouted(word);
  }

  // They are not reported to touch the flags: no MSR or MRS is, of whatever register, and
  // no exception or return from one.
  lemma UnnamedUnreported(word: bv32, ip: U64, f: FeatureSet, table: SysTable, others: DecodeTree.Others, t: Tables)
    requires Unnamed(word)
    ensures var info := InfoOf(DecodeTree.DecodeWord(word, ip, f, table, others), t);
            !info.flagsRead && !info.flagsWritten
  {
    UnnamedIsElsewhere(word, f.Has);
    FlagsReported(word, ip, f, table, others, t);
  }

  // The words that touch the flags without being reported to are such words.
  lemma MoveIsUnnamed(word: bv32, read: bool, op1: bv32, crn: bv32, crm: bv32, op2: bv32)
    requires InSystem(word, read, 3, op1, crn, crm, op2)
    ensures Unnamed(word)
  {
  }

  lemma SavingIsUnnamed(word: bv32, f: Gate)
    requires SavesState(word, f)
    ensures Unnamed(word)
  {
  }

  lemma RestoringIsUnnamed(word: bv32, f: Gate)
    requires RestoresState(word, f)
    ensures Unnamed(word)
  {
  }

  lemma WriterIsUnnamed(word: bv32, f: Gate)
    requires WriteWrong(word, f)
    ensures Unnamed(word)
  {
    if RestoresState(word, f) {
      RestoringIsUnnamed(word, f);
    } else if MovesNzcv(word, false) {
      MoveIsUnnamed(word, false, 3, 4, 2, 0);
    } else {
      MoveIsUnnamed(word, true, 3, 2, 4, FieldsOf(word).op2);
    }
  }

  lemma AlwaysInputsNothing(word: bv32, f: Gate)
    requires AlwaysWord(word, f)
    ensures !InputsFlags(word, f) && DecodeTree.Modelled(word)
  {
    DecodeTree.ClassesAreRouted(word);
  }

  lemma UnnamedReads(word: bv32, f: Gate, table: SysTable)
    requires MovesNzcv(word, true) || SavesState(word, f)
    ensures InputsFlags(word, f) && !ReportsRead(word, f, table)
  {
    if SavesState(word, f) { SavingIsUnnamed(word, f); } else { MoveIsUnnamed(word, true, 3, 4, 2, 0); }
    UnnamedIsElsewhere(word, f);
  }

  lemma ReadsAsClaimed(word: bv32, f: Gate, table: SysTable)
    requires NamesOperations(table) && !ReadWrong(word, f)
    ensures ReportsRead(word, f, table) == InputsFlags(word, f)
  {
    RowsSilent(word, f, table);
  }

  lemma ReadsAsClaimedIff(word: bv32, f: Gate, table: SysTable)
    requires NamesOperations(table)
    ensures ReportsRead(word, f, table) == InputsFlags(word, f) <==> !ReadWrong(word, f)
  {
    if FusedWord(word, f) {
      FusedInputsNothing(word, f);
    } else if AlwaysWord(word, f) {
      AlwaysInputsNothing(word, f);
    } else if MovesNzcv(word, true) || SavesState(word, f) {
      UnnamedReads(word, f, table);
    } else {
      ReadsAsClaimed(word, f, table);
    }
  }

  lemma WritesAsClaimedIff(word: bv32, f: Gate, table: SysTable)
    requires NamesOperations(table)
    ensures ReportsWritten(word, f, table) == OutputsFlags(word, f) <==> !WriteWrong(word, f)
  {
    RowsSilent(word, f, table);
    if WriteWrong(word, f) {
      WriterIsUnnamed(word, f);
      UnnamedIsElsewhere(word, f);
    }
  }

  // The report is right about reading exactly for the words that are not a fused compare, a
  // branch that is always taken, MRS of NZCV, or one that saves the state.
  lemma ReadRightIff(word: bv32, ip: U64, f: FeatureSet, table: SysTable, others: DecodeTree.Others, t: Tables)
    requires DecodeTree.Modelled(word) && NamesOperations(table)
    ensures InfoOf(DecodeTree.DecodeWord(word, ip, f, table, others), t).flagsRead == InputsFlags(word, f.Has)
            <==> !ReadWrong(word, f.Has)
  {
    FlagsReported(word, ip, f, table, others, t);
    ReadsAsClaimedIff(word, f.Has, table);
  }

  // And right about writing exactly for those that do not move to NZCV, draw a random number
  // or restore the state.
  lemma WriteRightIff(word: bv32, ip: U64, f: FeatureSet, table: SysTable, others: DecodeTree.Others, t: Tables)
    requires DecodeTree.Modelled(word) && NamesOperations(table)
    ensures InfoOf(DecodeTree.DecodeWord(word, ip, f, table, others), t).flagsWritten == OutputsFlags(word, f.Has)
            <==> !WriteWrong(word, f.Has)
  {
    FlagsReported(word, ip, f, table, others, t);
    WritesAsClaimedIff(word, f.Has, table);
  }

  lemma ReadInstances(f: Gate)
    ensures ConditionalWord(0x5400_000e, f) && AlwaysWord(0x5400_000e, f)
    ensures f(Feature.Cmpbr) ==> FusedWord(0x7400_0000, f)
    ensures MovesNzcv(0xd53b_4200, true)
  {
    assert FieldsOf(0xd53b_4200) == SysFields(true, 3, 3, 4, 2, 0, 0);
  }

  lemma WriteInstances()
    ensures MovesNzcv(0xd51b_4200, false) && DrawsNumber(0xd53b_2400)
  {
    assert FieldsOf(0xd51b_4200) == SysFields(false, 3, 3, 4, 2, 0, 0);
    assert FieldsOf(0xd53b_2400) == SysFields(true, 3, 3, 2, 4, 0, 0);
  }

  // B.AL and CBGT W0, W0, #0, each to its own address, are reported to read the flags, and
  // MRS X0, NZCV is not.
  lemma ReadWrongFor(ip: U64, f: FeatureSet, table: SysTable, others: DecodeTree.Others, t: Tables)
    ensures InfoOf(DecodeTree.DecodeWord(0x5400_000e, ip, f, table, others), t).flagsRead
            && !InputsFlags(0x5400_000e, f.Has)
    ensures f.Has(Feature.Cmpbr) ==>
              && InfoOf(DecodeTree.DecodeWord(0x7400_0000, ip, f, table, others), t).flagsRead
              && !InputsFlags(0x7400_0000, f.Has)
    ensures !InfoOf(DecodeTree.DecodeWord(0xd53b_4200, ip, f, table, others), t).flagsRead
            && InputsFlags(0xd53b_4200, f.Has)
  {
    ReadInstances(f.Has);
    AlwaysInputsNothing(0x5400_000e, f.Has);
    FlagsReported(0x5400_000e, ip, f, table, others, t);
    if f.Has(Feature.Cmpbr) { FusedMisread(0x7400_0000, ip, f, table, others, t); }
    MoveIsUnnamed(0xd53b_4200, true, 3, 4, 2, 0);
    UnnamedUnreported(0xd53b_4200, ip, f, table, others, t);
  }

  // None of ERET, MSR NZCV, X0 and MRS X0, RNDR is reported to write them.
  lemma WriteWrongFor(ip: U64, f: FeatureSet, table: SysTable, others: DecodeTree.Others, t: Tables)
    ensures !InfoOf(DecodeTree.DecodeWord(0xd69f_03e0, ip, f, table, others), t).flagsWritten
            && OutputsFlags(0xd69f_03e0, f.Has)
    ensures !InfoOf(DecodeTree.DecodeWord(0xd51b_4200, ip, f, table, others), t).flagsWritten
            && OutputsFlags(0xd51b_4200, f.Has)
    ensures !InfoOf(DecodeTree.DecodeWord(0xd53b_2400, ip, f, table, others), t).flagsWritten
            && OutputsFlags(0xd53b_2400, f.Has)
  {
    WriteInstances();
    RestoringIsUnnamed(0xd69f_03e0, f.Has);
    UnnamedUnreported(0xd69f_03e0, ip, f, table, others, t);
    MoveIsUnnamed(0xd51b_4200, false, 3, 4, 2, 0);
    UnnamedUnreported(0xd51b_4200, ip, f, table, others, t);
    MoveIsUnnamed(0xd53b_2400, true, 3, 2, 4, 0);
    UnnamedUnreported(0xd53b_2400, ip, f, table, others, t);
  }
}
