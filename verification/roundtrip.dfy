/** The whole group: encoding what a word decodes to gives the word back in canonical
    form, and the canonical form decodes to the same instruction. */
module RoundTrip {
  import opened Wrappers
  import opened Fields
  import opened Features
  import opened Isa
  import opened Instructions
  import opened BranchSpec
  import opened BranchEncode
  import opened BranchLaws
  import opened SystemLaws
  import opened SysAliasLaws

  // --- Which encodings a class produces. ---

  lemma ExceptionCodes(opc: bv32, ll: bv32, imm16: bv32, f: Gate, v: Insn)
    requires v.IsInvalid()
    ensures var d := ExceptionBy(opc, ll, imm16, f, v); d.IsInvalid() || IsExceptionCode(d.code)
  {
  }

  lemma MoveCodes(s: SysFields, v: Insn)
    ensures SysRegMove(s, v).code == if s.read then Code.Mrs else Code.MsrReg
  {
  }

  lemma SysCodes(s: SysFields, f: Gate, table: SysTable, v: Insn)
    requires GcsCode(s).None? || !f(Feature.Gcs) || RctxAlias(s).Some?
    ensures SysOf(s, f, table, v).code == Code.Sys || SysOf(s, f, table, v).code == Code.Sysl
  {
    if RctxAlias(s).None? {
      var row := table(s.read, s.op1, s.crn, s.crm, s.op2);
      if row.Some? { AliasCode(s, row.value, v); } else { CanonicalCode(s, v); }
    }
  }

  lemma AliasCode(s: SysFields, t: SysEntry, v: Insn)
    ensures SysAlias(s, t, v).code == Code.Sys || SysAlias(s, t, v).code == Code.Sysl
  {
  }

  lemma CanonicalCode(s: SysFields, v: Insn)
    ensures SysCanonical(s, v).code == Code.Sys || SysCanonical(s, v).code == Code.Sysl
  {
  }

  // --- Class by class. ---

  // What the theorem says of one decoded instruction.
  ghost predicate EncodesTo(d: Insn, names: SysNames, word: bv32) {
    d.IsInvalid() || Encode(d, names) == Ok(word)
  }

  lemma CondClass(word: bv32, f: Gate, names: SysNames, v: Insn)
    requires word & 0xff00_0000 == 0x5400_0000 && v.IsInvalid()
    ensures EncodesTo(CondBranch(word, f, v), names, word)
  {
    var d := CondBranch(word, f, v);
    if !d.IsInvalid() {
      CondBranchRoundTrip(word, f, v);
      CondFamily(d.code);
    }
  }

  lemma RegClass(word: bv32, f: Gate, names: SysNames, v: Insn)
    requires word & 0xfe00_0000 == 0xd600_0000 && v.IsInvalid()
    ensures EncodesTo(UncondBranchReg(word, f, v), names, word)
  {
    var d := UncondBranchReg(word, f, v);
    if !d.IsInvalid() {
      RegBranchRoundTrip(word, f, v);
      RegEncodesRegs(d);
      RegFamily(d.code);
    }
  }

  lemma SppcClass(word: bv32, f: Gate, names: SysNames, v: Insn)
    requires word & 0xff00_0000 == 0x5500_0000 && v.IsInvalid()
    ensures EncodesTo(RetSppc(word, f, v), names, word)
  {
    var d := RetSppc(word, f, v);
    if !d.IsInvalid() {
      SppcRoundTrip(word, f, v);
      SppcFamily(d.code);
    }
  }

  lemma CompareCodes(word: bv32, v: Insn)
    ensures IsCompareCode(CompareBranch(word, v).code)
  {
  }

  lemma CompareClass(word: bv32, names: SysNames, v: Insn)
    requires word & 0x7e00_0000 == 0x3400_0000
    ensures EncodesTo(CompareBranch(word, v), names, word)
  {
    CompareCodes(word, v);
    CompareBranchRoundTrip(word, v);
    CompareFamily(CompareBranch(word, v).code);
  }

  lemma TestCodes(word: bv32, v: Insn)
    ensures IsTestCode(TestBranch(word, v).code)
  {
  }

  lemma TestClass(word: bv32, names: SysNames, v: Insn)
    requires word & 0x7e00_0000 == 0x3600_0000
    ensures EncodesTo(TestBranch(word, v), names, word)
  {
    TestCodes(word, v);
    TestBranchRoundTrip(word, v);
    TestFamily(TestBranch(word, v).code);
  }

  lemma UncondCodes(word: bv32, v: Insn)
    ensures IsUncondCode(UncondBranchImm(word, v).code)
  {
  }

  lemma UncondClass(word: bv32, names: SysNames, v: Insn)
    requires word & 0x7c00_0000 == 0x1400_0000
    ensures EncodesTo(UncondBranchImm(word, v), names, word)
  {
    UncondCodes(word, v);
    UncondRoundTrip(word, v);
    UncondFamily(UncondBranchImm(word, v).code);
  }

  lemma CmpbrEncodes(d: Insn, names: SysNames)
    requires IsCmpbr(d.code)
    ensures Encode(d, names) == EncCmpbr(d)
  {
    CmpbrFamily(d.code);
  }

  lemma CmpbrRegClass(word: bv32, names: SysNames, v: Insn)
    requires word & 0x7f00_0000 == 0x7400_0000 && v.IsInvalid()
    ensures EncodesTo(CmpbrReg(word, v), names, word)
  {
    var d := CmpbrReg(word, v);
    if !d.IsInvalid() {
      CmpbrRegRoundTrip(word, v);
      CmpbrEncodes(d, names);
    }
  }

  lemma CmpbrImmClass(word: bv32, names: SysNames, v: Insn)
    requires word & 0x7f00_0000 == 0x7500_0000 && v.IsInvalid()
    ensures EncodesTo(CmpbrImm(word, v), names, word)
  {
    var d := CmpbrImm(word, v);
    if !d.IsInvalid() {
      CmpbrImmRoundTrip(word, v);
      CmpbrEncodes(d, names);
    }
  }

  lemma ExceptionClass(word: bv32, f: Gate, names: SysNames, v: Insn)
    requires word & 0xff00_0000 == 0xd400_0000 && v.IsInvalid()
    ensures EncodesTo(ExceptionGen(word, f, v), names, word)
  {
    var d := ExceptionGen(word, f, v);
    if !d.IsInvalid() {
      ExceptionRoundTrip(word, f, v);
      ExceptionCodes(Bits(word, 21, 3), Bits(word, 0, 2), Bits(word, 5, 16), f, v);
      ExceptionFamily(d.code);
    }
  }

  lemma TchangeClass(word: bv32, f: Gate, names: SysNames, v: Insn)
    requires word & 0xffc0_0000 == 0xd580_0000 && v.IsInvalid()
    ensures EncodesTo(TchangeOf(word, f, v), names, word)
  {
    var d := TchangeOf(word, f, v);
    if !d.IsInvalid() {
      TchangeRoundTrip(word, f, v);
      TchangeFamily(d.code);
    }
  }

  // --- The system block. ---

  lemma MoveClass(s: SysFields, names: SysNames, v: Insn)
    requires InRange(s)
    ensures EncodesTo(SysRegMove(s, v), names, SystemWordOf(s))
  {
    MoveCodes(s, v);
    MoveRoundTrip(s, v);
    MoveFamily(SysRegMove(s, v).code);
  }

  lemma ResultClass(s: SysFields, f: Gate, names: SysNames, v: Insn)
    requires InRange(s) && s.read && s.op0 == 0 && v.IsInvalid()
    ensures EncodesTo(SystemResult(s, f, v), names, SystemWordOf(s))
  {
    var d := SystemResult(s, f, v);
    if !d.IsInvalid() {
      ResultShape(s, f, v);
      ResultRoundTrip(s, f, v);
      ResultFamily(d.code);
    }
  }

  lemma WfxtClass(s: SysFields, f: Gate, names: SysNames, v: Insn)
    requires InRange(s) && !s.read && s.op0 == 0 && s.crn == 1 && v.IsInvalid()
    ensures EncodesTo(WfxtOf(s, f, v), names, SystemWordOf(s.(op1 := 3)))
  {
    var d := WfxtOf(s, f, v);
    if !d.IsInvalid() {
      WfxtShape(s, f, v);
      WfxtRoundTrip(s, f, v);
      WfxtFamily(d.code);
    }
  }

  lemma HintClass(s: SysFields, f: Gate, names: SysNames, v: Insn)
    requires InRange(s) && !s.read && s.op0 == 0 && s.crn == 2 && v.IsInvalid()
    ensures EncodesTo(HintOf(s, f, v), names, SystemWordOf(s.(op1 := 3)))
  {
    var d := HintOf(s, f, v);
    if !d.IsInvalid() {
      HintRoundTrip(s, f, v);
      HintSelectable(d);
      HintEncodesHints(d);
      HintFamily(d.code);
    }
  }

  lemma HintSelectable(d: Insn)
    ensures EncHint(d).Ok? ==> HintSelector(d).Ok?
  {
  }

  lemma BarrierClass(s: SysFields, f: Gate, names: SysNames, v: Insn)
    requires InRange(s) && !s.read && s.op0 == 0 && s.crn == 3 && v.IsInvalid()
    ensures EncodesTo(BarrierOf(s, f, v), names, SystemWordOf(Canonical(s)))
  {
    var d := BarrierOf(s, f, v);
    if !d.IsInvalid() {
      BarrierRoundTrip(s, f, v);
      BarrierEncodesBarriers(d);
      BarrierFamily(d.code);
    }
  }

  lemma PstateClass(s: SysFields, names: SysNames, v: Insn)
    requires InRange(s) && !s.read && s.op0 == 0 && s.crn == 4 && v.IsInvalid()
    ensures EncodesTo(MsrImmediate(s, v), names, SystemWordOf(Canonical(s)))
  {
    if s.rt == 31 {
      if IsPstateMove(s) {
        MsrImmediateIs(s, v);
        MoveClass(s, names, v);
      } else {
        PstateRoundTrip(s, v);
        MsrImmEncodesMsrImm(MsrImmediate(s, v));
        MsrImmFamily(MsrImmediate(s, v).code);
      }
    }
  }

  lemma PstateRoundTrip(s: SysFields, v: Insn)
    requires InRange(s) && !s.read && s.op0 == 0 && s.crn == 4 && s.rt == 31 && !IsPstateMove(s)
    ensures EncMsrImm(MsrImmediate(s, v)) == Ok(SystemWordOf(Canonical(s)))
  {
    if s.op1 == 3 && s.op2 == 3 {
      MsrImmediateIs(s, v);
      SmstartRoundTrip(s.crm, v);
    } else if s.op1 == 0 && s.op2 <= 2 {
      BarePstateRoundTrip(s, v);
    } else {
      NamedPstateRoundTrip(s, v);
    }
  }

  lemma NamedClass(s: SysFields, f: Gate, names: SysNames, v: Insn)
    requires InRange(s) && s.op0 == 0 && v.IsInvalid()
    ensures EncodesTo(Op0Named(s, f, v), names, SystemWordOf(Canonical(s)))
  {
    if s.read {
      ResultClass(s, f, names, v);
    } else if s.crn == 4 {
      PstateClass(s, names, v);
    } else if s.crn == 2 {
      HintClass(s, f, names, v);
    } else if s.crn == 3 {
      BarrierClass(s, f, names, v);
    } else if s.crn == 1 {
      WfxtClass(s, f, names, v);
    }
  }

  lemma GcsClass(s: SysFields, names: SysNames, v: Insn)
    requires InRange(s) && s.op0 == 1 && GcsCode(s).Some?
    ensures EncodesTo(GcsOf(s, GcsCode(s).value, v), names, SystemWordOf(CanonicalGcs(s, GcsCode(s).value)))
  {
    GcsRoundTrip(s, v);
    GcsEncodesGcs(GcsOf(s, GcsCode(s).value, v));
    GcsFamily(GcsOf(s, GcsCode(s).value, v).code);
  }

  lemma SysNamedIs(s: SysFields, f: Gate, table: SysTable, v: Insn)
    ensures RctxAlias(s).Some? ==>
              SysOf(s, f, table, v)
              == v.Set(Code.Sys).SetAlias(RctxAlias(s).value).Push(SysOp(Keyword.Rctx)).Push(XReg(false, s.rt))
    ensures RctxAlias(s).None? && GcsCode(s).Some? && f(Feature.Gcs) ==>
              SysOf(s, f, table, v) == GcsOf(s, GcsCode(s).value, v)
  {
  }

  lemma SysTableIs(s: SysFields, f: Gate, table: SysTable, v: Insn)
    requires RctxAlias(s).None? && (GcsCode(s).None? || !f(Feature.Gcs))
    ensures EntryOf(s, table).Some? ==> SysOf(s, f, table, v) == SysAlias(s, EntryOf(s, table).value, v)
    ensures EntryOf(s, table).None? ==> SysOf(s, f, table, v) == SysCanonical(s, v)
  {
  }

  lemma SysEncodes(d: Insn, names: SysNames)
    ensures d.code == Code.Sys || d.code == Code.Sysl ==> Encode(d, names) == EncSys(d, names)
    ensures d.code == Code.Sysp ==> Encode(d, names) == EncSysp(d, names)
  {
    if d.code == Code.Sys || d.code == Code.Sysl { SysFamily(d.code); }
    if d.code == Code.Sysp { SyspFamily(d.code); }
  }

  lemma SysRctxClass(s: SysFields, f: Gate, table: SysTable, names: SysNames, v: Insn)
    requires InRange(s) && s.op0 == 1 && RctxAlias(s).Some?
    ensures EncodesTo(SysOf(s, f, table, v), names, SystemWordOf(s))
  {
    var d := SysOf(s, f, table, v);
    SysNamedIs(s, f, table, v);
    SysCodes(s, f, table, v);
    SysEncodes(d, names);
    RctxRoundTrip(s, names, v);
  }

  lemma SysTableClass(s: SysFields, f: Gate, table: SysTable, names: SysNames, v: Insn)
    requires InRange(s) && s.op0 == 1 && RctxAlias(s).None? && (GcsCode(s).None? || !f(Feature.Gcs))
    requires Paired(table, names)
    ensures EncodesTo(SysOf(s, f, table, v), names, SystemWordOf(CanonicalSys(s, f, table)))
  {
    var d := SysOf(s, f, table, v);
    SysTableIs(s, f, table, v);
    SysCodes(s, f, table, v);
    SysEncodes(d, names);
    SysTableRoundTrip(s, table, names, v);
  }

  lemma SysClass(s: SysFields, f: Gate, table: SysTable, names: SysNames, v: Insn)
    requires InRange(s) && s.op0 == 1 && Paired(table, names)
    ensures EncodesTo(SysOf(s, f, table, v), names, SystemWordOf(CanonicalSys(s, f, table)))
  {
    if RctxAlias(s).Some? {
      SysRctxClass(s, f, table, names, v);
    } else if GcsCode(s).Some? && f(Feature.Gcs) {
      SysNamedIs(s, f, table, v);
      GcsClass(s, names, v);
    } else {
      SysTableClass(s, f, table, names, v);
    }
  }

  lemma PairClass(word: bv32, f: Gate, table: SysTable, names: SysNames, v: Insn)
    requires word & 0xffc0_0000 == 0xd540_0000 && v.IsInvalid() && Paired(table, names)
    ensures EncodesTo(SystemPair(word, f, table, v), names, word)
  {
    var s := FieldsOf(word);
    FieldsInRange(word);
    PairWordOfFields(word);
    if !s.read && s.op0 == 1 {
      SyspClass(s, table, names, v);
    } else {
      PairMoveClass(s, names, v);
    }
  }

  lemma SyspClass(s: SysFields, table: SysTable, names: SysNames, v: Insn)
    requires InRange(s) && !s.read && s.op0 == 1 && v.IsInvalid() && Paired(table, names)
    ensures EncodesTo(SyspOf(s, table, v), names, PairWordOf(s))
  {
    var d := SyspOf(s, table, v);
    if !d.IsInvalid() {
      SyspRoundTrip(s, table, names, v);
      SysEncodes(d, names);
    }
  }

  lemma PairMoveClass(s: SysFields, names: SysNames, v: Insn)
    requires InRange(s) && v.IsInvalid()
    ensures EncodesTo(PairMove(s, v), names, PairWordOf(s))
  {
    if s.rt & 1 == 0 {
      PairMoveRoundTrip(s, v);
      PairMoveFamily(PairMove(s, v).code);
    }
  }

  // --- The theorem. ---

  // The word with every ignored field at its fixed value.
  ghost function CanonicalFields(s: SysFields, f: Gate, table: SysTable): SysFields {
    if s.op0 == 0 && !Unallocated(s) then Canonical(s)
    else if s.op0 == 1 then CanonicalSys(s, f, table)
    else s
  }

  ghost function CanonicalWord(word: bv32, f: Gate, table: SysTable): bv32 {
    if ClassOf(word).SystemBlock? then SystemWordOf(CanonicalFields(FieldsOf(word), f, table)) else word
  }

  lemma SystemClass(word: bv32, f: Gate, table: SysTable, names: SysNames, v: Insn)
    requires ClassOf(word).SystemBlock? && v.IsInvalid() && Paired(table, names)
    ensures EncodesTo(System(word, f, table, v), names, CanonicalWord(word, f, table))
  {
    var s := FieldsOf(word);
    FieldsInRange(word);
    if s.op0 == 0 {
      if Unallocated(s) { MoveClass(s, names, v); } else { NamedClass(s, f, names, v); }
    } else if s.op0 == 1 {
      SysClass(s, f, table, names, v);
    } else {
      MoveClass(s, names, v);
    }
  }

  lemma ClassBits(word: bv32)
    ensures ClassOf(word).RegBranch? ==> word & 0xfe00_0000 == 0xd600_0000
    ensures ClassOf(word).Exceptions? ==> word & 0xff00_0000 == 0xd400_0000
    ensures ClassOf(word).SystemBlock? ==> word & 0xffc0_0000 == 0xd500_0000
    ensures ClassOf(word).PairBlock? ==> word & 0xffc0_0000 == 0xd540_0000
    ensures ClassOf(word).TchangeBlock? ==> word & 0xffc0_0000 == 0xd580_0000
    ensures ClassOf(word).CompareBlock? ==> word & 0x7e00_0000 == 0x3400_0000
    ensures ClassOf(word).TestBlock? ==> word & 0x7e00_0000 == 0x3600_0000
    ensures ClassOf(word).ImmBranch? ==> word & 0x7c00_0000 == 0x1400_0000
  {
  }

  lemma HalvesOfClasses(word: bv32)
    ensures ClassOf(word).CondBlock? ==> word & 0xff00_0000 == if Bit(word, 24) == 0 then 0x5400_0000 else 0x5500_0000
    ensures ClassOf(word).CmpbrBlock? ==> word & 0x7f00_0000 == if Bit(word, 24) == 0 then 0x7400_0000 else 0x7500_0000
  {
  }

  lemma CondBlockClass(word: bv32, f: Gate, names: SysNames, v: Insn)
    requires ClassOf(word).CondBlock? && v.IsInvalid()
    ensures EncodesTo(CondBranch(word, f, v), names, word)
  {
    HalvesOfClasses(word);
    if Bit(word, 24) == 0 { CondClass(word, f, names, v); } else { SppcClass(word, f, names, v); }
  }

  lemma CmpbrBlockClass(word: bv32, f: Gate, names: SysNames, v: Insn)
    requires ClassOf(word).CmpbrBlock? && v.IsInvalid()
    ensures EncodesTo(CmpbrOf(word, f, v), names, word)
  {
    HalvesOfClasses(word);
    if Bit(word, 24) == 0 { CmpbrRegClass(word, names, v); } else { CmpbrImmClass(word, names, v); }
  }

  lemma JumpClass(c: BranchSpec.Class, word: bv32, f: Gate, names: SysNames, v: Insn)
    requires c == ClassOf(word) && v.IsInvalid()
    ensures EncodesTo(Jump(c, word, f, v), names, word)
  {
    ClassBits(word);
    match c
    case RegBranch => RegClass(word, f, names, v);
    case CondBlock => CondBlockClass(word, f, names, v);
    case CmpbrBlock => CmpbrBlockClass(word, f, names, v);
    case _ => PlainJumpClass(c, word, f, names, v);
  }

  lemma PlainJumpClass(c: BranchSpec.Class, word: bv32, f: Gate, names: SysNames, v: Insn)
    requires c == ClassOf(word) && v.IsInvalid() && !c.RegBranch? && !c.CondBlock? && !c.CmpbrBlock?
    ensures EncodesTo(Jump(c, word, f, v), names, word)
  {
    ClassBits(word);
    match c
    case CompareBlock => CompareClass(word, names, v);
    case TestBlock => TestClass(word, names, v);
    case ImmBranch => UncondClass(word, names, v);
    case _ =>
  }

  lemma BlockClass(c: BranchSpec.Class, word: bv32, f: Gate, table: SysTable, names: SysNames, v: Insn)
    requires c == ClassOf(word) && v.IsInvalid() && Paired(table, names)
    requires c.SystemBlock? || c.PairBlock? || c.TchangeBlock?
    ensures EncodesTo(BranchIn(c, word, f, table, v), names, CanonicalWord(word, f, table))
  {
    ClassBits(word);
    match c
    case SystemBlock => SystemClass(word, f, table, names, v);
    case PairBlock => PairClass(word, f, table, names, v);
    case _ => TchangeClass(word, f, names, v);
  }

  lemma OtherClass(c: BranchSpec.Class, word: bv32, f: Gate, table: SysTable, names: SysNames, v: Insn)
    requires c == ClassOf(word) && v.IsInvalid()
    requires !(c.SystemBlock? || c.PairBlock? || c.TchangeBlock?)
    ensures EncodesTo(BranchIn(c, word, f, table, v), names, word)
  {
    if c.Exceptions? {
      ExceptionsIn(word, f, names, v);
    } else if !c.Outside? {
      JumpIn(c, word, f, table, v);
      JumpClass(c, word, f, names, v);
    }
  }

  lemma ExceptionsIn(word: bv32, f: Gate, names: SysNames, v: Insn)
    requires ClassOf(word).Exceptions? && v.IsInvalid()
    ensures EncodesTo(ExceptionGen(word, f, v), names, word)
  {
    ClassBits(word);
    ExceptionClass(word, f, names, v);
  }

  lemma JumpIn(c: BranchSpec.Class, word: bv32, f: Gate, table: SysTable, v: Insn)
    requires !(c.SystemBlock? || c.PairBlock? || c.TchangeBlock? || c.Exceptions? || c.Outside?)
    ensures BranchIn(c, word, f, table, v) == Jump(c, word, f, v)
  {
  }

  // For every word, every gate and every paired directory: what the word decodes to
  // encodes, and to the word itself up to the fields the decoder ignores.
  lemma EncodeOfDecode(word: bv32, f: Gate, table: SysTable, names: SysNames, v: Insn)
    requires v.IsInvalid() && Paired(table, names)
    ensures EncodesTo(Branch(word, f, table, v), names, CanonicalWord(word, f, table))
  {
    var c := ClassOf(word);
    if c.SystemBlock? || c.PairBlock? || c.TchangeBlock? {
      BlockClass(c, word, f, table, names, v);
    } else {
      OtherClass(c, word, f, table, names, v);
    }
  }
}
