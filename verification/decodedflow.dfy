/** What the accessors say of a decoded word: its flow of control, its extension and its
    condition are those of its row of the encoding table. */
module DecodedFlow {
  import opened Wrappers
  import opened Ints
  import opened Features
  import opened Isa
  import opened Instructions
  import opened BranchSpec
  import opened EncodingTable
  import opened TableLaws
  import opened DecodedTable
  import opened Info
  import DecodeTree
  import TableSystem
  import Gates
  import RoundTrip

  // The accessors agree with the row.
  predicate Agrees(r: Row) { FlowControlFor(r.mnemonic, r.code) == r.flow && FeatureOf(r.code) == r.feature }

  predicate AllAgree(row: Option<Row>) { row.Some? ==> Agrees(row.value) }

  // --- Branches and exceptions. ---

  // What the encodings with a name of their own do, and under which extension.
  predicate Transfers(c: Code, flow: FlowControl, feature: Feature) {
    || (c.Br? && flow.IndirectBranch? && feature.Base?) || (c.Blr? && flow.IndirectCall? && feature.Base?)
    || ((c.Ret? || c.Eret? || c.Drps?) && flow.Return? && feature.Base?)
    || ((c.Tbz? || c.Tbnz?) && flow.ConditionalBranch? && feature.Base?)
    || TransfersSigned(c, flow, feature)
  }

  predicate TransfersSigned(c: Code, flow: FlowControl, feature: Feature) {
    || ((c.Braa? || c.Brab? || c.Braaz? || c.Brabz?) && flow.IndirectBranch? && feature.PAuth?)
    || ((c.Blraa? || c.Blrab? || c.Blraaz? || c.Blrabz?) && flow.IndirectCall? && feature.PAuth?)
    || ((c.Retaa? || c.Retab? || c.Eretaa? || c.Eretab?) && flow.Return? && feature.PAuth?)
    || ((c.Retaasppcr? || c.Retabsppcr?) && flow.Return? && feature.PauthLr?)
  }

  lemma TransfersAgree(r: Row)
    requires r.mnemonic == Own(r.code) && Transfers(r.code, r.flow, r.feature)
    ensures Agrees(r)
  {
  }

  predicate AllTransfer(row: Option<Row>) {
    row.Some? ==> var r := row.value; r.mnemonic == Own(r.code) && Transfers(r.code, r.flow, r.feature)
  }

  lemma RegisterTransfers(word: bv32, f: Gate)
    ensures AllTransfer(RegisterRows(word, f))
  {
    SignedReturnTransfers(word, f);
  }

  lemma SignedReturnTransfers(word: bv32, f: Gate)
    ensures AllTransfer(SignedReturnRows(word, f))
  {
  }

  lemma TestTransfers(word: bv32, ip: U64)
    ensures AllTransfer(TestRows(word, ip))
  {
  }

  lemma TransferRowsAgree(row: Option<Row>)
    requires AllTransfer(row)
    ensures AllAgree(row)
  {
    if row.Some? { TransfersAgree(row.value); }
  }

  predicate IsRaised(c: Code) {
    c.Svc? || c.Hvc? || c.Smc? || c.Brk? || c.Hlt? || c.Dcps1? || c.Dcps2? || c.Dcps3?
  }

  lemma RaisedAgree(c: Code, ops: seq<Operand>)
    requires IsRaised(c)
    ensures AllAgree(Raises(c, ops))
  {
  }

  lemma GatedExceptionsAgree(word: bv32, f: Gate)
    requires word & 0x0060_0000 == 0x0060_0000
    ensures AllAgree(ExceptionRows(word, f))
  {
  }

  lemma ExceptionsAgree(word: bv32, f: Gate)
    ensures AllAgree(ExceptionRows(word, f))
  {
    if word & 0x0060_0000 == 0x0060_0000 {
      GatedExceptionsAgree(word, f);
    } else {
      forall c: Code, ops | IsRaised(c)
        ensures AllAgree(Raises(c, ops))
      {
        RaisedAgree(c, ops);
      }
    }
  }

  lemma TchangeAgree(word: bv32, f: Gate)
    ensures AllAgree(TchangeRows(word, f))
  {
    ChangesAgree(Code.TchangefReg, Mnemonic.Tchangef);
    ChangesAgree(Code.TchangebReg, Mnemonic.Tchangeb);
    ChangesAgree(Code.TchangefImm, Mnemonic.Tchangef);
    ChangesAgree(Code.TchangebImm, Mnemonic.Tchangeb);
  }

  lemma ChangesAgree(c: Code, m: Mnemonic)
    requires c.TchangefReg? || c.TchangebReg? || c.TchangefImm? || c.TchangebImm?
    requires m.Tchangef? || m.Tchangeb?
    ensures FlowControlFor(m, c) == Next && FeatureOf(c) == Feature.Tchange
  {
  }

  lemma ConditionalAgree(word: bv32, ip: U64, f: Gate)
    ensures AllAgree(ConditionalRows(word, ip, f))
  {
  }

  lemma CompareAgree(word: bv32, ip: U64)
    ensures AllAgree(CompareRows(word, ip))
  {
  }

  lemma JumpAgree(word: bv32, ip: U64)
    ensures AllAgree(JumpRows(word, ip))
  {
  }

  lemma FusedAgree(word: bv32, ip: U64, f: Gate)
    ensures AllAgree(FusedRows(word, ip, f))
  {
  }

  // --- The system block. ---

  lemma PlainHintsAgree(n: bv32)
    ensures AllAgree(PlainHints(n))
  {
  }

  predicate IsSigningName(m: Mnemonic) {
    || m.Xpaclri? || m.Pacia1716? || m.Pacib1716? || m.Autia1716? || m.Autib1716? || m.Paciaz? || m.Paciasp?
    || m.Pacibz? || m.Pacibsp? || m.Autiaz? || m.Autiasp? || m.Autibz? || m.Autibsp? || m.Pacm?
  }

  lemma SigningAgrees(m: Mnemonic)
    requires IsSigningName(m)
    ensures Agrees(Hinted(m))
  {
  }

  lemma SigningHintsNamed(n: bv32)
    requires SigningHints(n).Some?
    ensures var r := SigningHints(n).value; IsSigningName(r.mnemonic) && r == Hinted(r.mnemonic)
  {
  }

  lemma SigningHintsAgree(n: bv32)
    ensures AllAgree(SigningHints(n))
  {
    if SigningHints(n).Some? {
      SigningHintsNamed(n);
      SigningAgrees(SigningHints(n).value.mnemonic);
    }
  }

  lemma StashHintsAgree(n: bv32)
    ensures AllAgree(StashHints(n))
  {
    forall c: Code, ops | c.Stshh? || c.Shuh? || c.Stcph?
      ensures Agrees(Plain(c, ops, Feature.Pcdphint))
    {
      StashAgrees(c, ops);
    }
  }

  lemma StashAgrees(c: Code, ops: seq<Operand>)
    requires c.Stshh? || c.Shuh? || c.Stcph?
    ensures Agrees(Plain(c, ops, Feature.Pcdphint))
  {
  }

  // The other hints.
  predicate IsHintName(c: Code) {
    c.Dgh? || c.Psb? || c.Tsb? || c.Gcsb? || c.Clrbhb? || c.Chkfeat? || c.Bti? || c.HintGeneric?
  }

  function HintFeature(c: Code): Feature {
    if c.Dgh? then Feature.Dgh
    else if c.Tsb? then Feature.Trf
    else if c.Gcsb? then Feature.Gcs
    else if c.Clrbhb? then Feature.Clrbhb
    else if c.Chkfeat? then Feature.Chk
    else Feature.Base
  }

  lemma HintNamesAgree(c: Code, ops: seq<Operand>)
    requires IsHintName(c)
    ensures Agrees(Plain(c, ops, HintFeature(c)))
  {
  }

  lemma OtherHintsNamed(n: bv32, f: Gate, r: Row)
    requires r == HintRow(n, f)
    requires PlainHints(n).None? && !(f(Feature.PAuth) && SigningHints(n).Some?)
    requires !(f(Feature.Pcdphint) && StashHints(n).Some?)
    ensures IsHintName(r.code) && r == Plain(r.code, r.ops, HintFeature(r.code))
  {
  }

  lemma HintAgrees(n: bv32, f: Gate)
    ensures Agrees(HintRow(n, f))
  {
    PlainHintsAgree(n);
    SigningHintsAgree(n);
    StashHintsAgree(n);
    if PlainHints(n).None? && !(f(Feature.PAuth) && SigningHints(n).Some?)
       && !(f(Feature.Pcdphint) && StashHints(n).Some?) {
      var r := HintRow(n, f);
      OtherHintsNamed(n, f, r);
      HintNamesAgree(r.code, r.ops);
    }
  }

  // The remaining rows pass control on.
  predicate IsQuiet(c: Code, feature: Feature) {
    || ((c.Clrex? || c.Dsb? || c.Dmb? || c.Isb? || c.Sb? || c.Cfinv? || c.Xaflag? || c.Axflag?) && feature.Base?)
    || (c.Tcommit? && feature.Tme?) || ((c.Smstart? || c.Smstop?) && feature.Sme?)
    || IsQuietMove(c, feature)
  }

  predicate IsQuietMove(c: Code, feature: Feature) {
    || ((c.MsrImm? || c.MsrReg? || c.Mrs? || c.Sys? || c.Sysl? || c.Udf?) && feature.Base?)
    || ((c.Tstart? || c.Ttest?) && feature.Tme?) || ((c.Wfet? || c.Wfit?) && feature.Wfxt?)
    || ((c.Mrrs? || c.Msrr? || c.Sysp?) && feature.D128?)
    || IsQuietCluster(c, feature)
  }

  predicate IsQuietCluster(c: Code, feature: Feature) {
    || ((c.Gcspushx? || c.Gcspopcx? || c.Gcspopx? || c.Gcspushm? || c.Gcspopm? || c.Gcsss1? || c.Gcsss2?)
        && feature.Gcs?)
    || (c.AppleCode? && (c.apple.Genter? || c.apple.Gexit?) && feature.Gxf?)
    || (c.AppleCode? && !c.apple.Genter? && !c.apple.Gexit? && feature.AppleAmx?)
  }

  predicate IsQuietName(m: Mnemonic, c: Code) { m == Own(c) || IsAlias(m) }

  // The names that SYS, SYSP, DSB and MSR are written under.
  predicate IsAlias(m: Mnemonic) {
    || m.Msr? || m.Ssbb? || m.Pssbb? || m.Cfp? || m.Dvp? || m.Cpp? || m.Tlbip? || m.Tlbi? || m.Gicr? || m.Apas?
    || m.Trcit? || m.Ic? || m.Dc? || m.At? || m.Plbi? || m.Mlbi? || m.Gic? || m.Gsb? || m.Brb? || m.Cosp?
  }

  lemma QuietAgree(r: Row)
    requires IsQuiet(r.code, r.feature) && IsQuietName(r.mnemonic, r.code) && r.flow == Next
    ensures Agrees(r)
  {
    QuietFlow(r.mnemonic, r.code, r.feature);
    QuietFeature(r.code, r.feature);
  }

  lemma QuietFlow(m: Mnemonic, c: Code, feature: Feature)
    requires IsQuiet(c, feature) && IsQuietName(m, c)
    ensures FlowControlFor(m, c) == Next
  {
    if IsAlias(m) {
      AliasFlow(m, c);
    } else if IsQuietCluster(c, feature) {
      ClusterFlow(c, feature);
    } else if IsQuietMove(c, feature) {
      MoveFlow(c, feature);
    }
  }

  lemma AliasFlow(m: Mnemonic, c: Code)
    requires IsAlias(m)
    ensures FlowControlFor(m, c) == Next
  {
    assert OwnerOf(m) == Code.Invalid;
    NoFlow();
  }

  lemma ClusterFlow(c: Code, feature: Feature)
    requires IsQuietCluster(c, feature)
    ensures FlowControlFor(Own(c), c) == Next
  {
  }

  lemma MoveFlow(c: Code, feature: Feature)
    requires IsQuietMove(c, feature) && !IsQuietCluster(c, feature)
    ensures FlowControlFor(Own(c), c) == Next
  {
  }

  lemma QuietFeature(c: Code, feature: Feature)
    requires IsQuiet(c, feature)
    ensures FeatureOf(c) == feature
  {
    if c.AppleCode? || c.Smstart? || c.Smstop? || c.Udf? {
    } else if feature.Base? {
      if Gates.IsBaseSystem(c) { Gates.BaseSystemFeature(c); } else { Gates.BaseMoveFeature(c); }
    } else if feature.Tme? {
      Gates.TmeFeature(c);
    } else if feature.Wfxt? {
      Gates.WfxtFeature(c);
    } else if feature.D128? {
      Gates.PairFeature(c);
    } else {
      QuietGcs(c);
    }
  }

  lemma QuietGcs(c: Code)
    requires IsQuietCluster(c, Feature.Gcs)
    ensures FeatureOf(c) == Feature.Gcs
  {
    if c.Gcspushx? || c.Gcspopx? || c.Gcspopcx? {
      Gates.GcsBareFeature(c);
    } else if c.Gcspushm? || c.Gcspopm? {
      Gates.GcsRegFeature(c);
    } else {
      Gates.GcsSwitchFeature(c);
    }
  }

  predicate AllQuiet(row: Option<Row>) {
    row.Some? ==>
      var r := row.value; IsQuiet(r.code, r.feature) && IsQuietName(r.mnemonic, r.code) && r.flow == Next
  }

  lemma BarriersQuiet(word: bv32, f: Gate)
    ensures AllQuiet(BarrierRows(word, f))
  {
    MovesQuiet(word);
  }

  lemma MovesQuiet(word: bv32)
    ensures AllQuiet(Moved(word))
  {
  }

  lemma PstateQuiet(word: bv32)
    ensures AllQuiet(PstateRows(word))
  {
    MovesQuiet(word);
  }

  lemma GcsQuiet(word: bv32)
    ensures AllQuiet(GcsRows(word))
  {
  }

  lemma AmxQuiet(word: bv32)
    ensures AllQuiet(AmxRows(word))
  {
  }

  // Every row of the directory is named after an operation.
  ghost predicate OperationsOnly(table: SysTable) {
    forall read: bool, op1: bv32, crn: bv32, crm: bv32, op2: bv32, t: SysEntry
      | table(read, op1, crn, crm, op2) == Some(t) :: IsAlias(t.mnem)
  }

  lemma SysQuiet(word: bv32, f: Gate, table: SysTable)
    requires OperationsOnly(table)
    ensures AllQuiet(SysRows(word, f, table))
  {
    GcsQuiet(word);
  }

  lemma PairQuiet(word: bv32, f: Gate, table: SysTable)
    ensures AllQuiet(PairRows(word, f, table))
  {
  }

  lemma ReservedQuiet(word: bv32, f: Gate)
    ensures AllQuiet(ReservedRows(word, f))
  {
    AmxQuiet(word);
  }

  lemma QuietRowsAgree(row: Option<Row>)
    requires AllQuiet(row)
    ensures AllAgree(row)
  {
    if row.Some? { QuietAgree(row.value); }
  }

  lemma NamedAgree(word: bv32, f: Gate)
    ensures AllAgree(NamedRows(word, f))
  {
    if word & 0xfff8_f01f == 0xd500_201f {
      HintAgrees((word >> 5) & 0x7f, f);
      TableSystem.BlockRows(word, f);
    } else {
      NamedQuiet(word, f);
      QuietRowsAgree(NamedRows(word, f));
    }
  }

  lemma NamedQuiet(word: bv32, f: Gate)
    requires word & 0xfff8_f01f != 0xd500_201f
    ensures AllQuiet(NamedRows(word, f))
  {
    BarriersQuiet(word, f);
    PstateQuiet(word);
    MovesQuiet(word);
  }

  lemma SystemAgree(word: bv32, ip: U64, f: Gate, table: SysTable)
    requires OperationsOnly(table) && word & 0xffc0_0000 == 0xd500_0000
    ensures AllAgree(Rows(word, ip, f, table))
  {
    NamedAgree(word, f);
    SysQuiet(word, f, table);
    MovesQuiet(word);
    QuietRowsAgree(SysRows(word, f, table));
    QuietRowsAgree(Moved(word));
  }

  lemma RowsAgree(word: bv32, ip: U64, f: Gate, table: SysTable)
    requires OperationsOnly(table)
    ensures AllAgree(Rows(word, ip, f, table))
  {
    var c := ClassOf(word);
    if c.SystemBlock? {
      RoundTrip.ClassBits(word);
      SystemAgree(word, ip, f, table);
    } else if c.PairBlock? || c.Exceptions? || c.TchangeBlock? {
      BlockAgree(c, word, ip, f, table);
    } else if c.Outside? {
      OutsideRows(word, ip, f, table);
      ReservedQuiet(word, f);
      QuietRowsAgree(ReservedRows(word, f));
    } else {
      BranchesAgree(c, word, ip, f, table);
    }
  }

  lemma BlockAgree(c: BranchSpec.Class, word: bv32, ip: U64, f: Gate, table: SysTable)
    requires c == ClassOf(word) && (c.PairBlock? || c.Exceptions? || c.TchangeBlock?)
    ensures AllAgree(Rows(word, ip, f, table))
  {
    RoundTrip.ClassBits(word);
    DecodedTable.BlockRows(word, ip, f, table);
    if c.PairBlock? {
      PairQuiet(word, f, table);
      QuietRowsAgree(PairRows(word, f, table));
    } else if c.Exceptions? {
      ExceptionsAgree(word, f);
    } else {
      TchangeAgree(word, f);
    }
  }

  lemma BranchesAgree(c: BranchSpec.Class, word: bv32, ip: U64, f: Gate, table: SysTable)
    requires c == ClassOf(word)
    requires !(c.SystemBlock? || c.PairBlock? || c.Exceptions? || c.TchangeBlock? || c.Outside?)
    ensures AllAgree(Rows(word, ip, f, table))
  {
    RoundTrip.ClassBits(word);
    LabelBits(word);
    LabelRows(word, ip, f, table);
    CompareBlockRows(word, ip, f, table);
    if c.RegBranch? {
      RegisterBlockRows(word, ip, f, table);
      RegisterTransfers(word, f);
      TransferRowsAgree(RegisterRows(word, f));
    } else if c.CondBlock? {
      ConditionalAgree(word, ip, f);
    } else if c.CompareBlock? {
      CompareAgree(word, ip);
    } else if c.TestBlock? {
      TestTransfers(word, ip);
      TransferRowsAgree(TestRows(word, ip));
    } else if c.CmpbrBlock? {
      FusedAgree(word, ip, f);
    } else {
      JumpAgree(word, ip);
    }
  }

  // What the accessors and the access report say is what the row says.
  predicate Tells(d: Insn, row: Option<Row>, t: Tables) {
    if row.None? then InfoOf(d, t).flow == Next
    else d.FlowControlOf() == InfoOf(d, t).flow == row.value.flow && FeatureOf(d.code) == row.value.feature
  }

  lemma RowTells(d: Insn, r: Row, t: Tables)
    requires d.code == r.code && d.mnemonic == r.mnemonic && Agrees(r)
    ensures Tells(d, Some(r), t)
  {
  }

  lemma NothingTells(d: Insn, t: Tables)
    requires d.IsInvalid() && d.mnemonic == Own(Code.Invalid)
    ensures Tells(d, None, t)
  {
    ReportsFlow(d, t);
    NoFlow();
  }

  lemma ReportsFlow(d: Insn, t: Tables)
    ensures InfoOf(d, t).flow == d.FlowControlOf()
  {
  }

  lemma NoFlow()
    ensures OwnFlow(Code.Invalid) == Next
  {
  }

  // For every word decoded here, the flow of control and the extension are the row's.
  lemma DecodedFlowIsRow(word: bv32, ip: U64, f: FeatureSet, table: SysTable, others: DecodeTree.Others, t: Tables)
    requires DecodeTree.Modelled(word) && OperationsOnly(table)
    ensures Tells(DecodeTree.DecodeWord(word, ip, f, table, others), Rows(word, ip, f.Has, table), t)
  {
    var row := Rows(word, ip, f.Has, table);
    DecoderIsTable(word, ip, f, table, others);
    RowsAgree(word, ip, f.Has, table);
    if row.Some? {
      RowTells(Outcome(NewInvalid(word, ip), row), row.value, t);
    } else {
      NothingTells(NewInvalid(word, ip), t);
    }
  }

  // --- Conditions. ---

  // The sixteen conditions, by their number.
  lemma ConditionNames()
    ensures ConditionFromU4(0) == Condition.Eq && ConditionFromU4(1) == Condition.Ne
    ensures ConditionFromU4(2) == Condition.Cs && ConditionFromU4(3) == Condition.Cc
    ensures ConditionFromU4(4) == Condition.Mi && ConditionFromU4(5) == Condition.Pl
    ensures ConditionFromU4(6) == Condition.Vs && ConditionFromU4(7) == Condition.Vc
    ensures ConditionFromU4(8) == Condition.Hi && ConditionFromU4(9) == Condition.Ls
    ensures ConditionFromU4(10) == Condition.Ge && ConditionFromU4(11) == Condition.Lt
    ensures ConditionFromU4(12) == Condition.Gt && ConditionFromU4(13) == Condition.Le
    ensures ConditionFromU4(14) == Condition.Al && ConditionFromU4(15) == Condition.Nv
  {
  }

  // The comparison a fused compare-and-branch makes: the field cc, or its mirror image
  // where the second operand is an immediate.
  function FusedBy(word: bv32): Condition {
    var cc := word & 0x01e0_0000;
    if cc == 0x0000_0000 then Condition.Gt
    else if cc == 0x0020_0000 then Condition.Ge
    else if cc == 0x0040_0000 then Condition.Hi
    else if cc == 0x0060_0000 then Condition.Cs
    else if cc == 0x00c0_0000 then Condition.Eq
    else if cc == 0x00e0_0000 then Condition.Ne
    else if cc == 0x0100_0000 then Condition.Gt
    else if cc == 0x0120_0000 then Condition.Lt
    else if cc == 0x0140_0000 then Condition.Hi
    else if cc == 0x0160_0000 then Condition.Cc
    else if cc == 0x01c0_0000 then Condition.Eq
    else Condition.Ne
  }

  lemma FusedRegisterCondition(word: bv32)
    requires FusedRegister(word).Some?
    ensures FusedCondition(Own(FusedRegister(word).value)) == Some(FusedBy(word))
  {
  }

  lemma FusedImmediateCondition(word: bv32)
    requires FusedImmediate(word).Some?
    ensures FusedCondition(Own(FusedImmediate(word).value)) == Some(FusedBy(word))
  {
  }

  lemma ConditionFirst(d: Insn, c: Condition)
    requires |d.ops| > 0 && d.ops[0] == Operand.Cond(c)
    ensures d.ConditionOf() == Some(c)
  {
  }

  // The condition that a decoded branch tests is the one its word names.
  lemma BranchTests(word: bv32, f: Gate, table: SysTable, v: Insn)
    requires word & 0xff00_0000 == 0x5400_0000 && Branch(word, f, table, v) != v
    ensures Branch(word, f, table, v).ConditionOf() == Some(ConditionFromU4(word & 15))
  {
    BranchIs(word, f, table, v);
    LabelRows(word, v.ip, f, table);
    ConditionFirst(Branch(word, f, table, v), ConditionFromU4(word & 15));
  }

  lemma NoConditionFirst(ops: seq<Operand>)
    requires |ops| == 3 && !ops[0].Cond? && !ops[1].Cond? && !ops[2].Cond?
    ensures FirstCond(ops) == None
  {
    assert FirstCond(ops) == FirstCond(ops[1..]) == FirstCond(ops[1..][1..]) == FirstCond(ops[1..][1..][1..]);
  }

  lemma FusedShape(word: bv32, ip: U64, f: Gate, row: Option<Row>)
    requires row == FusedRows(word, ip, f) && row.Some?
    ensures var r := row.value;
            && |r.ops| == 3 && !r.ops[0].Cond? && !r.ops[1].Cond? && !r.ops[2].Cond?
            && FusedCondition(r.mnemonic) == Some(FusedBy(word))
  {
    if FusedRegister(word).Some? { FusedRegisterCondition(word); } else { FusedImmediateCondition(word); }
  }

  lemma FusedTests(word: bv32, f: Gate, table: SysTable, v: Insn)
    requires word & 0x7e00_0000 == 0x7400_0000 && Branch(word, f, table, v) != v
    ensures Branch(word, f, table, v).ConditionOf() == Some(FusedBy(word))
  {
    var d, row := Branch(word, f, table, v), FusedRows(word, v.ip, f);
    BranchIs(word, f, table, v);
    LabelRows(word, v.ip, f, table);
    assert d == Outcome(v, row);
    FusedShape(word, v.ip, f, row);
    NoConditionFirst(d.ops);
  }
}
