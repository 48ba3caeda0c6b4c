/** What the encoder accepts: nothing that its fields cannot hold, and what it says of the
    rest. */
module EncoderLaws {
  import opened Wrappers
  import opened Ints
  import opened Fields
  import opened Isa
  import opened Instructions
  import opened Encoding
  import opened BranchEncode
  import Apple
  import DecodeTree

  // The number that an operand stands for: its bits, for a signed one.
  function Reading(op: Operand): Option<U64> {
    if op.ImmUnsigned? || op.ImmLogical? then Some(op.value)
    else if op.ImmSigned? then Some(if op.signed >= 0 then op.signed else op.signed + 0x1_0000_0000_0000_0000)
    else if op.ShiftAmount? && op.amount <= 255 then Some(op.amount)
    else None
  }

  // An operand that stands for a number, below a limit.
  predicate Below(d: Insn, slot: nat, limit: nat) { Reading(d.Op(slot)).Some? ==> Reading(d.Op(slot)).value < limit }

  // The same for what `as u32` keeps of the number.
  predicate LowBelow(d: Insn, slot: nat, limit: bv32) {
    Reading(d.Op(slot)).Some? ==> Low32(Reading(d.Op(slot)).value) < limit
  }

  // Every number is below what its field holds.
  predicate NumbersFit(d: Insn) {
    var c := d.code;
    if c.Svc? || c.Hvc? || c.Smc? || c.Brk? || c.Hlt? || c.Tcancel? || c.Udf? then Below(d, 0, 0x1_0000)
    else if c.Dcps1? || c.Dcps2? || c.Dcps3? then d.ops == [] || Below(d, 0, 0x1_0000)
    else if c.Tbz? || c.Tbnz? then LowBelow(d, 1, 64)
    else if IsCmpbr(c) then d.Op(1).Reg? || Below(d, 1, 64)
    else if c.TchangefImm? || c.TchangebImm? then Below(d, 1, 128)
    else if c.HintGeneric? then d.mnemonic != Own(Code.HintGeneric) || LowBelow(d, 0, 128)
    else if c.MsrImm? then LowBelow(d, 1, 16)
    else if c == Code.AppleCode(Genter) then Below(d, 0, 32)
    else true
  }

  // An even register and its neighbour, or twice the zero register.
  predicate IsPair(op: Operand) {
    op.RegPair? ==>
      var lo, hi := Number(op.first), Number(op.second);
      (lo == 31 && hi == 31) || (lo & 1 == 0 && hi == lo + 1)
  }

  predicate PairsFit(d: Insn) {
    if d.code.Mrrs? then IsPair(d.Op(0))
    else if d.code.Msrr? then IsPair(d.Op(1))
    else if d.code.Sysp? then (if d.mnemonic == Mnemonic.Tlbip then IsPair(d.Op(1)) else IsPair(d.Op(4)))
    else true
  }

  // The field of the label, for a branch to one.
  function LabelSpan(c: Code): Option<(nat, Span)> {
    if c.BUncond? || c.BlImm? then Some((0, Imm26))
    else if c.BCond? || c.BcCond? || c.Cbz32? || c.Cbz64? || c.Cbnz32? || c.Cbnz64? then Some((1, Imm19))
    else if c.Tbz? || c.Tbnz? then Some((2, Imm14))
    else if IsCmpbr(c) then Some((2, Imm9))
    else None
  }

  predicate LabelFits(d: Insn) {
    match LabelSpan(d.code)
    case Some((slot, s)) => d.Op(slot).Label? ==> Reachable(d.Op(slot).target, d.ip, s)
    case None =>
      (d.code.Retaasppc? || d.code.Retabsppc?) && d.Op(0).Label? ==>
        var back := Sub(d.ip, d.Op(0).target); back % 4 == 0 && back <= 0x3_fffc
  }

  predicate Fits(d: Insn) { NumbersFit(d) && PairsFit(d) && LabelFits(d) }

  // --- Family by family: what encodes fits, and only a misfit is an invalid immediate. ---

  predicate Judges(e: Encoded, fits: bool) {
    if e.Ok? then fits else OfOperands(e) && (e == Err(InvalidImmediate) ==> !fits)
  }

  predicate OfOperands(e: Encoded) { e.Ok? || e == Err(InvalidOperand) || e == Err(InvalidImmediate) }

  // At worst an operand of the wrong kind.
  predicate Reads(e: Encoded) { e.Ok? || e == Err(InvalidOperand) }

  lemma ReachIs(d: Insn, slot: nat, s: Span)
    ensures RelField(d, slot, s).Ok? ==> Reachable(d.Op(slot).target, d.ip, s)
    ensures RelField(d, slot, s) == Err(InvalidImmediate) <==>
            d.Op(slot).Label? && !Reachable(d.Op(slot).target, d.ip, s)
    ensures RelField(d, slot, s).Err? ==> RelField(d, slot, s) == Err(InvalidImmediate)
                                          || RelField(d, slot, s) == Err(InvalidOperand)
  {
    if d.Op(slot).Label? { ExactReach(d.Op(slot).target, d.ip, s); }
  }

  lemma JumpJudged(d: Insn)
    requires IsUncondCode(d.code) || IsCondCode(d.code) || IsCompareCode(d.code)
    ensures IsUncondCode(d.code) ==> Judges(EncUncondBranchImm(d), Fits(d))
    ensures IsCondCode(d.code) ==> Judges(EncCondBranch(d), Fits(d))
    ensures IsCompareCode(d.code) ==> Judges(EncCompareBranch(d), Fits(d))
  {
    ReachIs(d, 0, Imm26);
    ReachIs(d, 1, Imm19);
  }

  lemma ReadingIs(d: Insn, slot: nat)
    ensures ImmU(d, slot) == if Reading(d.Op(slot)).Some? then Ok(Reading(d.Op(slot)).value) else Err(InvalidOperand)
  {
  }

  lemma SppcJudged(d: Insn)
    requires d.code.Retaasppc? || d.code.Retabsppc?
    ensures Judges(EncSppc(d), Fits(d))
  {
  }

  lemma ExceptionFits(d: Insn)
    requires IsExceptionCode(d.code)
    ensures Fits(d) <==> d.code.Tenter? || ((d.code.Dcps1? || d.code.Dcps2? || d.code.Dcps3?) && d.ops == [])
                         || Below(d, 0, 0x1_0000)
  {
  }

  lemma TenterNever(d: Insn)
    ensures Reads(EncTenter(d))
  {
  }

  lemma DcpsJudged(d: Insn, ll: bv32)
    ensures Judges(EncDcps(d, ll), d.ops == [] || Below(d, 0, 0x1_0000))
  {
    Imm16Judged(d, 5, ll);
  }

  lemma ExceptionJudged(d: Insn)
    requires IsExceptionCode(d.code)
    ensures Judges(EncException(d), Fits(d))
  {
    var s := ExceptionSelector(d.code);
    ExceptionFits(d);
    TenterNever(d);
    DcpsJudged(d, s.1);
    Imm16Judged(d, s.0, s.1);
  }

  lemma Imm16Judged(d: Insn, opc: bv32, ll: bv32)
    ensures Judges(EncImm16(d, opc, ll), Below(d, 0, 0x1_0000))
  {
    ReadingIs(d, 0);
  }

  lemma TchangeJudged(d: Insn)
    requires IsTchange(d.code)
    ensures Judges(EncTchange(d), Fits(d))
  {
    ReadingIs(d, 1);
  }

  lemma UdfJudged(d: Insn)
    requires d.code.Udf?
    ensures Judges(EncUdf(d), Fits(d))
  {
    ReadingIs(d, 0);
  }

  lemma GenterJudged(d: Insn)
    requires d.code.AppleCode?
    ensures Judges(Apple.EncodeApple(d), Fits(d))
  {
  }

  lemma TestJudged(d: Insn)
    requires IsTestCode(d.code)
    ensures Judges(EncTestBranch(d), Fits(d))
  {
    ReadingIs(d, 1);
    ReachIs(d, 2, Imm14);
  }

  lemma FusedFits(d: Insn)
    requires IsCmpbr(d.code)
    ensures Fits(d) <==> (d.Op(1).Reg? || Below(d, 1, 64))
                         && (d.Op(2).Label? ==> Reachable(d.Op(2).target, d.ip, Imm9))
  {
  }

  lemma FusedRegisterNever(d: Insn, size: bv32, cc: Option<bv32>, imm9: bv32)
    ensures Reads(EncCmpbrReg(d, size, cc, imm9))
  {
  }

  lemma FusedImmediateJudged(d: Insn, cc: Option<bv32>, imm9: bv32)
    ensures Judges(EncCmpbrImm(d, cc, imm9), Below(d, 1, 64))
  {
    ReadingIs(d, 1);
  }

  lemma FusedJudged(d: Insn)
    requires IsCmpbr(d.code)
    ensures Judges(EncCmpbr(d), Fits(d))
  {
    FusedFits(d);
    ReachIs(d, 2, Imm9);
    if RelField(d, 2, Imm9).Ok? {
      var facets, imm9 := CmpbrFacets(d.code), Low32(RelField(d, 2, Imm9).value);
      FusedRegisterNever(d, facets.0, facets.1, imm9);
      FusedImmediateJudged(d, facets.2, imm9);
    }
  }

  lemma HintFits(d: Insn)
    requires IsHintCode(d.code)
    ensures Fits(d) <==> (d.code.HintGeneric? && d.mnemonic == Own(Code.HintGeneric) ==> LowBelow(d, 0, 128))
  {
  }

  lemma HintReads(d: Insn)
    requires IsHintCode(d.code)
    ensures Reads(HintSelector(d))
  {
  }

  lemma HintNumbers(d: Insn)
    requires HintSelector(d).Ok? && HintSelector(d).value > 0x7f
    ensures d.code.HintGeneric? && d.mnemonic == Own(Code.HintGeneric) && HintSelector(d) == ImmU32(d, 0)
  {
    if d.code.HintGeneric? { AliasNumbers(d); } else { NamedNumbers(d); }
  }

  lemma NamedNumbers(d: Insn)
    requires !d.code.HintGeneric? && HintSelector(d).Ok?
    ensures HintSelector(d).value <= 0x7f
  {
  }

  lemma AliasNumbers(d: Insn)
    requires d.code.HintGeneric? && HintSelector(d).Ok? && HintSelector(d).value > 0x7f
    ensures d.mnemonic == Own(Code.HintGeneric) && HintSelector(d) == ImmU32(d, 0)
  {
  }

  lemma HintJudged(d: Insn)
    requires IsHintCode(d.code)
    ensures Judges(EncHint(d), Fits(d))
  {
    ReadingIs(d, 0);
    HintFits(d);
    HintReads(d);
    if HintSelector(d).Ok? && HintSelector(d).value > 0x7f { HintNumbers(d); }
  }

  lemma MsrImmFits(d: Insn)
    requires IsMsrImmCode(d.code)
    ensures Fits(d) <==> (d.code.MsrImm? ==> LowBelow(d, 1, 16))
  {
  }

  lemma FieldJudged(d: Insn)
    ensures Judges(EncPstateField(d), LowBelow(d, 1, 16))
  {
    ReadingIs(d, 1);
  }

  lemma MsrImmJudged(d: Insn)
    requires IsMsrImmCode(d.code)
    ensures Judges(EncMsrImm(d), Fits(d))
  {
    MsrImmFits(d);
    FieldJudged(d);
  }

  lemma PairJudged(d: Insn, slot: nat)
    ensures RegPairBase(d, slot).Ok? ==> IsPair(d.Op(slot))
    ensures Reads(RegPairBase(d, slot))
  {
  }

  lemma PairMoveJudged(d: Insn)
    requires IsPairCode(d.code)
    ensures Judges(EncSysRegPair(d), Fits(d))
  {
    PairJudged(d, 0);
    PairJudged(d, 1);
  }

  lemma SyspFits(d: Insn)
    requires d.code.Sysp?
    ensures Fits(d) <==> if d.mnemonic == Mnemonic.Tlbip then IsPair(d.Op(1)) else IsPair(d.Op(4))
  {
  }

  lemma TlbipJudged(d: Insn, names: SysNames)
    ensures Judges(EncTlbip(d, names), IsPair(d.Op(1)))
  {
    PairJudged(d, 1);
  }

  lemma SyspFieldsJudged(d: Insn)
    ensures Judges(EncSyspFields(d), IsPair(d.Op(4)))
  {
    PairJudged(d, 4);
  }

  lemma SyspJudged(d: Insn, names: SysNames)
    requires d.code.Sysp?
    ensures Judges(EncSysp(d, names), Fits(d))
  {
    SyspFits(d);
    TlbipJudged(d, names);
    SyspFieldsJudged(d);
  }

  // --- The families without a field that can be too narrow. ---

  predicate IsUnlimited(c: Code) {
    IsGcsCode(c) || IsWfxtCode(c) || IsBarrierCode(c) || IsMoveCode(c) || IsSysCode(c) || IsResultCode(c)
  }

  lemma UnlimitedFits(d: Insn)
    requires IsUnlimited(d.code)
    ensures Fits(d)
  {
  }

  lemma RegFits(d: Insn)
    requires IsRegCode(d.code)
    ensures Fits(d)
  {
    RegNumbersFit(d);
    RegLabelFits(d);
  }

  lemma RegLabelFits(d: Insn)
    requires IsRegCode(d.code)
    ensures LabelFits(d) && PairsFit(d)
  {
    RegHasNoLabel(d.code);
  }

  lemma RegHasNoLabel(c: Code)
    requires IsRegCode(c)
    ensures LabelSpan(c) == None && !c.Retaasppc? && !c.Retabsppc?
  {
  }

  lemma RegNumbersFit(d: Insn)
    requires IsRegCode(d.code)
    ensures NumbersFit(d)
  {
  }

  lemma RegNever(d: Insn)
    requires IsRegCode(d.code)
    ensures Reads(EncBranchReg(d))
  {
  }

  lemma BarrierNever(d: Insn)
    requires IsBarrierCode(d.code)
    ensures Reads(EncBarrier(d))
  {
  }

  lemma SysNever(d: Insn, names: SysNames)
    ensures Reads(EncSys(d, names))
  {
  }

  lemma MoveNever(d: Insn)
    ensures Reads(EncSysRegMove(d)) && Reads(EncSystemResult(d)) && Reads(EncWfxt(d))
  {
  }

  lemma GcsNever(d: Insn)
    requires IsGcsCode(d.code)
    ensures Reads(EncGcs(d))
  {
  }

  // --- Every instruction. ---

  // Nothing is cut down to fit: what encodes fits. An immediate is called invalid only
  // where something does not, and an encoding only where there is none, or none that
  // the encoder knows.
  lemma OnlyWhatFits(d: Insn, names: SysNames)
    ensures var e := DecodeTree.EncodeInsn(d, names);
            && (e.Ok? ==> Fits(d)) && (e == Err(InvalidImmediate) ==> !Fits(d))
            && (e == Err(InvalidCode) <==> d.code.Invalid?) && (e == Err(Unsupported) <==> d.code.OtherCode?)
  {
    Verdict(d, names);
  }

  lemma Verdict(d: Insn, names: SysNames)
    ensures var e := DecodeTree.EncodeInsn(d, names);
            if d.code.Invalid? then e == Err(InvalidCode)
            else if d.code.OtherCode? then e == Err(Unsupported)
            else Judges(e, Fits(d))
  {
    if d.code.AppleCode? {
      GenterJudged(d);
    } else if !d.code.Invalid? {
      KnownEncodings(d.code);
      if !EncoderOf(d.code).NoEncoder? { Judged(d, EncoderOf(d.code), names); }
    }
  }

  lemma KnownEncodings(c: Code)
    ensures EncoderOf(c).NoEncoder? <==> c.Invalid? || c.OtherCode? || c.AppleCode?
  {
  }

  // An encoder is chosen by the family of the encoding.
  lemma FamilyOf(c: Code)
    ensures EncoderOf(c).ForCmpbr? ==> IsCmpbr(c)
    ensures EncoderOf(c).ForHint? ==> IsHintCode(c)
    ensures EncoderOf(c).ForException? ==> IsExceptionCode(c)
    ensures EncoderOf(c).ForMsrImm? ==> IsMsrImmCode(c)
    ensures EncoderOf(c).ForTchange? ==> IsTchange(c)
    ensures EncoderOf(c).ForReg? ==> IsRegCode(c)
  {
  }

  lemma BranchFamilyOf(c: Code)
    ensures EncoderOf(c).ForCompare? ==> IsCompareCode(c)
    ensures EncoderOf(c).ForCond? ==> IsCondCode(c)
    ensures EncoderOf(c).ForSppc? ==> c.Retaasppc? || c.Retabsppc?
    ensures EncoderOf(c).ForUncond? ==> IsUncondCode(c)
    ensures EncoderOf(c).ForTest? ==> IsTestCode(c)
    ensures EncoderOf(c).ForUdf? ==> c.Udf?
  {
  }

  lemma SystemFamilyOf(c: Code)
    ensures EncoderOf(c).ForGcs? ==> IsGcsCode(c)
    ensures EncoderOf(c).ForBarrier? ==> IsBarrierCode(c)
    ensures EncoderOf(c).ForWfxt? ==> IsWfxtCode(c)
    ensures EncoderOf(c).ForMove? ==> IsMoveCode(c)
  {
  }

  lemma SysFamilyOf(c: Code)
    ensures EncoderOf(c).ForSys? ==> IsSysCode(c)
    ensures EncoderOf(c).ForResult? ==> IsResultCode(c)
    ensures EncoderOf(c).ForPairMove? ==> IsPairCode(c)
    ensures EncoderOf(c).ForSysp? ==> c.Sysp?
  {
  }

  lemma Judged(d: Insn, e: Encoder, names: SysNames)
    requires e == EncoderOf(d.code) && !e.NoEncoder?
    ensures Judges(EncodeAs(e, d, names), Fits(d))
  {
    if e.ForCmpbr? || e.ForHint? || e.ForException? || e.ForMsrImm? || e.ForTchange? || e.ForReg? {
      FamilyJudged(d, e, names);
    } else if e.ForCompare? || e.ForCond? || e.ForSppc? || e.ForUncond? || e.ForTest? || e.ForUdf? {
      BranchJudged(d, e, names);
    } else {
      SystemJudged(d, e, names);
    }
  }

  lemma FamilyJudged(d: Insn, e: Encoder, names: SysNames)
    requires e == EncoderOf(d.code)
    requires e.ForCmpbr? || e.ForHint? || e.ForException? || e.ForMsrImm? || e.ForTchange? || e.ForReg?
    ensures Judges(EncodeAs(e, d, names), Fits(d))
  {
    FamilyOf(d.code);
    if e.ForCmpbr? {
      FusedJudged(d);
    } else if e.ForHint? {
      HintJudged(d);
    } else if e.ForException? {
      ExceptionJudged(d);
    } else if e.ForMsrImm? {
      MsrImmJudged(d);
    } else if e.ForTchange? {
      TchangeJudged(d);
    } else {
      RegFits(d);
      RegNever(d);
    }
  }

  lemma BranchJudged(d: Insn, e: Encoder, names: SysNames)
    requires e == EncoderOf(d.code)
    requires e.ForCompare? || e.ForCond? || e.ForSppc? || e.ForUncond? || e.ForTest? || e.ForUdf?
    ensures Judges(EncodeAs(e, d, names), Fits(d))
  {
    BranchFamilyOf(d.code);
    if e.ForSppc? {
      SppcJudged(d);
    } else if e.ForTest? {
      TestJudged(d);
    } else if e.ForUdf? {
      UdfJudged(d);
    } else {
      JumpJudged(d);
    }
  }

  lemma SystemJudged(d: Insn, e: Encoder, names: SysNames)
    requires e == EncoderOf(d.code)
    requires e.ForGcs? || e.ForBarrier? || e.ForWfxt? || e.ForMove? || e.ForSys? || e.ForResult? || e.ForPairMove?
             || e.ForSysp?
    ensures Judges(EncodeAs(e, d, names), Fits(d))
  {
    SystemFamilyOf(d.code);
    SysFamilyOf(d.code);
    if e.ForPairMove? {
      PairMoveJudged(d);
    } else if e.ForSysp? {
      SyspJudged(d, names);
    } else {
      UnlimitedFits(d);
      SysNever(d, names);
      MoveNever(d);
      if e.ForBarrier? { BarrierNever(d); }
      if e.ForGcs? { GcsNever(d); }
    }
  }

  // --- The other way round. ---

  predicate IsCounted(d: Insn, slot: nat) { Reading(d.Op(slot)).Some? }

  // The operands of a form with a label or a number that may not fit, all of the kinds
  // that the encoder reads.
  predicate Readable(d: Insn) {
    var c := d.code;
    if c.BUncond? || c.BlImm? || c.Retaasppc? || c.Retabsppc? then d.Op(0).Label?
    else if c.BCond? || c.BcCond? then d.Op(0).Cond? && d.Op(1).Label?
    else if IsCompareCode(c) then d.Op(0).Reg? && d.Op(1).Label?
    else if IsTestCode(c) then d.Op(0).Reg? && IsCounted(d, 1) && d.Op(2).Label?
    else if c.Svc? || c.Hvc? || c.Smc? || c.Brk? || c.Hlt? || c.Tcancel? || c.Udf? then IsCounted(d, 0)
    else if c.Dcps1? || c.Dcps2? || c.Dcps3? then IsCounted(d, 0)
    else if c.TchangefImm? || c.TchangebImm? then d.Op(0).Reg? && IsCounted(d, 1)
    else if c.HintGeneric? then d.mnemonic == Own(Code.HintGeneric) && IsCounted(d, 0)
    else if c.MsrImm? then d.Op(0).SysOp? && PstateSelector(d.Op(0).keyword).Some? && IsCounted(d, 1)
    else c == Code.AppleCode(Genter) && d.Op(0).ImmUnsigned?
  }

  predicate IsDirectForm(c: Code) { IsUncondCode(c) || IsCondCode(c) || IsCompareCode(c) || IsTestCode(c) }

  lemma DirectReads(d: Insn)
    requires Readable(d) && IsDirectForm(d.code)
    ensures IsUncondCode(d.code) ==> EncUncondBranchImm(d) != Err(InvalidOperand)
    ensures IsCondCode(d.code) ==> EncCondBranch(d) != Err(InvalidOperand)
    ensures IsCompareCode(d.code) ==> EncCompareBranch(d) != Err(InvalidOperand)
  {
  }

  lemma TestReads(d: Insn)
    requires Readable(d) && IsTestCode(d.code)
    ensures EncTestBranch(d) != Err(InvalidOperand)
  {
    ReadingIs(d, 1);
  }

  lemma DirectEncodes(d: Insn, names: SysNames)
    requires Readable(d) && IsDirectForm(d.code)
    ensures Encode(d, names) != Err(InvalidOperand)
  {
    if IsUncondCode(d.code) {
      UncondFamily(d.code);
    } else if IsCondCode(d.code) {
      CondFamily(d.code);
    } else if IsCompareCode(d.code) {
      CompareFamily(d.code);
    } else {
      TestFamily(d.code);
      TestReads(d);
    }
    if !IsTestCode(d.code) { DirectReads(d); }
  }

  lemma ExceptionReads(d: Insn)
    requires Readable(d) && IsExceptionCode(d.code)
    ensures EncException(d) != Err(InvalidOperand)
  {
    ReadingIs(d, 0);
    Imm16Reads(d, ExceptionSelector(d.code).0, ExceptionSelector(d.code).1);
    Imm16Reads(d, 5, ExceptionSelector(d.code).1);
  }

  lemma Imm16Reads(d: Insn, opc: bv32, ll: bv32)
    requires IsCounted(d, 0)
    ensures EncImm16(d, opc, ll) != Err(InvalidOperand)
  {
    ReadingIs(d, 0);
  }

  lemma TchangeReads(d: Insn)
    requires Readable(d) && IsTchange(d.code) && !Fits(d)
    ensures EncTchange(d) != Err(InvalidOperand)
  {
    ReadingIs(d, 1);
  }

  lemma NumberReads(d: Insn)
    requires Readable(d)
    ensures d.code.HintGeneric? ==> EncHint(d) != Err(InvalidOperand)
    ensures d.code.MsrImm? ==> EncMsrImm(d) != Err(InvalidOperand)
    ensures d.code.Udf? ==> EncUdf(d) != Err(InvalidOperand)
    ensures d.code.Retaasppc? || d.code.Retabsppc? ==> EncSppc(d) != Err(InvalidOperand)
  {
    ReadingIs(d, 0);
    ReadingIs(d, 1);
  }

  lemma OtherEncodes(d: Insn, names: SysNames)
    requires Readable(d) && !Fits(d) && !IsDirectForm(d.code) && !d.code.AppleCode?
    ensures Encode(d, names) != Err(InvalidOperand)
  {
    if IsExceptionCode(d.code) {
      ExceptionFamily(d.code);
      ExceptionReads(d);
    } else if IsTchange(d.code) {
      TchangeFamily(d.code);
      TchangeReads(d);
    } else {
      NumberEncodes(d, names);
    }
  }

  lemma NumberEncodes(d: Insn, names: SysNames)
    requires Readable(d) && !IsDirectForm(d.code) && !d.code.AppleCode?
    requires !IsExceptionCode(d.code) && !IsTchange(d.code)
    ensures Encode(d, names) != Err(InvalidOperand)
  {
    NumberReads(d);
    if d.code.HintGeneric? || d.code.MsrImm? || d.code.Udf? {
      if d.code.HintGeneric? {
        HintFamily(d.code);
      } else if d.code.MsrImm? {
        MsrImmFamily(d.code);
      }
    } else {
      SppcFamily(d.code);
    }
  }

  lemma GenterReads(d: Insn)
    requires Readable(d) && d.code.AppleCode?
    ensures Apple.EncodeApple(d) != Err(InvalidOperand)
  {
  }

  lemma ReadableIsKnown(d: Insn)
    requires Readable(d)
    ensures !d.code.Invalid? && !d.code.OtherCode?
  {
  }

  // Of those, one that does not fit is an invalid immediate.
  lemma MisfitIsImmediate(d: Insn, names: SysNames)
    requires Readable(d) && !Fits(d)
    ensures DecodeTree.EncodeInsn(d, names) == Err(InvalidImmediate)
  {
    ReadableIsKnown(d);
    Verdict(d, names);
    NotOfOperands(d, DecodeTree.EncodeInsn(d, names), names);
  }

  lemma NotOfOperands(d: Insn, e: Encoded, names: SysNames)
    requires Readable(d) && !Fits(d) && e == DecodeTree.EncodeInsn(d, names)
    ensures e != Err(InvalidOperand)
  {
    if d.code.AppleCode? {
      GenterReads(d);
    } else if IsDirectForm(d.code) {
      DirectEncodes(d, names);
    } else {
      OtherEncodes(d, names);
    }
  }

  // --- Keywords. ---

  predicate IsScope(k: Keyword) {
    || k.Oshld? || k.Oshst? || k.Osh? || k.Nshld? || k.Nshst? || k.Nsh? || k.Ishld? || k.Ishst? || k.Ish?
    || k.Ld? || k.St? || k.Sy?
  }

  predicate IsNxs(k: Keyword) { k.OshNxs? || k.NshNxs? || k.IshNxs? || k.SyNxs? }

  predicate IsField(k: Keyword) {
    k.Uao? || k.Spsel? || k.Ssbs? || k.Dit? || k.Tco? || k.DaifSet? || k.DaifClr? || k.Allint?
  }

  // Where an encoding takes a keyword, one that it knows.
  predicate KeywordsKnown(d: Insn) {
    var c, o := d.code, d.Op(0);
    if c.Shuh? then o.NoOperand? || o == SysOp(Keyword.Ph)
    else if c.Stshh? then o == SysOp(Keyword.Keep) || o == SysOp(Keyword.Strm) || o.ImmUnsigned?
    else if c.Bti? then
      o.NoOperand? || o == SysOp(Keyword.TargetC) || o == SysOp(Keyword.TargetJ) || o == SysOp(Keyword.TargetJc)
    else if c.Smstart? || c.Smstop? then o.NoOperand? || o == SysOp(Keyword.Sm) || o == SysOp(Keyword.ZaOption)
    else if c.MsrImm? then o.SysOp? && IsField(o.keyword)
    else if c.Dmb? then o.SysOp? ==> IsScope(o.keyword)
    else if c.Dsb? then
      o.SysOp? ==> IsScope(o.keyword) || IsNxs(o.keyword) || d.mnemonic.Ssbb? || d.mnemonic.Pssbb?
    else if IsTchange(c) then d.Op(2).SysOp? ==> d.Op(2) == SysOp(Keyword.Nb)
    else true
  }

  lemma HintKeywords(d: Insn)
    requires IsHintCode(d.code) && EncHint(d).Ok?
    ensures KeywordsKnown(d)
  {
  }

  lemma BarrierKeywords(d: Insn)
    requires IsBarrierCode(d.code) && EncBarrier(d).Ok?
    ensures KeywordsKnown(d)
  {
  }

  lemma MsrImmKeywords(d: Insn)
    requires IsMsrImmCode(d.code) && EncMsrImm(d).Ok?
    ensures KeywordsKnown(d)
  {
  }

  lemma TchangeKeywords(d: Insn)
    requires IsTchange(d.code) && EncTchange(d).Ok?
    ensures KeywordsKnown(d)
  {
  }

  // No keyword is taken for another: what encodes names the ones that its encoding knows.
  lemma OnlyKnownKeywords(d: Insn, names: SysNames)
    requires DecodeTree.EncodeInsn(d, names).Ok?
    ensures KeywordsKnown(d)
  {
    if IsHintCode(d.code) {
      HintFamily(d.code);
      HintKeywords(d);
    } else if IsBarrierCode(d.code) {
      BarrierFamily(d.code);
      BarrierKeywords(d);
    } else if IsMsrImmCode(d.code) {
      MsrImmFamily(d.code);
      MsrImmKeywords(d);
    } else if IsTchange(d.code) {
      TchangeFamily(d.code);
      TchangeKeywords(d);
    }
  }
}
