/** The access report of what the decoder produces: for every word of the groups decoded
    here the report is complete, its flags agree with its list, and a control transfer
    writes nothing but the link register. */
module DecodedInfo {
  import opened Ints
  import opened Fields
  import opened Features
  import opened Isa
  import opened Instructions
  import opened BranchSpec
  import opened Access
  import opened Implicit
  import opened Info
  import opened InfoLaws
  import Apple
  import DecodeTree

  // The operands of these groups: general registers, alone or in pairs, and operands
  // that name no register; a condition besides, in the conditional branches.
  predicate Simple(op: Operand) {
    || (op.Reg? && Isa.Class(op.reg) == Gp)
    || (op.RegPair? && Isa.Class(op.first) == Gp && Isa.Class(op.second) == Gp)
    || op.ImmUnsigned? || op.Label? || op.SysReg? || op.SysOp? || op.NoOperand?
  }

  predicate Ordinary(op: Operand) { Simple(op) || op.Cond? }

  predicate AllSimple(v: Insn) { v.WellFormed() && forall i | 0 <= i < |v.ops| :: Simple(v.ops[i]) }

  predicate AllOrdinary(v: Insn) { v.WellFormed() && forall i | 0 <= i < |v.ops| :: Ordinary(v.ops[i]) }

  // --- Class by class. ---

  lemma RegisterSimple(useSp: bool, w: RegWidth, n: bv32)
    ensures Simple(PlainReg(useSp, w, n))
  {
    GpRegisterInvertible(useSp, w, n);
  }

  lemma PairSimple(rt: bv32)
    ensures Simple(RegPairOf(rt))
  {
    GpRegisterInvertible(false, X64, rt);
    GpRegisterInvertible(false, X64, rt + 1);
  }

  lemma CondOrdinary(word: bv32, f: Gate, v: Insn)
    requires v.ops == []
    ensures AllOrdinary(CondBranch(word, f, v))
  {
  }

  lemma CompareSimple(word: bv32, v: Insn)
    ensures AllSimple(CompareBranch(word, v))
  {
    RegisterSimple(false, WidthOf(Bit(word, 31)), Bits(word, 0, 5));
  }

  lemma TestSimple(word: bv32, v: Insn)
    ensures AllSimple(TestBranch(word, v))
  {
    RegisterSimple(false, WidthOf(Bit(word, 31)), Bits(word, 0, 5));
  }

  lemma CmpbrSimple(word: bv32, f: Gate, v: Insn)
    requires v.ops == []
    ensures AllSimple(CmpbrOf(word, f, v))
  {
    CmpbrRegSimple(word, v);
    CmpbrImmSimple(word, v);
  }

  lemma CmpbrRegSimple(word: bv32, v: Insn)
    requires v.ops == []
    ensures AllSimple(CmpbrReg(word, v))
  {
    RegisterSimple(false, WidthOf(Bit(word, 31)), Bits(word, 0, 5));
    RegisterSimple(false, WidthOf(Bit(word, 31)), Bits(word, 16, 5));
  }

  lemma CmpbrImmSimple(word: bv32, v: Insn)
    requires v.ops == []
    ensures AllSimple(CmpbrImm(word, v))
  {
    RegisterSimple(false, WidthOf(Bit(word, 31)), Bits(word, 0, 5));
  }

  lemma PlainBranchSimple(opc: bv32, rn: bv32, v: Insn)
    requires v.ops == []
    ensures AllSimple(PlainBranch(opc, rn, v))
  {
    RegisterSimple(false, X64, rn);
  }

  lemma SignedReturnSimple(keyA: bool, rn: bv32, op4: bv32, f: Gate, v: Insn)
    requires v.ops == []
    ensures AllSimple(SignedReturn(keyA, rn, op4, f, v))
  {
    RegisterSimple(false, X64, op4);
  }

  lemma SignedPairSimple(opc: bv32, keyA: bool, rn: bv32, op4: bv32, f: Gate, v: Insn)
    requires v.ops == [] && opc >= 8
    ensures AllSimple(SignedBranch(opc, keyA, rn, op4, f, v))
  {
    RegisterSimple(false, X64, rn);
    RegisterSimple(true, X64, op4);
  }

  lemma SignedZeroSimple(opc: bv32, keyA: bool, rn: bv32, op4: bv32, f: Gate, v: Insn)
    requires v.ops == [] && opc != 2 && opc < 8
    ensures AllSimple(SignedBranch(opc, keyA, rn, op4, f, v))
  {
    RegisterSimple(false, X64, rn);
  }

  lemma SignedSimple(opc: bv32, keyA: bool, rn: bv32, op4: bv32, f: Gate, v: Insn)
    requires v.ops == []
    ensures AllSimple(SignedBranch(opc, keyA, rn, op4, f, v))
  {
    if opc == 2 {
      SignedReturnSimple(keyA, rn, op4, f, v);
    } else if opc >= 8 {
      SignedPairSimple(opc, keyA, rn, op4, f, v);
    } else {
      SignedZeroSimple(opc, keyA, rn, op4, f, v);
    }
  }

  lemma RegBranchSimple(word: bv32, f: Gate, v: Insn)
    requires v.ops == []
    ensures AllSimple(UncondBranchReg(word, f, v))
  {
    var opc, op3, rn, op4 := Bits(word, 21, 4), Bits(word, 10, 6), Bits(word, 5, 5), Bits(word, 0, 5);
    PlainBranchSimple(opc, rn, v);
    SignedSimple(opc, op3 == 2, rn, op4, f, v);
  }

  lemma ExceptionSimple(opc: bv32, ll: bv32, imm16: bv32, f: Gate, v: Insn)
    requires v.ops == []
    ensures AllSimple(ExceptionBy(opc, ll, imm16, f, v))
  {
  }

  lemma TwoSimple(v: Insn, c: Code, a: Operand, b: Operand, nb: bool)
    requires Simple(a) && Simple(b)
    ensures AllSimple(WithNb(v.Set(c).Push(a).Push(b), nb))
  {
  }

  lemma TchangeSimple(word: bv32, f: Gate, v: Insn)
    requires v.ops == []
    ensures AllSimple(TchangeOf(word, f, v))
  {
    var rt, xn := XReg(false, Bits(word, 0, 5)), XReg(false, Bits(word, 5, 5));
    var imm := ImmUnsigned(Bits(word, 5, 7) as int);
    var backward, nb := Bit(word, 18) == 1, Bit(word, 17) == 1;
    RegisterSimple(false, X64, Bits(word, 0, 5));
    RegisterSimple(false, X64, Bits(word, 5, 5));
    TwoSimple(v, if backward then Code.TchangebReg else Code.TchangefReg, rt, xn, nb);
    TwoSimple(v, if backward then Code.TchangebImm else Code.TchangefImm, rt, imm, nb);
  }

  lemma ResultSimple(s: SysFields, f: Gate, v: Insn)
    requires v.ops == []
    ensures AllSimple(SystemResult(s, f, v)) && AllSimple(WfxtOf(s, f, v))
  {
    RegisterSimple(false, X64, s.rt);
  }

  lemma PstateSimple(s: SysFields, v: Insn)
    requires v.ops == []
    ensures AllSimple(MsrImmediate(s, v))
  {
    RegisterSimple(false, X64, 31);
  }

  lemma HintSimple(s: SysFields, f: Gate, v: Insn)
    requires v.ops == []
    ensures AllSimple(HintOf(s, f, v))
  {
    HintBySimple((s.crm << 3) | s.op2, s.crm, s.op2, f, v);
  }

  lemma HintBySimple(sel: bv32, crm: bv32, op2: bv32, f: Gate, v: Insn)
    requires v.ops == []
    ensures AllSimple(HintBy(sel, crm, op2, f, v))
  {
    GatedHintSimple(sel, crm, op2, f, v);
  }

  lemma GatedHintSimple(sel: bv32, crm: bv32, op2: bv32, f: Gate, v: Insn)
    requires v.ops == []
    ensures AllSimple(GatedHint(sel, crm, op2, f, v))
  {
    RegisterSimple(false, X64, 16);
  }

  lemma BarrierSimple(s: SysFields, f: Gate, v: Insn)
    requires v.ops == []
    ensures AllSimple(BarrierOf(s, f, v))
  {
    OptionSimple(s.crm);
  }

  lemma OptionSimple(crm: bv32)
    ensures Simple(BarrierOption(crm))
  {
  }

  lemma NamedSimple(s: SysFields, f: Gate, v: Insn)
    requires v.ops == []
    ensures AllSimple(Op0Named(s, f, v))
  {
    if s.read || s.crn == 1 {
      ResultSimple(s, f, v);
    } else if s.crn == 4 {
      PstateSimple(s, v);
    } else if s.crn == 2 {
      HintSimple(s, f, v);
    } else if s.crn == 3 {
      BarrierSimple(s, f, v);
    }
  }

  lemma MoveSimple(s: SysFields, v: Insn)
    ensures AllSimple(SysRegMove(s, v))
  {
    RegisterSimple(false, X64, s.rt);
  }

  lemma SysFieldsSimple(s: SysFields, v: Insn)
    requires AllSimple(v)
    ensures AllSimple(WithSysFields(s, v))
  {
  }

  lemma AliasSimple(s: SysFields, t: SysEntry, v: Insn)
    ensures AllSimple(SysAlias(s, t, v))
  {
    RegisterSimple(false, X64, s.rt);
  }

  lemma PushSimple(v: Insn, op: Operand)
    requires AllSimple(v) && Simple(op)
    ensures AllSimple(v.Push(op))
  {
  }

  lemma CanonicalSimple(s: SysFields, v: Insn)
    ensures AllSimple(SysCanonical(s, v))
  {
    RegisterSimple(false, X64, s.rt);
    if s.read {
      SysFieldsSimple(s, v.Set(Code.Sysl).Push(XReg(false, s.rt)));
    } else {
      SysFieldsSimple(s, v.Set(Code.Sys));
      PushSimple(WithSysFields(s, v.Set(Code.Sys)), XReg(false, s.rt));
    }
  }

  lemma SysSimple(s: SysFields, f: Gate, table: SysTable, v: Insn)
    ensures AllSimple(SysOf(s, f, table, v))
  {
    var t := table(s.read, s.op1, s.crn, s.crm, s.op2);
    RegisterSimple(false, X64, s.rt);
    if RctxAlias(s).Some? {
    } else if GcsCode(s).Some? && f(Feature.Gcs) {
    } else if t.Some? {
      AliasSimple(s, t.value, v);
    } else {
      CanonicalSimple(s, v);
    }
  }

  lemma SystemSimple(word: bv32, f: Gate, table: SysTable, v: Insn)
    requires v.ops == []
    ensures AllSimple(System(word, f, table, v))
  {
    var s := FieldsOf(word);
    NamedSimple(s, f, v);
    MoveSimple(s, v);
    SysSimple(s, f, table, v);
  }

  lemma SyspSimple(s: SysFields, table: SysTable, v: Insn)
    requires v.ops == []
    ensures AllSimple(SyspOf(s, table, v))
  {
    PairSimple(s.rt);
    SysFieldsSimple(s, v.Set(Code.Sysp));
    PushSimple(WithSysFields(s, v.Set(Code.Sysp)), RegPairOf(s.rt));
    var t := table(false, s.op1, s.crn, s.crm, s.op2);
    if t.Some? { TlbipSimple(s, t.value, v); }
  }

  lemma TlbipSimple(s: SysFields, t: SysEntry, v: Insn)
    ensures AllSimple(TlbipOf(s, t, v))
  {
    PairSimple(s.rt);
  }

  lemma PairMoveSimple(s: SysFields, v: Insn)
    requires v.ops == []
    ensures AllSimple(PairMove(s, v))
  {
    PairSimple(s.rt);
  }

  lemma SystemPairSimple(word: bv32, f: Gate, table: SysTable, v: Insn)
    requires v.ops == []
    ensures AllSimple(SystemPair(word, f, table, v))
  {
    SyspSimple(FieldsOf(word), table, v);
    PairMoveSimple(FieldsOf(word), v);
  }

  // Only the conditional branches carry a condition.
  predicate CarriesCondition(word: bv32) { ClassOf(word).CondBlock? && Bit(word, 24) == 0 }

  lemma JumpSimple(c: BranchSpec.Class, word: bv32, f: Gate, v: Insn)
    requires v.ops == [] && (c.CondBlock? ==> Bit(word, 24) != 0)
    ensures AllSimple(Jump(c, word, f, v))
  {
    if c.RegBranch? {
      RegBranchSimple(word, f, v);
    } else if c.CondBlock? {
    } else if c.CmpbrBlock? {
      CmpbrSimple(word, f, v);
    } else {
      CompareSimple(word, v);
      TestSimple(word, v);
    }
  }

  lemma BranchSimple(word: bv32, f: Gate, table: SysTable, v: Insn)
    requires v.ops == [] && !CarriesCondition(word)
    ensures AllSimple(Branch(word, f, table, v))
  {
    var c := ClassOf(word);
    if c.SystemBlock? || c.PairBlock? || c.Exceptions? || c.TchangeBlock? {
      BlockSimple(c, word, f, table, v);
    } else {
      JumpSimple(c, word, f, v);
    }
  }

  lemma BlockSimple(c: BranchSpec.Class, word: bv32, f: Gate, table: SysTable, v: Insn)
    requires v.ops == [] && (c.SystemBlock? || c.PairBlock? || c.Exceptions? || c.TchangeBlock?)
    ensures AllSimple(BranchIn(c, word, f, table, v))
  {
    if c.SystemBlock? {
      SystemSimple(word, f, table, v);
    } else if c.PairBlock? {
      SystemPairSimple(word, f, table, v);
    } else if c.Exceptions? {
      ExceptionSimple(Bits(word, 21, 3), Bits(word, 0, 2), Bits(word, 5, 16), f, v);
    } else {
      TchangeSimple(word, f, v);
    }
  }

  lemma AppleSimple(word: bv32, f: Gate, v: Insn)
    requires v.ops == []
    ensures AllSimple(Apple.AppleOf(word, f, v))
  {
    RegisterSimple(false, X64, word & 31);
  }

  lemma DecodedIsSimple(word: bv32, ip: U64, f: FeatureSet, table: SysTable, others: DecodeTree.Others)
    requires DecodeTree.Modelled(word) && !CarriesCondition(word)
    ensures AllSimple(DecodeTree.DecodeWord(word, ip, f, table, others))
  {
    var v := NewInvalid(word, ip);
    if DecodeTree.Op0Of(word) == 0 {
      AppleSimple(word, f.Has, v);
    } else {
      BranchSimple(word, f.Has, table, v);
    }
  }

  lemma DecodedIsOrdinary(word: bv32, ip: U64, f: FeatureSet, table: SysTable, others: DecodeTree.Others)
    requires DecodeTree.Modelled(word)
    ensures AllOrdinary(DecodeTree.DecodeWord(word, ip, f, table, others))
  {
    if CarriesCondition(word) {
      CondOrdinary(word, f.Has, NewInvalid(word, ip));
      DecodeTree.ClassesAreRouted(word);
    } else {
      DecodedIsSimple(word, ip, f, table, others);
    }
  }

  // --- The report of an instruction with ordinary operands. ---

  lemma OrdinaryFits(d: Insn, t: Tables)
    requires AllOrdinary(d)
    ensures Fits(d, t)
  {
    forall op | op in d.ops
      ensures Slim(op)
    {
      var i :| 0 <= i < |d.ops| && d.ops[i] == op;
    }
    SlimFits(d, t);
  }

  lemma OrdinaryForm(d: Insn, t: Tables)
    requires AllOrdinary(d)
    ensures !SomeMops(d.ops) && MemSlot(d.ops) == |d.ops| && forall op | op in d.ops :: !IsMemory(op)
    ensures FormOf(d, t) == Transfer <==> d.FlowControlOf() != Next
    ensures FormOf(d, t).Transfer? || FormOf(d, t).Data?
  {
    forall op | op in d.ops
      ensures !IsMemory(op)
    {
      var i :| 0 <= i < |d.ops| && d.ops[i] == op;
    }
  }

  // General registers only.
  predicate OnlyGp(adds: seq<UsedRegister>) { forall x | x in adds :: Isa.Class(x.register) == Gp }

  lemma OrdinaryUse(u: Use)
    requires Ordinary(u.op)
    ensures OnlyGp(RegsOfUse(u))
  {
  }

  lemma {:induction false} OrdinaryUses(uses: seq<Use>)
    requires forall u | u in uses :: Ordinary(u.op)
    ensures OnlyGp(RegsOf(uses))
  {
    if uses != [] {
      assert uses[0] in uses && forall u | u in uses[1..] :: u in uses;
      OrdinaryUse(uses[0]);
      OrdinaryUses(uses[1..]);
    }
  }

  lemma UsesAreOrdinary(d: Insn, t: Tables)
    requires AllOrdinary(d)
    ensures forall u | u in Uses(d, t) :: Ordinary(u.op)
  {
    UsesAre(d, t);
    forall u | u in Uses(d, t)
      ensures Ordinary(u.op)
    {
      var i :| 0 <= i < |d.ops| && d.ops[i] == u.op;
    }
  }

  lemma GpIsNoFlag(adds: seq<UsedRegister>)
    requires OnlyGp(adds)
    ensures JoinOf(adds, Nzcv) == NoAccess
  {
    Unnamed(adds, Nzcv);
  }

  lemma NzcvUnnamed(d: Insn, t: Tables)
    requires AllOrdinary(d)
    ensures JoinOf(RegsOf(Uses(d, t)), Nzcv) == NoAccess
  {
    UsesAreOrdinary(d, t);
    OrdinaryUses(Uses(d, t));
    GpIsNoFlag(RegsOf(Uses(d, t)));
  }

  lemma NoMemoryReported(d: Insn, t: Tables)
    requires AllOrdinary(d)
    ensures InfoOf(d, t).mem == []
  {
    OrdinaryForm(d, t);
    NoMemoryFrom(FormOf(d, t), d.ops, 0);
    NoMemory(Lists([], []), UsesFrom(FormOf(d, t), d.ops, 0));
  }

  // --- For every decoded word. ---

  // The report names every register the instruction touches, with the join of its
  // accesses, and no memory.
  lemma DecodedReportIsComplete(word: bv32, ip: U64, f: FeatureSet, table: SysTable, others: DecodeTree.Others,
                                t: Tables, r: Register)
    requires DecodeTree.Modelled(word) && !r.NoRegister?
    ensures var d := DecodeTree.DecodeWord(word, ip, f, table, others);
            && RegistersIn(InfoOf(d, t).regs) == Named(AllAdds(d, t)) && DuplicateFree(InfoOf(d, t).regs)
            && AccessOf(InfoOf(d, t).regs, r) == Merge(JoinOf(RegsOf(Uses(d, t)), r), JoinOf(ImplicitAdds(d), r))
            && InfoOf(d, t).mem == []
  {
    var d := DecodeTree.DecodeWord(word, ip, f, table, others);
    DecodedIsOrdinary(word, ip, f, table, others);
    OrdinaryFits(d, t);
    InfoIsMap(d, t, r);
    NoMemoryReported(d, t);
  }

  // The scalar flags are what the list says of NZCV.
  lemma DecodedFlagsAgree(word: bv32, ip: U64, f: FeatureSet, table: SysTable, others: DecodeTree.Others, t: Tables)
    requires DecodeTree.Modelled(word)
    ensures var info := InfoOf(DecodeTree.DecodeWord(word, ip, f, table, others), t);
            && info.flagsRead == Reads(AccessOf(info.regs, Nzcv))
            && info.flagsWritten == Writes(AccessOf(info.regs, Nzcv))
  {
    var d := DecodeTree.DecodeWord(word, ip, f, table, others);
    DecodedIsOrdinary(word, ip, f, table, others);
    OrdinaryFits(d, t);
    FlagsAgree(d, t);
    NzcvUnnamed(d, t);
  }

  // A decoded control transfer writes no register but the link register, and that
  // exactly when it is a call.
  lemma DecodedTransferWritesOnlyLink(word: bv32, ip: U64, f: FeatureSet, table: SysTable, others: DecodeTree.Others,
                                      t: Tables, r: Register)
    requires DecodeTree.Modelled(word) && !r.NoRegister?
    ensures var d := DecodeTree.DecodeWord(word, ip, f, table, others);
            d.FlowControlOf() != Next ==>
              (Writes(AccessOf(InfoOf(d, t).regs, r)) <==>
                 r == LINK && (d.FlowControlOf() == Call || d.FlowControlOf() == IndirectCall))
  {
    var d := DecodeTree.DecodeWord(word, ip, f, table, others);
    DecodedIsOrdinary(word, ip, f, table, others);
    OrdinaryFits(d, t);
    OrdinaryForm(d, t);
    if d.FlowControlOf() != Next { TransferWritesOnlyLink(d, t, r); }
  }

  // RETAASPPC, which authenticates with PC, is not reported to read it.
  lemma RetaasppcSkipsPc(ip: U64, f: FeatureSet, table: SysTable, others: DecodeTree.Others)
    requires f.Has(Feature.PauthLr)
    ensures var d := DecodeTree.DecodeWord(0x5500_001f, ip, f, table, others);
            d.code.Retaasppc? && AccessOf(Listed(d), Pc) == NoAccess
  {
    var v := NewInvalid(0x5500_001f, ip);
    RetaasppcWord(f.Has, table, v);
    SppcReturnSkipsPc(Branch(0x5500_001f, f.Has, table, v));
  }

  lemma RetaasppcWord(f: Gate, table: SysTable, v: Insn)
    requires f(Feature.PauthLr)
    ensures var d := Branch(0x5500_001f, f, table, v); d.code.Retaasppc? && d.mnemonic == Own(Code.Retaasppc)
    ensures DecodeTree.Op0Of(0x5500_001f) == 10
  {
    assert ClassOf(0x5500_001f).CondBlock?;
  }
}
