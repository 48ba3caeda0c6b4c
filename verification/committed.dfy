/** `re_encode` of `src/encode/mod.rs` among the edits: when the word an instruction records
    is the one it encodes to, and which instructions come back from their encoding. */
module CommittedEdits {
  import opened Wrappers
  import opened Ints
  import opened Fields
  import opened Features
  import opened Isa
  import opened Instructions
  import opened EditHistory
  import opened Encoding
  import opened BranchSpec
  import opened BranchEncode
  import Apple
  import CanonicalForm
  import DecodeTree
  import Relocation
  import SysAliasLaws

  // --- What the encoder looks at. ---

  // Values that differ in the word they record, in their mark, and, when nothing in them
  // is a label, in their address.
  predicate Alike(u: Insn, v: Insn) {
    u.code == v.code && u.mnemonic == v.mnemonic && u.ops == v.ops && (u.HasLabel() ==> u.ip == v.ip)
  }

  lemma OperandsAlike(u: Insn, v: Insn, n: nat)
    requires Alike(u, v)
    ensures u.Op(n) == v.Op(n) && (u.Op(n).Label? ==> u.ip == v.ip)
  {
  }

  lemma FieldAlike(u: Insn, v: Insn, n: nat, s: Span)
    requires Alike(u, v)
    ensures RelField(u, n, s) == RelField(v, n, s)
  {
    OperandsAlike(u, v, n);
  }

  lemma RegNumAlike(u: Insn, v: Insn, n: nat)
    requires SameMeaning(u, v)
    ensures RegNum(u, n) == RegNum(v, n)
  {
  }

  lemma ImmAlike(u: Insn, v: Insn, n: nat)
    requires SameMeaning(u, v)
    ensures ImmU(u, n) == ImmU(v, n) && ImmU32(u, n) == ImmU32(v, n)
  {
  }

  lemma LabelledAlike(u: Insn, v: Insn)
    requires Alike(u, v)
    ensures EncCondBranch(u) == EncCondBranch(v) && EncUncondBranchImm(u) == EncUncondBranchImm(v)
  {
    FieldAlike(u, v, 0, Imm26);
    FieldAlike(u, v, 1, Imm19);
  }

  lemma CompareAlike(u: Insn, v: Insn)
    requires Alike(u, v)
    ensures EncCompareBranch(u) == EncCompareBranch(v)
  {
    RegNumAlike(u, v, 0);
    FieldAlike(u, v, 1, Imm19);
  }

  lemma TestAlike(u: Insn, v: Insn)
    requires Alike(u, v)
    ensures EncTestBranch(u) == EncTestBranch(v)
  {
    RegNumAlike(u, v, 0);
    ImmAlike(u, v, 1);
    FieldAlike(u, v, 2, Imm14);
  }

  lemma SppcAlike(u: Insn, v: Insn)
    requires Alike(u, v)
    ensures EncSppc(u) == EncSppc(v)
  {
    OperandsAlike(u, v, 0);
  }

  lemma CmpbrPartsAlike(u: Insn, v: Insn, size: bv32, cc: Option<bv32>, imm9: bv32)
    requires SameMeaning(u, v)
    ensures EncCmpbrReg(u, size, cc, imm9) == EncCmpbrReg(v, size, cc, imm9)
    ensures EncCmpbrImm(u, cc, imm9) == EncCmpbrImm(v, cc, imm9)
  {
    RegNumAlike(u, v, 0);
    RegNumAlike(u, v, 1);
    ImmAlike(u, v, 1);
  }

  lemma CmpbrAlike(u: Insn, v: Insn)
    requires Alike(u, v)
    ensures EncCmpbr(u) == EncCmpbr(v)
  {
    FieldAlike(u, v, 2, Imm9);
    var s, r := CmpbrFacets(v.code), RelField(v, 2, Imm9);
    if r.Ok? {
      CmpbrPartsAlike(u, v, s.0, s.1, Low32(r.value));
      CmpbrPartsAlike(u, v, s.0, s.2, Low32(r.value));
    }
  }

  lemma RegPartsAlike(u: Insn, v: Insn, opc: bv32, op3: bv32, op4: bv32)
    requires SameMeaning(u, v)
    ensures EncOneReg(u, opc, op3, op4) == EncOneReg(v, opc, op3, op4) && EncModifier(u, op3) == EncModifier(v, op3)
    ensures EncTwoRegs(u, opc, op3) == EncTwoRegs(v, opc, op3)
  {
    RegNumAlike(u, v, 0);
    RegNumAlike(u, v, 1);
  }

  lemma RegAlike(u: Insn, v: Insn)
    requires SameMeaning(u, v)
    ensures EncBranchReg(u) == EncBranchReg(v)
  {
    forall opc, op3, op4
      ensures EncOneReg(u, opc, op3, op4) == EncOneReg(v, opc, op3, op4) && EncModifier(u, op3) == EncModifier(v, op3)
      ensures EncTwoRegs(u, opc, op3) == EncTwoRegs(v, opc, op3)
    {
      RegPartsAlike(u, v, opc, op3, op4);
    }
  }

  lemma Imm16Alike(u: Insn, v: Insn, opc: bv32, ll: bv32)
    requires SameMeaning(u, v)
    ensures EncImm16(u, opc, ll) == EncImm16(v, opc, ll)
  {
    ImmAlike(u, v, 0);
  }

  lemma TenterAlike(u: Insn, v: Insn)
    requires SameMeaning(u, v)
    ensures EncTenter(u) == EncTenter(v)
  {
    ImmAlike(u, v, 0);
  }

  lemma ExceptionAlike(u: Insn, v: Insn)
    requires SameMeaning(u, v)
    ensures EncException(u) == EncException(v)
  {
    var s := ExceptionSelector(v.code);
    Imm16Alike(u, v, s.0, s.1);
    Imm16Alike(u, v, 5, s.1);
    TenterAlike(u, v);
  }

  lemma UdfAlike(u: Insn, v: Insn)
    requires SameMeaning(u, v)
    ensures EncUdf(u) == EncUdf(v)
  {
  }

  lemma TchangeWordAlike(u: Insn, v: Insn)
    requires SameMeaning(u, v)
    ensures TchangeWord(u) == TchangeWord(v)
  {
    RegNumAlike(u, v, 0);
    if v.code.TchangefReg? || v.code.TchangebReg? { RegNumAlike(u, v, 1); } else { ImmAlike(u, v, 1); }
  }

  lemma TchangeAlike(u: Insn, v: Insn)
    requires SameMeaning(u, v)
    ensures EncTchange(u) == EncTchange(v)
  {
    TchangeWordAlike(u, v);
  }

  lemma GenericAlike(u: Insn, v: Insn)
    requires SameMeaning(u, v)
    ensures GenericSelector(u) == GenericSelector(v)
  {
    ImmAlike(u, v, 0);
  }

  lemma SelectorAlike(u: Insn, v: Insn)
    requires SameMeaning(u, v)
    ensures HintSelector(u) == HintSelector(v)
  {
    GenericAlike(u, v);
  }

  lemma HintAlike(u: Insn, v: Insn)
    requires SameMeaning(u, v)
    ensures EncHint(u) == EncHint(v)
  {
    SelectorAlike(u, v);
  }

  lemma DefaultedAlike(u: Insn, v: Insn, op2: bv32)
    requires SameMeaning(u, v)
    ensures EncDefaulted(u, op2) == EncDefaulted(v, op2)
  {
    ImmAlike(u, v, 0);
  }

  lemma OptionAlike(u: Insn, v: Insn)
    requires SameMeaning(u, v)
    ensures BarrierCrm(u) == BarrierCrm(v)
  {
  }

  lemma DsbAlike(u: Insn, v: Insn)
    requires SameMeaning(u, v)
    ensures EncDsb(u) == EncDsb(v)
  {
    OptionAlike(u, v);
  }

  lemma BarrierAlike(u: Insn, v: Insn)
    requires SameMeaning(u, v)
    ensures EncBarrier(u) == EncBarrier(v)
  {
    DefaultedAlike(u, v, 2);
    DefaultedAlike(u, v, 6);
    DsbAlike(u, v);
    OptionAlike(u, v);
  }

  lemma WfxtAlike(u: Insn, v: Insn)
    requires SameMeaning(u, v)
    ensures EncWfxt(u) == EncWfxt(v)
  {
  }

  lemma PstateFieldAlike(u: Insn, v: Insn)
    requires SameMeaning(u, v)
    ensures EncPstateField(u) == EncPstateField(v)
  {
    ImmAlike(u, v, 1);
  }

  lemma PstateAlike(u: Insn, v: Insn)
    requires SameMeaning(u, v)
    ensures EncMsrImm(u) == EncMsrImm(v)
  {
    if v.code.MsrImm? {
      PstateFieldAlike(u, v);
    } else {
    }
  }

  lemma MoveAlike(u: Insn, v: Insn)
    requires SameMeaning(u, v)
    ensures EncSysRegMove(u) == EncSysRegMove(v)
  {
  }

  lemma ResultAlike(u: Insn, v: Insn)
    requires SameMeaning(u, v)
    ensures EncSystemResult(u) == EncSystemResult(v)
  {
  }

  lemma PairAlike(u: Insn, v: Insn)
    requires SameMeaning(u, v)
    ensures EncSysRegPair(u) == EncSysRegPair(v)
  {
    PairBaseAlike(u, v, 0);
    PairBaseAlike(u, v, 1);
  }

  lemma GcsAlike(u: Insn, v: Insn)
    requires SameMeaning(u, v)
    ensures EncGcs(u) == EncGcs(v)
  {
  }

  lemma FieldAlikes(u: Insn, v: Insn, n: nat)
    requires SameMeaning(u, v)
    ensures RegNum(u, n) == RegNum(v, n) && ImmU32(u, n) == ImmU32(v, n) && CrNum(u, n) == CrNum(v, n)
  {
  }

  lemma SyslAlike(u: Insn, v: Insn)
    requires SameMeaning(u, v)
    ensures EncSysl(u) == EncSysl(v)
  {
    forall n: nat ensures RegNum(u, n) == RegNum(v, n) && ImmU32(u, n) == ImmU32(v, n) && CrNum(u, n) == CrNum(v, n) {
      FieldAlikes(u, v, n);
    }
  }

  lemma CanonicalAlike(u: Insn, v: Insn)
    requires SameMeaning(u, v)
    ensures EncSysCanonical(u) == EncSysCanonical(v)
  {
    forall n: nat ensures RegNum(u, n) == RegNum(v, n) && ImmU32(u, n) == ImmU32(v, n) && CrNum(u, n) == CrNum(v, n) {
      FieldAlikes(u, v, n);
    }
  }

  lemma SyspFieldsAlike(u: Insn, v: Insn)
    requires SameMeaning(u, v)
    ensures EncSyspFields(u) == EncSyspFields(v)
  {
    PairBaseAlike(u, v, 4);
    forall n: nat ensures RegNum(u, n) == RegNum(v, n) && ImmU32(u, n) == ImmU32(v, n) && CrNum(u, n) == CrNum(v, n) {
      FieldAlikes(u, v, n);
    }
  }

  lemma RctxAlike(u: Insn, v: Insn, op2: bv32)
    requires SameMeaning(u, v)
    ensures EncRctx(u, op2) == EncRctx(v, op2)
  {
    RegNumAlike(u, v, 1);
  }

  lemma NamedAlike(u: Insn, v: Insn, name: Option<Keyword>, names: SysNames)
    requires SameMeaning(u, v)
    ensures EncNamedAlias(u, name, names) == EncNamedAlias(v, name, names)
  {
    var r := names(v.mnemonic, name);
    if r.Some? { RegNumAlike(u, v, if r.value.kwFirst && name.Some? then 1 else 0); }
  }

  lemma AliasAlike(u: Insn, v: Insn, names: SysNames)
    requires SameMeaning(u, v)
    ensures EncSysAlias(u, names) == EncSysAlias(v, names)
  {
    NamedAlike(u, v, None, names);
    if v.Op(0).SysOp? { NamedAlike(u, v, Some(v.Op(0).keyword), names); }
    if v.Op(1).SysOp? { NamedAlike(u, v, Some(v.Op(1).keyword), names); }
  }

  lemma SysAlike(u: Insn, v: Insn, names: SysNames)
    requires SameMeaning(u, v)
    ensures EncSys(u, names) == EncSys(v, names)
  {
    if v.code.Sysl? && v.mnemonic == Own(Code.Sysl) {
      SyslAlike(u, v);
    } else if v.mnemonic == Own(Code.Sys) {
      CanonicalAlike(u, v);
    } else if v.mnemonic.Cfp? || v.mnemonic.Dvp? || v.mnemonic.Cpp? {
      RctxAlike(u, v, if v.mnemonic.Cfp? then 4 else if v.mnemonic.Dvp? then 5 else 7);
    } else {
      AliasAlike(u, v, names);
    }
  }

  lemma PairBaseAlike(u: Insn, v: Insn, n: nat)
    requires SameMeaning(u, v)
    ensures RegPairBase(u, n) == RegPairBase(v, n)
  {
  }

  lemma TlbipAlike(u: Insn, v: Insn, names: SysNames)
    requires SameMeaning(u, v)
    ensures EncTlbip(u, names) == EncTlbip(v, names)
  {
    PairBaseAlike(u, v, 1);
  }

  lemma SyspAlike(u: Insn, v: Insn, names: SysNames)
    requires SameMeaning(u, v)
    ensures EncSysp(u, names) == EncSysp(v, names)
  {
    TlbipAlike(u, v, names);
    SyspFieldsAlike(u, v);
  }

  lemma AppleAlike(u: Insn, v: Insn)
    requires SameMeaning(u, v)
    ensures Apple.EncodeApple(u) == Apple.EncodeApple(v)
  {
  }

  lemma EncoderAlike(e: Encoder, u: Insn, v: Insn, names: SysNames)
    requires Alike(u, v)
    ensures EncodeAs(e, u, names) == EncodeAs(e, v, names)
  {
    match e
    case ForCond => LabelledAlike(u, v);
    case ForSppc => SppcAlike(u, v);
    case ForUncond => LabelledAlike(u, v);
    case ForCompare => CompareAlike(u, v);
    case ForTest => TestAlike(u, v);
    case ForReg => RegAlike(u, v);
    case ForException => ExceptionAlike(u, v);
    case ForHint => HintAlike(u, v);
    case ForGcs => GcsAlike(u, v);
    case ForWfxt => WfxtAlike(u, v);
    case ForBarrier => BarrierAlike(u, v);
    case ForMsrImm => PstateAlike(u, v);
    case ForMove => MoveAlike(u, v);
    case ForSys => SysAlike(u, v, names);
    case ForResult => ResultAlike(u, v);
    case ForPairMove => PairAlike(u, v);
    case ForSysp => SyspAlike(u, v, names);
    case ForTchange => TchangeAlike(u, v);
    case ForUdf => UdfAlike(u, v);
    case ForCmpbr => CmpbrAlike(u, v);
    case NoEncoder =>
  }

  // The encoder does not look at the word and the mark, and at the address only for the
  // sake of a label.
  lemma EncodeAlike(u: Insn, v: Insn, names: SysNames)
    requires Alike(u, v)
    ensures DecodeTree.EncodeInsn(u, names) == DecodeTree.EncodeInsn(v, names)
  {
    if v.code.AppleCode? { AppleAlike(u, v); } else { EncoderAlike(EncoderOf(v.code), u, v, names); }
  }

  // --- re_encode. ---

  function Committed(v: Insn, names: SysNames): Insn {
    match DecodeTree.EncodeInsn(v, names)
    case Ok(word) => v.(word := word, modified := false)
    case Err(_) => v
  }

  method ReEncode(insn: Instruction, names: SysNames) returns (r: Encoded)
    requires insn.Valid()
    modifies insn
    ensures insn.Valid()
    ensures r == DecodeTree.EncodeInsn(old(insn.View()), names) && insn.View() == Committed(old(insn.View()), names)
  {
    var v := insn.Copy();
    r := DecodeTree.EncodeInsn(v, names);
    if r.Ok? {
      insn.word := r.value;
      insn.flags := insn.flags & 0xfe;
    }
  }

  // --- Histories of edits and commits. ---

  datatype Move = Edited(edit: Edit) | ReEncoded

  function After(v: Insn, m: Move, names: SysNames): Insn
    requires v.WellFormed()
    ensures After(v, m, names).WellFormed()
  {
    match m
    case Edited(e) => EditKeepsShape(v, e); Apply(v, e)
    case ReEncoded => Committed(v, names)
  }

  function Play(v: Insn, moves: seq<Move>, names: SysNames): Insn
    requires v.WellFormed()
    decreases |moves|
  {
    if moves == [] then v else Play(After(v, moves[0], names), moves[1..], names)
  }

  // is_modified is false only where word() is what the value encodes to.
  predicate Faithful(v: Insn, names: SysNames) {
    !v.modified ==> DecodeTree.EncodeInsn(v, names) == Ok(v.word)
  }

  lemma MoveKeepsFaith(v: Insn, m: Move, names: SysNames)
    requires v.WellFormed() && Faithful(v, names)
    ensures Faithful(After(v, m, names), names)
  {
    var w := After(v, m, names);
    if m.Edited? { EditMarks(v, m.edit); }
    if Alike(w, v) { EncodeAlike(w, v, names); }
  }

  lemma {:induction false} PlayKeepsFaith(v: Insn, moves: seq<Move>, names: SysNames)
    requires v.WellFormed() && Faithful(v, names)
    ensures Faithful(Play(v, moves, names), names)
    decreases |moves|
  {
    if moves != [] {
      MoveKeepsFaith(v, moves[0], names);
      PlayKeepsFaith(After(v, moves[0], names), moves[1..], names);
    }
  }

  // So it is after every history.
  ghost predicate AlwaysFaithful(v: Insn, names: SysNames)
    requires v.WellFormed()
  {
    forall moves :: Faithful(Play(v, moves, names), names)
  }

  lemma FaithfulAtFirst(v: Insn, names: SysNames)
    requires v.WellFormed() && AlwaysFaithful(v, names)
    ensures Faithful(v, names)
  {
    assert Play(v, [], names) == v;
  }

  // Through every history the unmarked values are the ones their word encodes, exactly if
  // the first one is.
  lemma UnmarkedIsItsWordIff(v: Insn, names: SysNames)
    requires v.WellFormed()
    ensures AlwaysFaithful(v, names) <==> Faithful(v, names)
  {
    if Faithful(v, names) {
      forall moves
        ensures Faithful(Play(v, moves, names), names)
      {
        PlayKeepsFaith(v, moves, names);
      }
    }
    if AlwaysFaithful(v, names) { FaithfulAtFirst(v, names); }
  }

  // --- Encode, then decode. ---

  ghost predicate DecodesTo(word: bv32, d: Insn, f: FeatureSet, table: SysTable, others: DecodeTree.Others) {
    DecodeTree.Modelled(word) && SameMeaning(DecodeTree.DecodeWord(word, d.ip, f, table, others), d)
  }

  lemma CanonicalDecodesTo(word: bv32, d: Insn, f: FeatureSet, table: SysTable, others: DecodeTree.Others)
    requires DecodesTo(word, d, f, table, others) && !d.IsInvalid()
    ensures DecodesTo(DecodeTree.CanonicalOf(word, f, table), d, f, table, others)
  {
    var y := DecodeTree.CanonicalOf(word, f, table);
    if DecodeTree.Op0Of(word) != 0 {
      CanonicalForm.CanonicalDecodesTheSame(word, f.Has, table, NewInvalid(word, d.ip));
      Relocation.RecordedWordFree(y, f.Has, table, NewInvalid(word, d.ip), y);
      DecodeTree.ClassesAreRouted(y);
    }
  }

  // What encodes comes back from its word with the same encoding, mnemonic and operands
  // exactly if the decoder makes it from any word at all.
  lemma ReturnsIffDecoded(d: Insn, f: FeatureSet, table: SysTable, others: DecodeTree.Others, names: SysNames)
    requires DecodeTree.EncodeInsn(d, names).Ok? && SysAliasLaws.Paired(table, names)
    ensures DecodesTo(DecodeTree.EncodeInsn(d, names).value, d, f, table, others)
            <==> exists word :: DecodesTo(word, d, f, table, others)
  {
    if word :| DecodesTo(word, d, f, table, others) {
      var e := DecodeTree.DecodeWord(word, d.ip, f, table, others);
      DecodeTree.RoundTripElsewhere(word, word, d.ip, f, table, others, names);
      EncodeAlike(d, e.(word := word), names);
      CanonicalDecodesTo(word, d, f, table, others);
    }
  }

  lemma ToSpEncodes(d: Insn, names: SysNames)
    requires d.code.Br? && d.Op(0) == Reg(Sp, PLAIN)
    ensures DecodeTree.EncodeInsn(d, names) == Ok(0xd61f_03e0)
  {
    RegFamily(d.code);
  }

  lemma ToZeroDecodes(f: Gate, table: SysTable, v: Insn)
    ensures Branch(0xd61f_03e0, f, table, v) == v.Set(Code.Br).Push(Reg(Xzr, PLAIN))
    ensures DecodeTree.Op0Of(0xd61f_03e0) == 11
  {
    assert ClassOf(0xd61f_03e0).RegBranch?;
  }

  // BR of the stack pointer encodes, and comes back as BR of the zero register.
  lemma StackPointerIsLost(d: Insn, f: FeatureSet, table: SysTable, others: DecodeTree.Others, names: SysNames)
    requires d.code.Br? && d.ops == [Reg(Sp, PLAIN)]
    ensures DecodeTree.EncodeInsn(d, names) == Ok(0xd61f_03e0) && !DecodesTo(0xd61f_03e0, d, f, table, others)
  {
    ToSpEncodes(d, names);
    ToZeroDecodes(f.Has, table, NewInvalid(0xd61f_03e0, d.ip));
  }
}
