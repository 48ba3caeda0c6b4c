/** The registers that a decoded word touches without naming them, by its bits. */
module DecodedImplicit {
  import opened Wrappers
  import opened Ints
  import opened Features
  import opened Isa
  import opened Instructions
  import opened BranchSpec
  import opened Access
  import opened Implicit
  import opened ImplicitLaws
  import opened Info
  import opened InfoLaws
  import opened EncodingTable
  import opened DecodedTable
  import DecodedInfo
  import DecodeTree
  import TableSystem

  // --- The signing hints. ---

  predicate SignsBySp(n: bv32) { n == 25 || n == 27 || n == 29 || n == 31 }

  predicate SignsByZero(n: bv32) { n == 7 || n == 24 || n == 26 || n == 28 || n == 30 }

  predicate Signs1716(n: bv32) { n == 8 || n == 10 || n == 12 || n == 14 }

  lemma HintNames(n: bv32, m: Mnemonic)
    requires SigningHints(n).Some? && m == SigningHints(n).value.mnemonic
    ensures SignsBySp(n) <==> SignsLinkBySp(m)
    ensures SignsByZero(n) <==> SignsLinkByZero(m)
    ensures Signs1716(n) <==> Is1716(m)
    ensures !IsCall(m) && !IsSignedReturn(m) && m != Own(Code.Ret) && !m.OtherMnemonic?
    ensures SigningHints(n).value.ops == []
  {
  }

  lemma SigningWord(word: bv32, ip: U64, f: Gate, table: SysTable, n: bv32)
    requires word & 0xfff8_f01f == 0xd500_201f && n == (word >> 5) & 0x7f
    requires f(Feature.PAuth) && SigningHints(n).Some?
    ensures Rows(word, ip, f, table) == SigningHints(n) && DecodeTree.Modelled(word)
  {
    TableSystem.BlockRows(word, f);
  }

  // What the report says where an instruction has no operands is what it touches
  // without naming it.
  lemma OnlyImplicit(d: Insn, t: Tables, r: Register)
    requires d.ops == [] && !r.NoRegister?
    ensures AccessOf(InfoOf(d, t).regs, r) == AccessOf(Listed(d), r)
  {
    ImplicitIsComplete(d, r);
    DecodedInfo.OrdinaryFits(d, t);
    InfoIsMap(d, t, r);
    assert Uses(d, t) == [];
  }

  // HINT #n as the report has it, for each of the fourteen pointer-authentication
  // hints: the link register, the stack pointer, and X17 with X16.
  lemma HintRegisters(word: bv32, ip: U64, f: FeatureSet, table: SysTable, others: DecodeTree.Others, t: Tables)
    requires word & 0xfff8_f01f == 0xd500_201f && f.Has(Feature.PAuth)
    requires SigningHints((word >> 5) & 0x7f).Some?
    ensures var n, regs := (word >> 5) & 0x7f, InfoOf(DecodeTree.DecodeWord(word, ip, f, table, others), t).regs;
            && AccessOf(regs, X(30)) == (if SignsBySp(n) || SignsByZero(n) then ReadWrite else NoAccess)
            && AccessOf(regs, Sp) == (if SignsBySp(n) then Read else NoAccess)
            && AccessOf(regs, X(17)) == (if Signs1716(n) then ReadWrite else NoAccess)
            && AccessOf(regs, X(16)) == (if Signs1716(n) then Read else NoAccess)
  {
    var n, d := (word >> 5) & 0x7f, DecodeTree.DecodeWord(word, ip, f, table, others);
    SigningWord(word, ip, f.Has, table, n);
    DecoderIsTable(word, ip, f, table, others);
    HintNames(n, d.mnemonic);
    SigningRegisters(d, t, n);
  }

  lemma SigningRegisters(d: Insn, t: Tables, n: bv32)
    requires d.ops == [] && SigningHints(n).Some? && d.mnemonic == SigningHints(n).value.mnemonic
    ensures var regs := InfoOf(d, t).regs;
            && AccessOf(regs, X(30)) == (if SignsBySp(n) || SignsByZero(n) then ReadWrite else NoAccess)
            && AccessOf(regs, Sp) == (if SignsBySp(n) then Read else NoAccess)
            && AccessOf(regs, X(17)) == (if Signs1716(n) then ReadWrite else NoAccess)
            && AccessOf(regs, X(16)) == (if Signs1716(n) then Read else NoAccess)
  {
    HintNames(n, d.mnemonic);
    OnlyImplicit(d, t, X(30));
    OnlyImplicit(d, t, Sp);
    OnlyImplicit(d, t, X(17));
    OnlyImplicit(d, t, X(16));
    LinkRegisterEntry(d);
    SpEntry(d);
    GeneralEntry(d, 17);
    GeneralEntry(d, 16);
  }

  // --- Register branches. ---

  predicate CallsByRegister(word: bv32) { word & 0xfee0_0000 == 0xd620_0000 }

  // RET, RETAA and RETAB, RETAASPPCR and RETABSPPCR.
  predicate ReturnsByLink(word: bv32) {
    word == 0xd65f_03c0 || word & 0xffff_fbff == 0xd65f_0bff || word & 0xffff_fbe0 == 0xd65f_0be0
  }

  // The same with ERETAA and ERETAB, but for RET.
  predicate ReturnsBySp(word: bv32) {
    word & 0xffff_fbff == 0xd69f_0bff || word & 0xffff_fbff == 0xd65f_0bff || word & 0xffff_fbe0 == 0xd65f_0be0
  }

  // What the name of a row says of the link register and the stack pointer.
  predicate SaysOfWord(row: Option<Row>, word: bv32) {
    row.Some? ==>
      var m, ops := row.value.mnemonic, row.value.ops;
      && (IsCall(m) <==> CallsByRegister(word)) && (IsSignedReturn(m) <==> ReturnsBySp(word))
      && ((m == Own(Code.Ret) && ops == []) || IsSignedLinkReturn(m) <==> ReturnsByLink(word))
      && m.Own?
  }

  lemma PlainSays(word: bv32, f: Gate)
    requires word & 0xfe1f_fc1f == 0xd61f_0000
    ensures SaysOfWord(RegisterRows(word, f), word)
  {
  }

  lemma ReturnSays(word: bv32, f: Gate)
    requires word & 0xffff_f800 == 0xd65f_0800
    ensures SaysOfWord(RegisterRows(word, f), word)
  {
  }

  lemma SignedZeroSays(word: bv32, f: Gate)
    requires word & 0xff00_0000 == 0xd600_0000
    requires word & 0xfe1f_fc1f != 0xd61f_0000 && word & 0xffff_f800 != 0xd65f_0800
    ensures SaysOfWord(RegisterRows(word, f), word)
  {
  }

  lemma SignedPairSays(word: bv32, f: Gate)
    requires word & 0xff00_0000 == 0xd700_0000 && word & 0xfe1f_fc1f != 0xd61f_0000
    ensures SaysOfWord(RegisterRows(word, f), word)
  {
  }

  lemma RegisterBranchRegisters(word: bv32, ip: U64, f: FeatureSet, table: SysTable, others: DecodeTree.Others)
    requires word & 0xfe00_0000 == 0xd600_0000 && DecodeTree.Modelled(word)
    requires !DecodeTree.DecodeWord(word, ip, f, table, others).IsInvalid()
    ensures var listed := Listed(DecodeTree.DecodeWord(word, ip, f, table, others));
            && AccessOf(listed, Sp) == (if ReturnsBySp(word) then Read else NoAccess)
            && AccessOf(listed, X(30)) == (if CallsByRegister(word) then Write
                                           else if ReturnsByLink(word) then Read else NoAccess)
  {
    var d := DecodeTree.DecodeWord(word, ip, f, table, others);
    DecoderIsTable(word, ip, f, table, others);
    RegisterBlockRows(word, ip, f.Has, table);
    if word & 0xfe1f_fc1f == 0xd61f_0000 {
      PlainSays(word, f.Has);
    } else if word & 0xffff_f800 == 0xd65f_0800 {
      ReturnSays(word, f.Has);
    } else if word & 0xff00_0000 == 0xd600_0000 {
      SignedZeroSays(word, f.Has);
    } else {
      SignedPairSays(word, f.Has);
    }
    NamedTouches(d, word, RegisterRows(word, f.Has));
  }

  lemma NamedTouches(d: Insn, word: bv32, row: Option<Row>)
    requires row.Some? && d.mnemonic == row.value.mnemonic && d.ops == row.value.ops && SaysOfWord(row, word)
    ensures AccessOf(Listed(d), Sp) == if ReturnsBySp(word) then Read else NoAccess
    ensures AccessOf(Listed(d), X(30)) ==
            if CallsByRegister(word) then Write else if ReturnsByLink(word) then Read else NoAccess
  {
    LinkRegisterEntry(d);
    SpEntry(d);
  }

  // --- SMSTART and SMSTOP. ---

  // They set ZA up or down unless they are for streaming mode alone.
  lemma StreamRegisters(word: bv32, ip: U64, f: FeatureSet, table: SysTable, others: DecodeTree.Others)
    requires word & 0xffff_f0ff == 0xd503_407f && DecodeTree.Modelled(word)
    ensures AccessOf(Listed(DecodeTree.DecodeWord(word, ip, f, table, others)), Za)
            == if word & 0x0600 == 0x0200 then NoAccess else Write
  {
    var d := DecodeTree.DecodeWord(word, ip, f, table, others);
    DecoderIsTable(word, ip, f, table, others);
    StreamRows(word, ip, f.Has, table);
    TableSystem.StreamTable(word, (word >> 8) & 15);
    StreamTouches(d, (word >> 8) & 15);
  }

  lemma StreamTouches(d: Insn, crm: bv32)
    requires d.mnemonic == Own(Code.Smstart) || d.mnemonic == Own(Code.Smstop)
    requires d.ops == TableSystem.StreamOps(crm)
    ensures AccessOf(Listed(d), Za) == if crm & 6 == 2 then NoAccess else Write
  {
    ZaEntry(d);
  }

  lemma StreamRows(word: bv32, ip: U64, f: Gate, table: SysTable)
    requires word & 0xffff_f0ff == 0xd503_407f
    ensures Rows(word, ip, f, table) == PstateRows(word)
    ensures ((word >> 8) & 15) & 6 == 2 <==> word & 0x0600 == 0x0200
  {
    TableSystem.BlockRows(word, f);
  }
}
