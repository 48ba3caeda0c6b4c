/** SYS, SYSL and SYSP: the operand forms and the directory of named aliases, shared by
    the decoder (by selector) and the encoder (by name). */
module SysAliasLaws {
  import opened Wrappers
  import opened Ints
  import opened Fields
  import opened Features
  import opened Isa
  import opened Instructions
  import opened Encoding
  import opened BranchSpec
  import opened BranchEncode
  import opened BranchLaws
  import opened SystemLaws

  // An entry the encoder finds again by the name the decoder printed.
  predicate EntryPaired(s: SysFields, t: SysEntry, names: SysNames) {
    && names(t.mnem, t.name) == Some(NamedEntry(s.op1, s.crn, s.crm, s.op2, t.needsRt, t.kwFirst))
    && t.mnem != Own(Code.Sys) && t.mnem != Own(Code.Sysl)
    && t.mnem != Mnemonic.Cfp && t.mnem != Mnemonic.Dvp && t.mnem != Mnemonic.Cpp
    && (t.name.None? <==> t.mnem == Mnemonic.Apas || t.mnem == Mnemonic.Trcit)
    && (!t.kwFirst <==> t.mnem == Mnemonic.Gicr) && (!t.kwFirst ==> t.needsRt)
  }

  function EntryOf(s: SysFields, table: SysTable): Option<SysEntry> {
    table(s.read, s.op1, s.crn, s.crm, s.op2)
  }

  // The two directions of one directory. The RCTX selectors never reach it.
  ghost predicate Paired(table: SysTable, names: SysNames) {
    forall s: SysFields ::
      var t := EntryOf(s, table);
      InRange(s) && t.Some? && (RctxAlias(s).None? || t.value.mnem == Mnemonic.Tlbi) ==> EntryPaired(s, t.value, names)
  }

  // --- The named aliases. ---

  // Whole-structure operations ignore Rt.
  function CanonicalAlias(s: SysFields, t: SysEntry): SysFields {
    if t.needsRt then s else s.(rt := 31)
  }

  lemma AliasName(d: Insn, t: SysEntry, k: Keyword, names: SysNames)
    requires d.mnemonic == t.mnem && t.name == Some(k)
    requires t.mnem != Mnemonic.Apas && t.mnem != Mnemonic.Trcit
    requires d.Op(if t.mnem == Mnemonic.Gicr then 1 else 0) == SysOp(k)
    ensures EncSysAlias(d, names) == EncNamedAlias(d, t.name, names)
  {
  }

  lemma BareAliasName(d: Insn, names: SysNames)
    requires d.mnemonic == Mnemonic.Apas || d.mnemonic == Mnemonic.Trcit
    ensures EncSysAlias(d, names) == EncNamedAlias(d, None, names)
  {
  }

  lemma EncodesAlias(d: Insn, s: SysFields, t: SysEntry, r: Register, names: SysNames)
    requires InRange(s) && s.op0 == 1 && d.mnemonic == t.mnem && (d.code.Sysl? <==> s.read)
    requires names(t.mnem, t.name) == Some(NamedEntry(s.op1, s.crn, s.crm, s.op2, t.needsRt, t.kwFirst))
    requires t.needsRt ==> d.Op(if t.kwFirst && t.name.Some? then 1 else 0) == Reg(r, PLAIN) && Number(r) == s.rt
    ensures EncNamedAlias(d, t.name, names) == Ok(SystemWordOf(CanonicalAlias(s, t)))
  {
  }

  // A named form: the register and the operation name in the order of its row.
  function Spelled(c: Code, t: SysEntry, rt: Operand, v: Insn): Insn {
    var named := v.Set(c).SetAlias(t.mnem);
    var first := if t.name.Some? && t.kwFirst then named.Push(SysOp(t.name.value)) else named;
    var withRt := if t.needsRt then first.Push(rt) else first;
    if t.name.Some? && !t.kwFirst then withRt.Push(SysOp(t.name.value)) else withRt
  }

  lemma SpelledShape(c: Code, t: SysEntry, rt: Operand, v: Insn)
    requires (t.name.None? ==> t.kwFirst) && (!t.kwFirst ==> t.needsRt)
    ensures var d := Spelled(c, t, rt, v);
            && d.code == c && d.mnemonic == t.mnem
            && (t.needsRt ==> d.Op(if t.kwFirst && t.name.Some? then 1 else 0) == rt)
            && (t.name.Some? ==> d.Op(if t.kwFirst then 0 else 1) == SysOp(t.name.value))
  {
  }

  lemma AliasShape(s: SysFields, t: SysEntry, r: Register, v: Insn)
    requires XReg(false, s.rt) == Reg(r, PLAIN) && (t.name.None? ==> t.kwFirst) && (!t.kwFirst ==> t.needsRt)
    ensures var d := SysAlias(s, t, v);
            && d.code == (if s.read then Code.Sysl else Code.Sys) && d.mnemonic == t.mnem
            && (t.needsRt ==> d.Op(if t.kwFirst && t.name.Some? then 1 else 0) == Reg(r, PLAIN))
            && (t.name.Some? ==> d.Op(if t.kwFirst then 0 else 1) == SysOp(t.name.value))
  {
    SpelledShape(if s.read then Code.Sysl else Code.Sys, t, XReg(false, s.rt), v);
    AliasSpelled(s, t, v);
  }

  lemma AliasSpelled(s: SysFields, t: SysEntry, v: Insn)
    ensures SysAlias(s, t, v) == Spelled(if s.read then Code.Sysl else Code.Sys, t, XReg(false, s.rt), v)
  {
  }

  lemma AliasDispatch(d: Insn, names: SysNames)
    requires d.code == Code.Sys || d.code == Code.Sysl
    requires d.mnemonic != Own(Code.Sys) && d.mnemonic != Own(Code.Sysl)
    requires d.mnemonic != Mnemonic.Cfp && d.mnemonic != Mnemonic.Dvp && d.mnemonic != Mnemonic.Cpp
    ensures EncSys(d, names) == EncSysAlias(d, names)
  {
  }

  lemma AliasRoundTrip(s: SysFields, t: SysEntry, names: SysNames, v: Insn)
    requires InRange(s) && s.op0 == 1 && EntryPaired(s, t, names)
    ensures EncSys(SysAlias(s, t, v), names) == Ok(SystemWordOf(CanonicalAlias(s, t)))
  {
    var d := SysAlias(s, t, v);
    var r := XOperand(false, s.rt);
    AliasShape(s, t, r, v);
    AliasDispatch(d, names);
    if t.name.Some? {
      AliasName(d, t, t.name.value, names);
    } else {
      BareAliasName(d, names);
    }
    EncodesAlias(d, s, t, r, names);
  }

  // --- RCTX, SYS and SYSL with their fields written out. ---

  lemma RctxRoundTrip(s: SysFields, names: SysNames, v: Insn)
    requires InRange(s) && s.op0 == 1 && RctxAlias(s).Some?
    ensures var d := v.Set(Code.Sys).SetAlias(RctxAlias(s).value).Push(SysOp(Keyword.Rctx)).Push(XReg(false, s.rt));
            EncSys(d, names) == Ok(SystemWordOf(s))
  {
    var m := RctxAlias(s).value;
    var r := XOperand(false, s.rt);
    var d := v.Set(Code.Sys).SetAlias(m).Push(SysOp(Keyword.Rctx)).Push(Reg(r, PLAIN));
  }

  // #op1, Cn, Cm, #op2 from slot i on.
  ghost predicate FieldsAt(d: Insn, i: nat, s: SysFields, n1: U64, n2: U64) {
    && d.Op(i) == ImmUnsigned(n1) && d.Op(i + 1) == SysOp(Keyword.Cr(s.crn)) && d.Op(i + 2) == SysOp(Keyword.Cr(s.crm))
    && d.Op(i + 3) == ImmUnsigned(n2) && Low32(n1) == s.op1 && Low32(n2) == s.op2
  }

  lemma FourPushes(a: Operand, b: Operand, c: Operand, d: Operand, v: Insn)
    requires |v.ops| <= 1
    ensures var w, i := v.Push(a).Push(b).Push(c).Push(d), |v.ops|;
            && w.Op(i) == a && w.Op(i + 1) == b && w.Op(i + 2) == c && w.Op(i + 3) == d && |w.ops| == i + 4
            && w == v.(ops := w.ops) && (i == 1 ==> w.Op(0) == v.Op(0))
  {
  }

  lemma SysFieldsPushed(s: SysFields, v: Insn) returns (n1: U64, n2: U64)
    requires InRange(s) && |v.ops| <= 1
    ensures var w, i := WithSysFields(s, v), |v.ops|;
            FieldsAt(w, i, s, n1, n2) && |w.ops| == i + 4 && w == v.(ops := w.ops) && (i == 1 ==> w.Op(0) == v.Op(0))
  {
    n1 := Number7(s.op1);
    n2 := Number7(s.op2);
    assert s.crn & 15 == s.crn && s.crm & 15 == s.crm;
    FourPushes(ImmUnsigned(n1), SysOp(Keyword.Cr(s.crn)), SysOp(Keyword.Cr(s.crm)), ImmUnsigned(n2), v);
  }

  ghost predicate ReadsFields(d: Insn, i: nat, s: SysFields) {
    && ImmU32(d, i) == Ok(s.op1) && CrNum(d, i + 1) == Ok(s.crn)
    && CrNum(d, i + 2) == Ok(s.crm) && ImmU32(d, i + 3) == Ok(s.op2)
  }

  lemma FieldsRead(d: Insn, i: nat, s: SysFields, n1: U64, n2: U64)
    requires FieldsAt(d, i, s, n1, n2)
    ensures ReadsFields(d, i, s)
  {
    NumberRead(d, i, n1);
    CrRead(d, i + 1, s.crn);
    CrRead(d, i + 2, s.crm);
    NumberRead(d, i + 3, n2);
  }

  lemma NumberRead(d: Insn, i: nat, n: U64)
    requires d.Op(i) == ImmUnsigned(n)
    ensures ImmU32(d, i) == Ok(Low32(n))
  {
  }

  lemma CrRead(d: Insn, i: nat, x: bv32)
    requires d.Op(i) == SysOp(Keyword.Cr(x))
    ensures CrNum(d, i) == Ok(x)
  {
  }

  lemma EncodesSysl(d: Insn, s: SysFields)
    requires RegNum(d, 0) == Ok(s.rt) && ReadsFields(d, 1, s)
    ensures EncSysl(d) == Ok(SystemWord(1, 1, s.op1, s.crn, s.crm, s.op2, s.rt))
  {
  }

  lemma EncodesSysCanonical(d: Insn, s: SysFields)
    requires ReadsFields(d, 0, s) && |d.ops| == 5 && RegNum(d, 4) == Ok(s.rt)
    ensures EncSysCanonical(d) == Ok(SystemWord(0, 1, s.op1, s.crn, s.crm, s.op2, s.rt))
  {
  }

  lemma SyslDispatch(d: Insn, names: SysNames)
    requires d.code == Code.Sysl && d.mnemonic == Own(Code.Sysl)
    ensures EncSys(d, names) == EncSysl(d)
  {
  }

  lemma SysDispatch(d: Insn, names: SysNames)
    requires d.code == Code.Sys && d.mnemonic == Own(Code.Sys)
    ensures EncSys(d, names) == EncSysCanonical(d)
  {
  }

  lemma EncodesSyslInsn(d: Insn, s: SysFields, names: SysNames)
    requires d.code == Code.Sysl && d.mnemonic == Own(Code.Sysl) && RegNum(d, 0) == Ok(s.rt) && ReadsFields(d, 1, s)
    ensures EncSys(d, names) == Ok(SystemWord(1, 1, s.op1, s.crn, s.crm, s.op2, s.rt))
  {
    SyslDispatch(d, names);
    EncodesSysl(d, s);
  }

  lemma SyslHead(r: Register, v: Insn)
    ensures var d := v.Set(Code.Sysl).Push(Reg(r, PLAIN));
            d.code == Code.Sysl && d.mnemonic == Own(Code.Sysl) && |d.ops| == 1 && d.Op(0) == Reg(r, PLAIN)
  {
    OneOperand(Code.Sysl, Reg(r, PLAIN), v);
    NamedByCode(Code.Sysl, Reg(r, PLAIN), v);
  }

  lemma SyslShape(s: SysFields, r: Register, base: Insn)
    requires InRange(s) && Number(r) == s.rt && |base.ops| == 1 && base.Op(0) == Reg(r, PLAIN)
    ensures var d := WithSysFields(s, base);
            d.code == base.code && d.mnemonic == base.mnemonic && RegNum(d, 0) == Ok(s.rt) && ReadsFields(d, 1, s)
  {
    var n1, n2 := SysFieldsPushed(s, base);
    FieldsRead(WithSysFields(s, base), 1, s, n1, n2);
  }

  lemma SyslLeaf(s: SysFields, r: Register, names: SysNames, v: Insn)
    requires InRange(s) && Number(r) == s.rt
    ensures EncSys(WithSysFields(s, v.Set(Code.Sysl).Push(Reg(r, PLAIN))), names)
            == Ok(SystemWord(1, 1, s.op1, s.crn, s.crm, s.op2, s.rt))
  {
    SyslHead(r, v);
    SyslShape(s, r, v.Set(Code.Sysl).Push(Reg(r, PLAIN)));
    EncodesSyslInsn(WithSysFields(s, v.Set(Code.Sysl).Push(Reg(r, PLAIN))), s, names);
  }

  lemma SyslRoundTrip(s: SysFields, names: SysNames, v: Insn)
    requires InRange(s) && s.op0 == 1 && s.read
    ensures EncSys(SysCanonical(s, v), names) == Ok(SystemWordOf(s))
  {
    var r := XOperand(false, s.rt);
    SyslLeaf(s, r, names, v);
  }

  lemma EncodesSysInsn(d: Insn, s: SysFields, names: SysNames)
    requires d.code == Code.Sys && d.mnemonic == Own(Code.Sys) && ReadsFields(d, 0, s) && |d.ops| == 5
    requires RegNum(d, 4) == Ok(s.rt)
    ensures EncSys(d, names) == Ok(SystemWord(0, 1, s.op1, s.crn, s.crm, s.op2, s.rt))
  {
    SysDispatch(d, names);
    EncodesSysCanonical(d, s);
  }

  // Four fields and one more operand on an empty list.
  lemma FiveShape(s: SysFields, a: Operand, v: Insn)
    requires InRange(s) && v.ops == []
    ensures var d := WithSysFields(s, v).Push(a);
            d.code == v.code && d.mnemonic == v.mnemonic && ReadsFields(d, 0, s) && |d.ops| == 5 && d.Op(4) == a
  {
    var n1, n2 := SysFieldsPushed(s, v);
    FieldsRead(WithSysFields(s, v).Push(a), 0, s, n1, n2);
  }

  lemma FourShape(s: SysFields, v: Insn)
    requires InRange(s) && v.ops == []
    ensures var d := WithSysFields(s, v);
            d.code == v.code && d.mnemonic == v.mnemonic && ReadsFields(d, 0, s) && |d.ops| == 4
  {
    var n1, n2 := SysFieldsPushed(s, v);
    FieldsRead(WithSysFields(s, v), 0, s, n1, n2);
  }

  lemma FifthRegister(s: SysFields, r: Register, b: Insn)
    requires InRange(s) && Number(r) == s.rt && b.ops == []
    ensures var d := WithSysFields(s, b).Push(Reg(r, PLAIN));
            && d.code == b.code && d.mnemonic == b.mnemonic && ReadsFields(d, 0, s) && |d.ops| == 5
            && RegNum(d, 4) == Ok(s.rt)
  {
    FiveShape(s, Reg(r, PLAIN), b);
  }

  lemma SysWriteAt(s: SysFields, r: Register, names: SysNames, b: Insn)
    requires InRange(s) && Number(r) == s.rt && b.code == Code.Sys && b.mnemonic == Own(Code.Sys) && b.ops == []
    ensures EncSys(WithSysFields(s, b).Push(Reg(r, PLAIN)), names)
            == Ok(SystemWord(0, 1, s.op1, s.crn, s.crm, s.op2, s.rt))
  {
    FifthRegister(s, r, b);
    EncodesSysInsn(WithSysFields(s, b).Push(Reg(r, PLAIN)), s, names);
  }

  lemma BareOf(c: Code, v: Insn)
    ensures var d := v.Set(c); d.code == c && d.mnemonic == MnemonicOf(c) && d.ops == []
  {
  }

  lemma SysWriteLeaf(s: SysFields, r: Register, names: SysNames, v: Insn)
    requires InRange(s) && Number(r) == s.rt
    ensures EncSys(WithSysFields(s, v.Set(Code.Sys)).Push(Reg(r, PLAIN)), names)
            == Ok(SystemWord(0, 1, s.op1, s.crn, s.crm, s.op2, s.rt))
  {
    BareOf(Code.Sys, v);
    SysWriteAt(s, r, names, v.Set(Code.Sys));
  }

  lemma SysWriteRoundTrip(s: SysFields, names: SysNames, v: Insn)
    requires InRange(s) && s.op0 == 1 && !s.read
    ensures EncSys(SysCanonical(s, v), names) == Ok(SystemWordOf(s))
  {
    var r := XOperand(false, s.rt);
    SysWriteLeaf(s, r, names, v);
  }

  // --- SYS and SYSL as a whole. ---

  function CanonicalSys(s: SysFields, f: Gate, table: SysTable): SysFields {
    if RctxAlias(s).Some? then s
    else if GcsCode(s).Some? && f(Feature.Gcs) then CanonicalGcs(s, GcsCode(s).value)
    else
      match EntryOf(s, table)
      case Some(t) => CanonicalAlias(s, t)
      case None => s
  }

  lemma SysTableRoundTrip(s: SysFields, table: SysTable, names: SysNames, v: Insn)
    requires InRange(s) && s.op0 == 1 && RctxAlias(s).None? && Paired(table, names)
    ensures match EntryOf(s, table)
            case Some(t) => EncSys(SysAlias(s, t, v), names) == Ok(SystemWordOf(CanonicalAlias(s, t)))
            case None => EncSys(SysCanonical(s, v), names) == Ok(SystemWordOf(s))
  {
    match EntryOf(s, table)
    case Some(t) =>
      AliasRoundTrip(s, t, names, v);
    case None =>
      if s.read { SyslRoundTrip(s, names, v); } else { SysWriteRoundTrip(s, names, v); }
  }

  // --- The pair block. ---

  lemma PairBase(rt: bv32, d: Insn, n: nat)
    requires rt <= 31 && rt & 1 == 0 && d.Op(n) == RegPairOf(rt)
    ensures RegPairBase(d, n) == Ok(rt)
  {
    XRegNumber(false, rt);
    GpRegisterInvertible(false, X64, rt + 1);
    EvenPair(rt);
  }

  lemma EvenPair(rt: bv32)
    requires rt <= 31 && rt & 1 == 0
    ensures rt <= 30 && (rt + 1) & 31 == rt + 1
  {
  }

  lemma PairWordIs(l: bv32, op0: bv32, op1: bv32, crn: bv32, crm: bv32, op2: bv32, rt: bv32)
    requires op0 <= 3 && op1 <= 7 && crn <= 15 && crm <= 15 && op2 <= 7
    ensures PairMoveWord(l, SysRegOf(op0, op1, crn, crm, op2), rt) == SystemPairWord(l, op0, op1, crn, crm, op2, rt)
  {
    MoveWordIs(l, op0, op1, crn, crm, op2, rt);
  }

  function PairWordOf(s: SysFields): bv32 {
    SystemPairWord(if s.read then 1 else 0, s.op0, s.op1, s.crn, s.crm, s.op2, s.rt)
  }

  lemma PairWordOfFields(word: bv32)
    requires word & 0xffc0_0000 == 0xd540_0000
    ensures PairWordOf(FieldsOf(word)) == word
  {
    OneBit(word);
  }

  lemma EncodesMrrs(d: Insn, rt: bv32, sr: bv32)
    requires d.code == Code.Mrrs && RegPairBase(d, 0) == Ok(rt) && d.Op(1) == SysReg(sr)
    ensures EncSysRegPair(d) == Ok(PairMoveWord(1, sr, rt))
  {
  }

  lemma EncodesMsrr(d: Insn, rt: bv32, sr: bv32)
    requires !d.code.Mrrs? && RegPairBase(d, 1) == Ok(rt) && d.Op(0) == SysReg(sr)
    ensures EncSysRegPair(d) == Ok(PairMoveWord(0, sr, rt))
  {
  }

  lemma PairMoveRoundTrip(s: SysFields, v: Insn)
    requires InRange(s) && s.rt & 1 == 0
    ensures var d := PairMove(s, v);
            d.code == (if s.read then Code.Mrrs else Code.Msrr) && EncSysRegPair(d) == Ok(PairWordOf(s))
  {
    var sr := SysRegOf(s.op0, s.op1, s.crn, s.crm, s.op2);
    PairWordIs(if s.read then 1 else 0, s.op0, s.op1, s.crn, s.crm, s.op2, s.rt);
    if s.read {
      var d := v.Set(Code.Mrrs).Push(RegPairOf(s.rt)).Push(SysReg(sr));
      TwoOperands(Code.Mrrs, RegPairOf(s.rt), SysReg(sr), v);
      PairBase(s.rt, d, 0);
      EncodesMrrs(d, s.rt, sr);
    } else {
      var d := v.Set(Code.Msrr).Push(SysReg(sr)).Push(RegPairOf(s.rt));
      TwoOperands(Code.Msrr, SysReg(sr), RegPairOf(s.rt), v);
      PairBase(s.rt, d, 1);
      EncodesMsrr(d, s.rt, sr);
    }
  }

  lemma EncodesTlbip(d: Insn, s: SysFields, k: Keyword, names: SysNames, t: NamedEntry)
    requires d.Op(0) == SysOp(k) && RegPairBase(d, 1) == Ok(s.rt)
    requires names(Mnemonic.Tlbi, Some(k)) == Some(t)
    requires t.op1 == s.op1 && t.crn == s.crn && t.crm == s.crm && t.op2 == s.op2
    ensures EncTlbip(d, names) == Ok(SystemPairWord(0, 1, s.op1, s.crn, s.crm, s.op2, s.rt))
  {
  }

  lemma SyspDispatch(d: Insn, names: SysNames)
    ensures d.mnemonic == Mnemonic.Tlbip ==> EncSysp(d, names) == EncTlbip(d, names)
    ensures d.mnemonic == Own(Code.Sysp) ==> EncSysp(d, names) == EncSyspFields(d)
  {
  }

  lemma RenamedShape(c: Code, m: Mnemonic, a: Operand, b: Operand, v: Insn)
    ensures var d := v.Set(c).SetAlias(m).Push(a).Push(b);
            d.code == c && d.mnemonic == m && d.Op(0) == a && d.Op(1) == b
  {
  }

  // The pair operand of a transfer base; 31 is no transfer.
  function TransferPair(rt: bv32): Operand {
    if rt == 31 then RegPair(Xzr, Xzr) else RegPairOf(rt)
  }

  lemma TransferBase(rt: bv32, d: Insn, n: nat)
    requires rt <= 31 && (rt & 1 == 0 || rt == 31) && d.Op(n) == TransferPair(rt)
    ensures RegPairBase(d, n) == Ok(rt)
  {
    if rt != 31 { PairBase(rt, d, n); }
  }

  lemma TlbipLeaf(s: SysFields, k: Keyword, t: NamedEntry, names: SysNames, v: Insn)
    requires InRange(s) && (s.rt & 1 == 0 || s.rt == 31) && names(Mnemonic.Tlbi, Some(k)) == Some(t)
    requires t.op1 == s.op1 && t.crn == s.crn && t.crm == s.crm && t.op2 == s.op2
    ensures var d := v.Set(Code.Sysp).SetAlias(Mnemonic.Tlbip).Push(SysOp(k)).Push(TransferPair(s.rt));
            d.code == Code.Sysp && EncSysp(d, names) == Ok(SystemPairWord(0, 1, s.op1, s.crn, s.crm, s.op2, s.rt))
  {
    var d := v.Set(Code.Sysp).SetAlias(Mnemonic.Tlbip).Push(SysOp(k)).Push(TransferPair(s.rt));
    RenamedShape(Code.Sysp, Mnemonic.Tlbip, SysOp(k), TransferPair(s.rt), v);
    TransferBase(s.rt, d, 1);
    SyspDispatch(d, names);
    EncodesTlbip(d, s, k, names, t);
  }

  lemma TlbipRoundTrip(s: SysFields, t: SysEntry, names: SysNames, v: Insn)
    requires InRange(s) && !s.read && s.op0 == 1 && (s.rt & 1 == 0 || s.rt == 31)
    requires EntryPaired(s, t, names) && t.mnem == Mnemonic.Tlbi
    ensures TlbipOf(s, t, v).code == Code.Sysp && EncSysp(TlbipOf(s, t, v), names) == Ok(PairWordOf(s))
  {
    TlbipLeaf(s, t.name.value, NamedEntry(s.op1, s.crn, s.crm, s.op2, t.needsRt, t.kwFirst), names, v);
  }

  lemma SyspBareAt(s: SysFields, names: SysNames, b: Insn)
    requires InRange(s) && s.rt == 31 && b.mnemonic == Own(Code.Sysp) && b.ops == []
    ensures EncSysp(WithSysFields(s, b), names) == Ok(SystemPairWord(0, 1, s.op1, s.crn, s.crm, s.op2, s.rt))
  {
    FourShape(s, b);
    SyspDispatch(WithSysFields(s, b), names);
  }

  lemma SyspName()
    ensures MnemonicOf(Code.Sysp) == Own(Code.Sysp)
  {
  }

  lemma SyspBare(s: SysFields, names: SysNames, v: Insn)
    requires InRange(s) && s.rt == 31
    ensures EncSysp(WithSysFields(s, v.Set(Code.Sysp)), names)
            == Ok(SystemPairWord(0, 1, s.op1, s.crn, s.crm, s.op2, s.rt))
  {
    SyspName();
    BareOf(Code.Sysp, v);
    SyspBareAt(s, names, v.Set(Code.Sysp));
  }

  lemma FifthPair(d: Insn, rt: bv32)
    requires d.Op(4) == RegPairOf(rt) && rt <= 31 && rt & 1 == 0
    ensures RegPairBase(d, 4) == Ok(rt)
  {
    EvenPair(rt);
    PairBase(rt, d, 4);
  }

  lemma EncodesSyspPair(d: Insn, s: SysFields, names: SysNames)
    requires d.mnemonic == Own(Code.Sysp) && ReadsFields(d, 0, s) && |d.ops| == 5 && d.Op(4) == RegPairOf(s.rt)
    requires InRange(s) && s.rt & 1 == 0
    ensures EncSysp(d, names) == Ok(SystemPairWord(0, 1, s.op1, s.crn, s.crm, s.op2, s.rt))
  {
    FifthPair(d, s.rt);
    SyspDispatch(d, names);
  }

  lemma SyspTransferAt(s: SysFields, names: SysNames, b: Insn)
    requires InRange(s) && s.rt & 1 == 0 && b.mnemonic == Own(Code.Sysp) && b.ops == []
    ensures EncSysp(WithSysFields(s, b).Push(RegPairOf(s.rt)), names)
            == Ok(SystemPairWord(0, 1, s.op1, s.crn, s.crm, s.op2, s.rt))
  {
    FiveShape(s, RegPairOf(s.rt), b);
    EncodesSyspPair(WithSysFields(s, b).Push(RegPairOf(s.rt)), s, names);
  }

  lemma SyspTransfer(s: SysFields, names: SysNames, v: Insn)
    requires InRange(s) && s.rt & 1 == 0
    ensures EncSysp(WithSysFields(s, v.Set(Code.Sysp)).Push(RegPairOf(s.rt)), names)
            == Ok(SystemPairWord(0, 1, s.op1, s.crn, s.crm, s.op2, s.rt))
  {
    SyspName();
    BareOf(Code.Sysp, v);
    SyspTransferAt(s, names, v.Set(Code.Sysp));
  }

  lemma SyspRoundTrip(s: SysFields, table: SysTable, names: SysNames, v: Insn)
    requires InRange(s) && !s.read && s.op0 == 1 && v.IsInvalid() && Paired(table, names)
    ensures var d := SyspOf(s, table, v);
            !d.IsInvalid() ==> d.code == Code.Sysp && EncSysp(d, names) == Ok(PairWordOf(s))
  {
    if s.rt & 1 == 0 || s.rt == 31 {
      var t := EntryOf(s, table);
      if t.Some? && t.value.mnem == Mnemonic.Tlbi {
        TlbipRoundTrip(s, t.value, names, v);
      } else {
        if s.rt == 31 { SyspBare(s, names, v); } else { SyspTransfer(s, names, v); }
      }
    }
  }
}
