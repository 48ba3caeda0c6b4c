/** The canonical form of a word: it decodes to the same instruction, and exactly the
    words that are their own canonical form survive a round trip bit for bit. */
module CanonicalForm {
  import opened Wrappers
  import opened Features
  import opened Isa
  import opened Instructions
  import opened BranchSpec
  import opened BranchValidity
  import opened BranchEncode
  import opened SystemLaws
  import opened SysAliasLaws
  import opened RoundTrip

  // --- Ignored fields change nothing. ---

  lemma CanonicalInRange(s: SysFields)
    requires InRange(s)
    ensures InRange(Canonical(s)) && Canonical(s).op0 == s.op0
  {
    LowBits(s.crm);
  }

  lemma LowBits(crm: bv32)
    requires crm <= 15
    ensures 6 | (crm & 1) <= 15 && crm & 7 <= 15
    ensures crm & 6 == 0 ==> (6 | (crm & 1)) & 1 == crm & 1 && (6 | (crm & 1)) & 6 == 6
    ensures (crm & 7) & 1 == crm & 1 && (crm & 7) & 6 == crm & 6
  {
  }

  lemma SmstartIgnores(crm: bv32, v: Insn)
    requires crm <= 15
    ensures SmstartOf(if crm & 6 == 0 then 6 | (crm & 1) else crm & 7, v) == SmstartOf(crm, v)
  {
    LowBits(crm);
  }

  lemma PstateIgnores(s: SysFields, v: Insn)
    requires InRange(s) && !s.read && s.crn == 4
    ensures MsrImmediate(Canonical(s), v) == MsrImmediate(s, v)
  {
    if s.op1 == 3 && s.op2 == 3 { SmstartIgnores(s.crm, v); }
  }

  lemma BarrierIgnores(s: SysFields, f: Gate, v: Insn)
    requires !s.read && s.crn == 3
    ensures BarrierOf(Canonical(s), f, v) == BarrierOf(s, f, v)
  {
  }

  lemma HintIgnores(s: SysFields, f: Gate, v: Insn)
    requires !s.read && s.crn == 2
    ensures HintOf(Canonical(s), f, v) == HintOf(s, f, v)
  {
  }

  lemma WfxtIgnores(s: SysFields, f: Gate, v: Insn)
    requires !s.read && s.crn == 1
    ensures WfxtOf(Canonical(s), f, v) == WfxtOf(s, f, v)
  {
  }

  lemma NamedIgnores(s: SysFields, f: Gate, v: Insn)
    requires InRange(s)
    ensures Op0Named(Canonical(s), f, v) == Op0Named(s, f, v)
  {
    if !s.read && s.crn == 4 { PstateIgnores(s, v); }
    if !s.read && s.crn == 3 { BarrierIgnores(s, f, v); }
    if !s.read && s.crn == 2 { HintIgnores(s, f, v); }
    if !s.read && s.crn == 1 { WfxtIgnores(s, f, v); }
  }

  lemma CanonicalAllocated(s: SysFields)
    requires InRange(s)
    ensures Unallocated(Canonical(s)) == Unallocated(s)
  {
    ReplayDecides(s, NewInvalid(0, 0));
    ReplayDecides(Canonical(s), NewInvalid(0, 0));
    NamedIgnores(s, EVERY, NewInvalid(0, 0));
  }

  // Rt is not part of the selector of a system instruction.
  lemma SelectorKept(s: SysFields, table: SysTable)
    ensures var t := s.(rt := 31);
            RctxAlias(t) == RctxAlias(s) && GcsCode(t) == GcsCode(s) && EntryOf(t, table) == EntryOf(s, table)
  {
  }

  lemma GcsIgnores(s: SysFields, c: Code, v: Insn)
    ensures GcsOf(CanonicalGcs(s, c), c, v) == GcsOf(s, c, v)
  {
  }

  lemma AliasIgnores(s: SysFields, t: SysEntry, v: Insn)
    ensures SysAlias(CanonicalAlias(s, t), t, v) == SysAlias(s, t, v)
  {
  }

  lemma SysIgnores(s: SysFields, f: Gate, table: SysTable, v: Insn)
    requires InRange(s)
    ensures SysOf(CanonicalSys(s, f, table), f, table, v) == SysOf(s, f, table, v)
  {
    SelectorKept(s, table);
    if RctxAlias(s).None? {
      if GcsCode(s).Some? && f(Feature.Gcs) {
        GcsIgnores(s, GcsCode(s).value, v);
        SysNamedIs(s, f, table, v);
        SysNamedIs(s.(rt := 31), f, table, v);
      } else {
        SysTableIs(s, f, table, v);
        SysTableIs(s.(rt := 31), f, table, v);
        if EntryOf(s, table).Some? { AliasIgnores(s, EntryOf(s, table).value, v); }
      }
    }
  }

  lemma CanonicalSysInRange(s: SysFields, f: Gate, table: SysTable)
    requires InRange(s)
    ensures var t := CanonicalSys(s, f, table); t == s || t == s.(rt := 31)
  {
  }

  lemma FieldsInPlace(s: SysFields, f: Gate, table: SysTable)
    requires InRange(s)
    ensures var t := CanonicalFields(s, f, table); InRange(t) && t.op0 == s.op0
  {
    CanonicalInRange(s);
    CanonicalSysInRange(s, f, table);
  }

  lemma Op0Ignores(s: SysFields, f: Gate, v: Insn)
    requires InRange(s)
    ensures Op0(if Unallocated(s) then s else Canonical(s), f, v) == Op0(s, f, v)
  {
    CanonicalAllocated(s);
    NamedIgnores(s, f, v);
  }

  lemma SystemOf(word: bv32, f: Gate, table: SysTable, v: Insn)
    ensures FieldsOf(word).op0 == 0 ==> System(word, f, table, v) == Op0(FieldsOf(word), f, v)
    ensures FieldsOf(word).op0 == 1 ==> System(word, f, table, v) == SysOf(FieldsOf(word), f, table, v)
    ensures FieldsOf(word).op0 > 1 ==> System(word, f, table, v) == SysRegMove(FieldsOf(word), v)
  {
  }

  lemma SystemSame(word: bv32, other: bv32, f: Gate, table: SysTable, v: Insn)
    requires other == SystemWordOf(CanonicalFields(FieldsOf(word), f, table))
    ensures System(other, f, table, v) == System(word, f, table, v)
  {
    var s := FieldsOf(word);
    FieldsInRange(word);
    FieldsInPlace(s, f, table);
    FieldsOfWord(CanonicalFields(s, f, table));
    SystemOf(word, f, table, v);
    SystemOf(other, f, table, v);
    Op0Ignores(s, f, v);
    SysIgnores(s, f, table, v);
  }

  lemma SystemWordClass(s: SysFields)
    requires InRange(s)
    ensures ClassOf(SystemWordOf(s)).SystemBlock?
  {
    FieldsOfWord(s);
  }

  // The canonical form decodes to the very same instruction, so what is lost on a
  // round trip is never part of what the word means.
  lemma CanonicalDecodesTheSame(word: bv32, f: Gate, table: SysTable, v: Insn)
    ensures Branch(CanonicalWord(word, f, table), f, table, v) == Branch(word, f, table, v)
  {
    if ClassOf(word).SystemBlock? {
      var s := FieldsOf(word);
      FieldsInRange(word);
      FieldsInPlace(s, f, table);
      SystemWordClass(CanonicalFields(s, f, table));
      SystemSame(word, CanonicalWord(word, f, table), f, table, v);
    }
  }

  // --- Exactly the words that survive bit for bit. ---

  // An allocated op0 == 00 selector whose ignored fields hold their fixed values.
  predicate NamedExact(s: SysFields) {
    if s.read then true
    else if s.crn == 4 then
      && (s.op1 == 3 && s.op2 == 3 ==> s.crm & 8 == 0 && s.crm & 6 != 0)
      && (s.op1 == 0 && s.op2 <= 2 ==> s.crm == 0)
    else s.op1 == 3 && (s.crn == 3 && s.op2 == 7 ==> s.crm == 0)
  }

  // A SYS or SYSL whose operation does not print Rt must have it at 31.
  predicate SysExact(s: SysFields, f: Gate, table: SysTable) {
    if s.rt == 31 || RctxAlias(s).Some? then true
    else if GcsCode(s).Some? && f(Feature.Gcs) then
      !(GcsCode(s).value.Gcspushx? || GcsCode(s).value.Gcspopcx? || GcsCode(s).value.Gcspopx?)
    else EntryOf(s, table).Some? ==> EntryOf(s, table).value.needsRt
  }

  // The selectors the named dispatch allocates.
  predicate Allocated(s: SysFields) {
    if s.read then s.op1 == 3 && s.crn == 3 && s.op2 == 3 && s.crm <= 1
    else if s.crn == 4 || s.crn == 2 then s.rt == 31
    else if s.crn == 3 then
      s.rt == 31 && s.op2 != 0 && (s.op2 == 1 ==> s.crm & 3 == 2) && (s.op2 == 3 ==> s.crm == 0)
    else s.crn == 1 && s.crm == 0 && s.op2 <= 1
  }

  predicate Exact(word: bv32, f: Gate, table: SysTable) {
    var s := FieldsOf(word);
    ClassOf(word).SystemBlock? ==>
      (s.op0 == 0 && Allocated(s) ==> NamedExact(s)) && (s.op0 == 1 ==> SysExact(s, f, table))
  }

  lemma BarrierAllocated(s: SysFields, v: Insn)
    requires InRange(s) && !s.read && s.crn == 3 && v.IsInvalid()
    ensures BarrierOf(s, EVERY, v).IsInvalid() <==> !Allocated(s)
  {
  }

  lemma PstateAllocated(s: SysFields, v: Insn)
    requires InRange(s) && !s.read && s.crn == 4 && v.IsInvalid()
    ensures MsrImmediate(s, v).IsInvalid() <==> !Allocated(s)
  {
  }

  // "No feature set names it", as a condition on the fields.
  lemma UnallocatedIff(s: SysFields)
    requires InRange(s)
    ensures Unallocated(s) <==> !Allocated(s)
  {
    var v := NewInvalid(0, 0);
    ReplayDecides(s, v);
    if !s.read {
      if s.crn == 4 { PstateAllocated(s, v); }
      if s.crn == 2 { HintNeverGated(s, EVERY, v); }
      if s.crn == 3 { BarrierAllocated(s, v); }
    }
  }

  lemma NamedExactIff(s: SysFields)
    requires InRange(s) && s.op0 == 0
    ensures Canonical(s) == s <==> NamedExact(s)
  {
  }

  lemma SysExactIff(s: SysFields, f: Gate, table: SysTable)
    ensures CanonicalSys(s, f, table) == s <==> SysExact(s, f, table)
  {
  }

  lemma ExactIff(word: bv32, f: Gate, table: SysTable)
    ensures CanonicalWord(word, f, table) == word <==> Exact(word, f, table)
  {
    if ClassOf(word).SystemBlock? {
      var s := FieldsOf(word);
      var t := CanonicalFields(s, f, table);
      FieldsInRange(word);
      FieldsInPlace(s, f, table);
      FieldsOfWord(t);
      ClassBits(word);
      WordOfFields(word);
      assert SystemWordOf(t) == word <==> t == s;
      UnallocatedIff(s);
      if s.op0 == 0 { NamedExactIff(s); }
      if s.op0 == 1 { SysExactIff(s, f, table); }
    }
  }

  // The round trip is exact precisely on the words that hold every ignored field at
  // its fixed value.
  lemma ExactRoundTrip(word: bv32, f: Gate, table: SysTable, names: SysNames, v: Insn)
    requires v.IsInvalid() && Paired(table, names) && !Branch(word, f, table, v).IsInvalid()
    ensures Encode(Branch(word, f, table, v), names) == Ok(word) <==> Exact(word, f, table)
  {
    EncodeOfDecode(word, f, table, names, v);
    ExactIff(word, f, table);
  }

  // A NOP written with op1 == 0 is neither TLBI nor IC, and yet it decodes, and the encoder
  // turns what it decodes to into another word, whatever the extensions and the directory.
  lemma HintLosesOp1(f: Gate, table: SysTable, names: SysNames, v: Insn)
    requires v.IsInvalid()
    ensures !Branch(0xd500_201f, f, table, v).IsInvalid()
    ensures Encode(Branch(0xd500_201f, f, table, v), names) == Ok(0xd503_201f)
    ensures CanonicalWord(0xd500_201f, f, table) == 0xd503_201f && !Exact(0xd500_201f, f, table)
  {
    var s := FieldsOf(0xd500_201f);
    NopFields();
    UnallocatedIff(s);
    HintNeverGated(s, f, v);
    HintClass(s, f, names, v);
    NopDecodes(f, table, v);
  }

  lemma NopDecodes(f: Gate, table: SysTable, v: Insn)
    requires !Unallocated(FieldsOf(0xd500_201f))
    ensures Branch(0xd500_201f, f, table, v) == HintOf(FieldsOf(0xd500_201f), f, v)
  {
    NopFields();
    SystemOf(0xd500_201f, f, table, v);
  }

  lemma NopFields()
    ensures FieldsOf(0xd500_201f) == SysFields(false, 0, 0, 2, 0, 0, 31)
    ensures ClassOf(0xd500_201f).SystemBlock? && SystemWord(0, 0, 3, 2, 0, 0, 31) == 0xd503_201f
  {
  }
}
