/** Features: more of them never reject a word, and exactly which words they make the
    decoder read as another instruction. */
module Monotone {
  import opened Wrappers
  import opened Ints
  import opened Fields
  import opened Features
  import opened Isa
  import opened Instructions
  import opened BranchSpec
  import opened BranchValidity
  import CanonicalForm
  import RoundTrip

  // --- A larger gate decodes what a smaller one does, and the same way. ---

  // Left alone under f, or decoded alike under both.
  predicate Stable(small: Insn, large: Insn, v: Insn) {
    small == v || small == large
  }

  lemma RegBranchStable(word: bv32, f: Gate, g: Gate, v: Insn)
    requires Within(f, g)
    ensures Stable(UncondBranchReg(word, f, v), UncondBranchReg(word, g, v), v)
  {
  }

  lemma ExceptionStable(word: bv32, f: Gate, g: Gate, v: Insn)
    requires Within(f, g)
    ensures Stable(ExceptionGen(word, f, v), ExceptionGen(word, g, v), v)
  {
  }

  lemma TchangeStable(word: bv32, f: Gate, g: Gate, v: Insn)
    requires Within(f, g)
    ensures Stable(TchangeOf(word, f, v), TchangeOf(word, g, v), v)
  {
  }

  lemma CondStable(word: bv32, f: Gate, g: Gate, v: Insn)
    requires Within(f, g)
    ensures Stable(CondBranch(word, f, v), CondBranch(word, g, v), v)
  {
  }

  lemma CmpbrStable(word: bv32, f: Gate, g: Gate, v: Insn)
    requires Within(f, g)
    ensures Stable(CmpbrOf(word, f, v), CmpbrOf(word, g, v), v)
  {
  }

  lemma PairStable(word: bv32, f: Gate, g: Gate, table: SysTable, v: Insn)
    requires Within(f, g)
    ensures Stable(SystemPair(word, f, table, v), SystemPair(word, g, table, v), v)
  {
  }

  // The hint numbers that only an extension names.
  predicate NamedByExtension(sel: bv32) {
    || sel == 6 || sel == 7 || sel == 8 || sel == 10 || sel == 12 || sel == 14 || sel == 18 || sel == 19 || sel == 22
    || 24 <= sel <= 31 || sel == 39 || sel == 40 || 48 <= sel <= 55
  }

  lemma OnlyThesePauth(sel: bv32)
    requires !NamedByExtension(sel)
    ensures !IsPauthHint(sel)
  {
  }

  lemma SelectorOf(crm: bv32, op2: bv32)
    requires crm <= 15 && op2 <= 7
    ensures crm == 6 <==> 48 <= (crm << 3) | op2 <= 55
    ensures crm == 4 <==> 32 <= (crm << 3) | op2 <= 39
    ensures ((crm << 3) | op2) & 1 == op2 & 1
  {
  }

  lemma GatedHintStable(sel: bv32, crm: bv32, op2: bv32, f: Gate, g: Gate, v: Insn)
    requires !NamedByExtension(sel) && (crm == 6 ==> NamedByExtension(sel))
    ensures GatedHint(sel, crm, op2, f, v) == GatedHint(sel, crm, op2, g, v)
  {
  }

  lemma HintStable(s: SysFields, f: Gate, g: Gate, v: Insn)
    requires s.crm <= 15 && s.op2 <= 7 && !NamedByExtension((s.crm << 3) | s.op2)
    ensures HintOf(s, f, v) == HintOf(s, g, v)
  {
    var sel := (s.crm << 3) | s.op2;
    SelectorOf(s.crm, s.op2);
    OnlyThesePauth(sel);
    GatedHintStable(sel, s.crm, s.op2, f, g, v);
    if s.rt == 31 {
      HintWithoutPauth(sel, s.crm, s.op2, f, v);
      HintWithoutPauth(sel, s.crm, s.op2, g, v);
    }
  }

  lemma HintWithoutPauth(sel: bv32, crm: bv32, op2: bv32, f: Gate, v: Insn)
    requires !IsPauthHint(sel) || !f(Feature.PAuth)
    ensures HintBy(sel, crm, op2, f, v) ==
            if IsPlainHint(sel) then PlainHint(sel, v) else GatedHint(sel, crm, op2, f, v)
  {
  }

  // A hint that an extension may name.
  predicate IsNamedHint(s: SysFields) {
    !s.read && s.crn == 2 && s.rt == 31 && NamedByExtension((s.crm << 3) | s.op2)
  }

  lemma NamedStable(s: SysFields, f: Gate, g: Gate, v: Insn)
    requires Within(f, g) && s.crm <= 15 && s.op2 <= 7 && !IsNamedHint(s)
    ensures Stable(Op0Named(s, f, v), Op0Named(s, g, v), v)
  {
    if !s.read && s.crn == 2 && s.rt == 31 { HintStable(s, f, g, v); }
  }

  // The words that an extension makes another instruction of: the HINT numbers it names,
  // and the GCS forms of SYS and SYSL.
  predicate Reread(word: bv32) {
    var s := FieldsOf(word);
    ClassOf(word).SystemBlock? && ((s.op0 == 0 && IsNamedHint(s)) || (s.op0 == 1 && GcsCode(s).Some?))
  }

  lemma SelectorInRange(word: bv32)
    ensures FieldsOf(word).crm <= 15 && FieldsOf(word).op2 <= 7
  {
  }

  lemma SystemStable(word: bv32, f: Gate, g: Gate, table: SysTable, v: Insn)
    requires Within(f, g) && ClassOf(word).SystemBlock? && !Reread(word)
    ensures Stable(System(word, f, table, v), System(word, g, table, v), v)
  {
    var s := FieldsOf(word);
    SelectorInRange(word);
    if s.op0 == 0 { NamedStable(s, f, g, v); }
  }

  lemma JumpStable(c: BranchSpec.Class, word: bv32, f: Gate, g: Gate, v: Insn)
    requires Within(f, g)
    ensures Stable(Jump(c, word, f, v), Jump(c, word, g, v), v)
  {
    match c
    case RegBranch => RegBranchStable(word, f, g, v);
    case CondBlock => CondStable(word, f, g, v);
    case CmpbrBlock => CmpbrStable(word, f, g, v);
    case _ =>
  }

  lemma ClassStable(c: BranchSpec.Class, word: bv32, f: Gate, g: Gate, table: SysTable, v: Insn)
    requires Within(f, g) && c == ClassOf(word) && !Reread(word)
    ensures Stable(BranchIn(c, word, f, table, v), BranchIn(c, word, g, table, v), v)
  {
    if c.SystemBlock? || c.PairBlock? || c.TchangeBlock? || c.Exceptions? {
      BlockStable(c, word, f, g, table, v);
    } else if !c.Outside? {
      RoundTrip.JumpIn(c, word, f, table, v);
      RoundTrip.JumpIn(c, word, g, table, v);
      JumpStable(c, word, f, g, v);
    }
  }

  lemma BlockStable(c: BranchSpec.Class, word: bv32, f: Gate, g: Gate, table: SysTable, v: Insn)
    requires Within(f, g) && c == ClassOf(word) && !Reread(word)
    requires c.SystemBlock? || c.PairBlock? || c.TchangeBlock? || c.Exceptions?
    ensures Stable(BranchIn(c, word, f, table, v), BranchIn(c, word, g, table, v), v)
  {
    if c.Exceptions? {
      ExceptionStable(word, f, g, v);
    } else if c.SystemBlock? {
      SystemStable(word, f, g, table, v);
    } else if c.PairBlock? {
      PairStable(word, f, g, table, v);
    } else {
      TchangeStable(word, f, g, v);
    }
  }

  // Enabling more extensions keeps every decoding of the other words.
  lemma DecodingIsStable(word: bv32, f: Gate, g: Gate, table: SysTable, v: Insn)
    requires Within(f, g) && !Reread(word)
    ensures Stable(Branch(word, f, table, v), Branch(word, g, table, v), v)
  {
    ClassStable(ClassOf(word), word, f, g, table, v);
  }

  lemma GcsKept(s: SysFields, c: Code, v: Insn)
    ensures GcsOf(s, c, v).code == c
  {
  }

  lemma GcsIsNoSys(s: SysFields)
    requires GcsCode(s).Some?
    ensures var c := GcsCode(s).value; !c.Sys? && !c.Sysl? && !c.Invalid?
    ensures RctxAlias(s).None?
  {
  }

  lemma SysAlwaysValid(s: SysFields, f: Gate, table: SysTable, v: Insn)
    ensures !SysOf(s, f, table, v).IsInvalid()
  {
    if RctxAlias(s).None? && GcsCode(s).Some? && f(Feature.Gcs) {
      RoundTrip.SysNamedIs(s, f, table, v);
      GcsKept(s, GcsCode(s).value, v);
      GcsIsNoSys(s);
    } else {
      RoundTrip.SysCodes(s, f, table, v);
    }
  }

  // And it never turns a valid word invalid: HINT and SYS decode under every gate.
  lemma ValidityIsMonotone(word: bv32, f: Gate, g: Gate, table: SysTable, v: Insn)
    requires Within(f, g) && v.IsInvalid()
    ensures Branch(word, g, table, v).IsInvalid() ==> Branch(word, f, table, v).IsInvalid()
  {
    if Reread(word) {
      var s := FieldsOf(word);
      if s.op0 == 0 { HintsMonotone(s, f, g, v); } else { SysAlwaysValid(s, g, table, v); }
    } else {
      DecodingIsStable(word, f, g, table, v);
    }
  }

  lemma HintsMonotone(s: SysFields, f: Gate, g: Gate, v: Insn)
    requires Within(f, g) && v.IsInvalid() && !s.read && s.crn == 2
    ensures Op0(s, g, v).IsInvalid() ==> Op0(s, f, v).IsInvalid()
  {
    HintNeverGated(s, f, v);
    HintNeverGated(s, g, v);
  }

  // --- And exactly those words change. ---

  ghost predicate Bare(f: Gate) { forall x: Feature :: f(x) ==> x == Feature.Base }

  ghost predicate Full(g: Gate) { forall x: Feature :: g(x) }

  lemma FullHint(sel: bv32, crm: bv32, op2: bv32, g: Gate, v: Insn)
    requires Full(g) && !IsPlainHint(sel) && sel != 17
    requires IsPauthHint(sel) || sel == 6 || sel == 18 || sel == 19 || sel == 22 || sel == 40 || crm == 6
    ensures var d := HintBy(sel, crm, op2, g, v); d.ops == [] || d.code != Code.HintGeneric
  {
  }

  lemma NumberChanges(sel: bv32, crm: bv32, op2: bv32, f: Gate, g: Gate, v: Insn)
    requires !IsPlainHint(sel) && sel != 17 && !(crm == 4 && op2 & 1 == 0) && Bare(f) && Full(g)
    requires IsPauthHint(sel) || sel == 6 || sel == 18 || sel == 19 || sel == 22 || sel == 40 || crm == 6
    ensures HintBy(sel, crm, op2, f, v) != HintBy(sel, crm, op2, g, v)
  {
    FullHint(sel, crm, op2, g, v);
  }

  lemma HintChanges(s: SysFields, f: Gate, g: Gate, v: Insn)
    requires Full(g) && IsNamedHint(s) && s.crm <= 15 && s.op2 <= 7 && Bare(f) && v.IsInvalid()
    ensures HintOf(s, f, v) != HintOf(s, g, v) && !HintOf(s, f, v).IsInvalid()
  {
    NumberChanges((s.crm << 3) | s.op2, s.crm, s.op2, f, g, v);
    HintNeverGated(s, f, v);
  }

  lemma GcsChanges(s: SysFields, f: Gate, g: Gate, table: SysTable, v: Insn)
    requires GcsCode(s).Some? && Bare(f) && Full(g)
    ensures SysOf(s, f, table, v) != SysOf(s, g, table, v)
  {
    GcsIsNoSys(s);
    RoundTrip.SysCodes(s, f, table, v);
    RoundTrip.SysNamedIs(s, g, table, v);
    GcsKept(s, GcsCode(s).value, v);
  }

  lemma RereadChanges(word: bv32, f: Gate, g: Gate, table: SysTable, v: Insn)
    requires Reread(word) && Bare(f) && Full(g) && v.IsInvalid()
    ensures !Stable(Branch(word, f, table, v), Branch(word, g, table, v), v)
  {
    var s := FieldsOf(word);
    SelectorInRange(word);
    CanonicalForm.SystemOf(word, f, table, v);
    CanonicalForm.SystemOf(word, g, table, v);
    if s.op0 == 0 {
      HintChanges(s, f, g, v);
      HintAllocated(s, f, v);
      HintAllocated(s, g, v);
    } else {
      GcsChanges(s, f, g, table, v);
      SysAlwaysValid(s, f, table, v);
    }
  }

  lemma HintAllocated(s: SysFields, f: Gate, v: Insn)
    requires !s.read && s.crn == 2 && s.rt == 31 && v.IsInvalid()
    ensures Op0(s, f, v) == HintOf(s, f, v)
  {
    HintNeverGated(s, EVERY, v);
    ReplayDecides(s, v);
  }

  lemma LeastAndMost()
    ensures Bare(BASE.Has) && Full(ALL.Has) && BASE.Within(ALL)
  {
    forall x: Feature
      ensures (BASE.Has(x) ==> x == Feature.Base) && ALL.Has(x)
    {
      BaseHas(x);
      AllHas(x);
    }
  }

  // f decodes the word, and g decodes it to another instruction.
  ghost predicate ReadApart(word: bv32, f: FeatureSet, g: FeatureSet, table: SysTable, v: Insn) {
    f.Within(g) && !Stable(Branch(word, f.Has, table, v), Branch(word, g.Has, table, v), v)
  }

  // Some extension makes another instruction of an accepted word exactly if the word is a
  // hint that an extension names or a GCS form: whatever the directory holds.
  lemma RereadIff(word: bv32, table: SysTable, v: Insn)
    requires v.IsInvalid()
    ensures Reread(word) <==> exists f: FeatureSet, g: FeatureSet :: ReadApart(word, f, g, table, v)
  {
    if Reread(word) {
      LeastAndMost();
      RereadChanges(word, BASE.Has, ALL.Has, table, v);
      assert ReadApart(word, BASE, ALL, table, v);
    } else {
      forall f: FeatureSet, g: FeatureSet | f.Within(g)
        ensures Stable(Branch(word, f.Has, table, v), Branch(word, g.Has, table, v), v)
      {
        forall x: Feature | f.Has(x) { WithinKeeps(f, g, x); }
        DecodingIsStable(word, f.Has, g.Has, table, v);
      }
    }
  }
}
