/** The system blocks compute the rows of the encoding table. */
module TableSystem {
  import opened Wrappers
  import opened Features
  import opened Isa
  import opened Instructions
  import opened BranchSpec
  import opened EncodingTable
  import opened TableLaws
  import CanonicalForm
  import SystemLaws

  // --- Moves. ---

  lemma SelectorIs(word: bv32)
    ensures var s := FieldsOf(word); SysRegOf(s.op0, s.op1, s.crn, s.crm, s.op2) == (word >> 5) & 0xffff
    ensures FieldsOf(word).read <==> word & 0x0020_0000 != 0
  {
  }

  lemma MoveShape(v: Insn, read: bool, x: Operand, sr: Operand, row: Option<Row>)
    requires row == if read then Some(Plain(Code.Mrs, [x, sr], Feature.Base))
                    else Some(Row(Code.MsrReg, Mnemonic.Msr, [sr, x], Next, Feature.Base))
    ensures Outcome(v, row) == if read then v.Set(Code.Mrs).Push(x).Push(sr) else v.Set(Code.MsrReg).Push(sr).Push(x)
  {
  }

  lemma MoveIs(word: bv32, v: Insn)
    ensures SysRegMove(FieldsOf(word), v) == Outcome(v, Moved(word))
  {
    SelectorIs(word);
    LowRegisters(word);
    MoveShape(v, FieldsOf(word).read, Xn(word), SysRegister(word), Moved(word));
  }

  // --- Hints. ---

  function PlainHintCode(n: bv32): Code {
    if n == 0 then Code.Nop
    else if n == 1 then Code.Yield
    else if n == 2 then Code.Wfe
    else if n == 3 then Code.Wfi
    else if n == 4 then Code.Sev
    else if n == 5 then Code.Sevl
    else if n == 16 then Code.Esb
    else if n == 20 then Code.Csdb
    else Code.Invalid
  }

  lemma PlainHintIs(n: bv32, v: Insn, c: Code)
    requires c == PlainHintCode(n)
    ensures IsPlainHint(n) <==> !c.Invalid?
    ensures IsPlainHint(n) ==> PlainHint(n, v) == v.Set(c)
    ensures Bears(PlainHints(n), c, []) && OwnNamed(c)
  {
    PlainHintNamed(n);
    if IsPlainHint(n) { PlainHintTree(n, v, c); }
  }

  lemma PlainHintNamed(n: bv32)
    ensures OwnNamed(PlainHintCode(n))
  {
  }

  lemma PlainHintTree(n: bv32, v: Insn, c: Code)
    requires IsPlainHint(n) && c == PlainHintCode(n)
    ensures PlainHint(n, v) == v.Set(c)
  {
  }

  lemma SigningHintIs(n: bv32)
    ensures SigningHints(n) == if IsPauthHint(n) then Some(Hinted(PauthHint(n))) else None
  {
  }

  lemma Renamed(v: Insn, m: Mnemonic)
    ensures v.Set(Code.HintGeneric).SetAlias(m) == Outcome(v, Some(Hinted(m)))
  {
  }

  // The hints that one extension names, by number.
  function SingleCode(n: bv32, f: Gate): Code {
    if n == 6 && f(Feature.Dgh) then Code.Dgh
    else if n == 17 then Code.Psb
    else if n == 18 && f(Feature.Trf) then Code.Tsb
    else if n == 19 && f(Feature.Gcs) then Code.Gcsb
    else if n == 22 && f(Feature.Clrbhb) then Code.Clrbhb
    else if n == 40 && f(Feature.Chk) then Code.Chkfeat
    else Code.Invalid
  }

  function SingleOp(n: bv32): Operand {
    if n == 17 || n == 18 then SysOp(Keyword.Csync)
    else if n == 19 then SysOp(Keyword.Dsync)
    else if n == 40 then Reg(X(16), PLAIN)
    else NoOperand
  }

  predicate Parts(n: bv32, crm: bv32, op2: bv32) { crm <= 15 && op2 <= 7 && n == (crm << 3) | op2 }

  lemma SingleTree(n: bv32, crm: bv32, op2: bv32, f: Gate, v: Insn, c: Code, x: Operand)
    requires c == SingleCode(n, f) && !c.Invalid? && x == SingleOp(n)
    ensures GatedHint(n, crm, op2, f, v) == if n == 6 || n == 22 then v.Set(c) else v.Set(c).Push(x)
  {
    if n <= 18 {
      EarlyTree(n, crm, op2, f, v, c, x);
    } else if n <= 22 {
      LateTree(n, crm, op2, f, v, c, x);
    } else {
      ChkfeatTree(crm, op2, f, v, x);
    }
  }

  lemma EarlyTree(n: bv32, crm: bv32, op2: bv32, f: Gate, v: Insn, c: Code, x: Operand)
    requires n <= 18 && c == SingleCode(n, f) && !c.Invalid? && x == SingleOp(n)
    ensures GatedHint(n, crm, op2, f, v) == if n == 6 then v.Set(c) else v.Set(c).Push(x)
  {
  }

  lemma LateTree(n: bv32, crm: bv32, op2: bv32, f: Gate, v: Insn, c: Code, x: Operand)
    requires 18 < n <= 22 && c == SingleCode(n, f) && !c.Invalid? && x == SingleOp(n)
    ensures GatedHint(n, crm, op2, f, v) == if n == 22 then v.Set(c) else v.Set(c).Push(x)
  {
  }

  lemma ChkfeatTree(crm: bv32, op2: bv32, f: Gate, v: Insn, x: Operand)
    requires f(Feature.Chk) && x == SingleOp(40)
    ensures GatedHint(40, crm, op2, f, v) == v.Set(Code.Chkfeat).Push(x)
  {
    assert XReg(false, 16) == x;
  }

  lemma SingleNamed(n: bv32, f: Gate)
    ensures OwnNamed(SingleCode(n, f))
  {
  }

  lemma SingleTable(n: bv32, f: Gate, x: Operand)
    requires !SingleCode(n, f).Invalid? && x == SingleOp(n)
    ensures Bears(Some(HintRow(n, f)), SingleCode(n, f), if n == 6 || n == 22 then [] else [x])
  {
    assert !IsPlainHint(n) && !IsPauthHint(n) && !(48 <= n <= 55);
    NamedAlone(n, f);
  }

  // A hint that is neither plain nor in one of the clusters.
  lemma NamedAlone(n: bv32, f: Gate)
    requires !IsPlainHint(n) && !(f(Feature.PAuth) && IsPauthHint(n)) && !(48 <= n <= 55 && f(Feature.Pcdphint))
    ensures HintRow(n, f) == OtherHints(n, f)
  {
    PlainHintIs(n, NewInvalid(0, 0), PlainHintCode(n));
    SigningHintIs(n);
  }

  lemma SingleIs(n: bv32, crm: bv32, op2: bv32, f: Gate, v: Insn)
    requires !SingleCode(n, f).Invalid?
    ensures GatedHint(n, crm, op2, f, v) == Outcome(v, Some(HintRow(n, f)))
  {
    var c, x, row := SingleCode(n, f), SingleOp(n), Some(HintRow(n, f));
    SingleNamed(n, f);
    SingleTree(n, crm, op2, f, v, c, x);
    SingleTable(n, f, x);
    if n == 6 || n == 22 { Zero(v, c, row); } else { One(v, c, x, row); }
  }

  function StashCode(op2: bv32): Code {
    if op2 == 2 || op2 == 3 then Code.Shuh else if op2 == 4 then Code.Stcph else Code.Stshh
  }

  function StashOp(op2: bv32): Operand {
    if op2 == 0 then SysOp(Keyword.Keep)
    else if op2 == 1 then SysOp(Keyword.Strm)
    else if op2 == 3 then SysOp(Keyword.Ph)
    else Imm(op2)
  }

  lemma StashTree(op2: bv32, v: Insn, c: Code, x: Operand)
    requires c == StashCode(op2) && x == StashOp(op2)
    ensures StashHint(op2, v) == if op2 == 2 || op2 == 4 then v.Set(c) else v.Set(c).Push(x)
    ensures OwnNamed(c)
  {
  }

  lemma StashTable(n: bv32, op2: bv32, f: Gate, x: Operand)
    requires op2 <= 7 && n == 48 + op2 && x == StashOp(op2) && f(Feature.Pcdphint)
    ensures Bears(Some(HintRow(n, f)), StashCode(op2), if op2 == 2 || op2 == 4 then [] else [x])
  {
    assert n - 48 == op2;
  }

  lemma StashIs(n: bv32, op2: bv32, f: Gate, v: Insn)
    requires op2 <= 7 && n == 48 + op2 && f(Feature.Pcdphint)
    ensures StashHint(op2, v) == Outcome(v, Some(HintRow(n, f)))
  {
    var c, x, row := StashCode(op2), StashOp(op2), Some(HintRow(n, f));
    StashTree(op2, v, c, x);
    StashTable(n, op2, f, x);
    if op2 == 2 || op2 == 4 { Zero(v, c, row); } else { One(v, c, x, row); }
  }

  function BtiOp(op2: bv32): Operand {
    if op2 == 2 then SysOp(Keyword.TargetC)
    else if op2 == 4 then SysOp(Keyword.TargetJ)
    else SysOp(Keyword.TargetJc)
  }

  lemma BtiTable(n: bv32, op2: bv32, f: Gate, x: Operand)
    requires (op2 == 0 || op2 == 2 || op2 == 4 || op2 == 6) && n == 32 + op2 && x == BtiOp(op2)
    ensures Bears(Some(HintRow(n, f)), Code.Bti, if op2 == 0 then [] else [x])
  {
  }

  lemma BtiIs(n: bv32, op2: bv32, f: Gate, v: Insn)
    requires (op2 == 0 || op2 == 2 || op2 == 4 || op2 == 6) && n == 32 + op2
    ensures BtiHint(op2, v) == Outcome(v, Some(HintRow(n, f)))
  {
    var c, x, row := Code.Bti, BtiOp(op2), Some(HintRow(n, f));
    BtiTable(n, op2, f, x);
    assert BtiHint(op2, v) == if op2 == 0 then v.Set(c) else v.Set(c).Push(x);
    if op2 == 0 { Zero(v, c, row); } else { One(v, c, x, row); }
  }

  predicate IsBti(n: bv32) { n == 32 || n == 34 || n == 36 || n == 38 }

  lemma PartsOf(n: bv32, crm: bv32, op2: bv32)
    requires Parts(n, crm, op2)
    ensures crm == 6 <==> 48 <= n <= 55
    ensures crm == 4 && op2 & 1 == 0 <==> IsBti(n)
    ensures crm == 6 ==> n == 48 + op2
    ensures crm == 4 ==> n == 32 + op2
  {
  }

  // A hint that nothing names.
  lemma NumberedIs(n: bv32, crm: bv32, op2: bv32, f: Gate, v: Insn)
    requires Parts(n, crm, op2) && !IsPlainHint(n) && !(f(Feature.PAuth) && IsPauthHint(n)) && !IsBti(n)
    requires SingleCode(n, f).Invalid? && !(48 <= n <= 55 && f(Feature.Pcdphint))
    ensures GatedHint(n, crm, op2, f, v) == Outcome(v, Some(HintRow(n, f)))
  {
    PartsOf(n, crm, op2);
    NumberedTable(n, f);
    NumberedTree(n, crm, op2, f, v, Imm(n));
    One(v, Code.HintGeneric, Imm(n), Some(HintRow(n, f)));
  }

  lemma NumberedTree(n: bv32, crm: bv32, op2: bv32, f: Gate, v: Insn, x: Operand)
    requires SingleCode(n, f).Invalid? && !(crm == 6 && f(Feature.Pcdphint)) && !(crm == 4 && op2 & 1 == 0)
    requires x == Imm(n)
    ensures GatedHint(n, crm, op2, f, v) == v.Set(Code.HintGeneric).Push(x)
  {
  }

  lemma NumberedTable(n: bv32, f: Gate)
    requires !IsPlainHint(n) && !(f(Feature.PAuth) && IsPauthHint(n)) && !IsBti(n)
    requires SingleCode(n, f).Invalid? && !(48 <= n <= 55 && f(Feature.Pcdphint))
    ensures HintRow(n, f) == Plain(Code.HintGeneric, [Imm(n)], Feature.Base)
  {
    NamedAlone(n, f);
  }

  lemma PlainHintByIs(n: bv32, crm: bv32, op2: bv32, f: Gate, v: Insn, row: Option<Row>)
    requires IsPlainHint(n) && row == Some(HintRow(n, f))
    ensures HintBy(n, crm, op2, f, v) == Outcome(v, row)
  {
    PlainHintIs(n, v, PlainHintCode(n));
    Zero(v, PlainHintCode(n), row);
  }

  lemma SigningHintByIs(n: bv32, crm: bv32, op2: bv32, f: Gate, v: Insn, row: Option<Row>)
    requires !IsPlainHint(n) && f(Feature.PAuth) && IsPauthHint(n) && row == Some(HintRow(n, f))
    ensures HintBy(n, crm, op2, f, v) == Outcome(v, row)
  {
    PlainHintIs(n, v, PlainHintCode(n));
    SigningHintIs(n);
    Renamed(v, PauthHint(n));
  }

  lemma HintByIs(n: bv32, crm: bv32, op2: bv32, f: Gate, v: Insn)
    requires Parts(n, crm, op2)
    ensures HintBy(n, crm, op2, f, v) == Outcome(v, Some(HintRow(n, f)))
  {
    if IsPlainHint(n) {
      PlainHintByIs(n, crm, op2, f, v, Some(HintRow(n, f)));
    } else if f(Feature.PAuth) && IsPauthHint(n) {
      SigningHintByIs(n, crm, op2, f, v, Some(HintRow(n, f)));
    } else {
      PartsOf(n, crm, op2);
      GatedIs(n, crm, op2, f, v);
    }
  }

  lemma GatedIs(n: bv32, crm: bv32, op2: bv32, f: Gate, v: Insn)
    requires Parts(n, crm, op2) && !IsPlainHint(n) && !(f(Feature.PAuth) && IsPauthHint(n))
    ensures GatedHint(n, crm, op2, f, v) == Outcome(v, Some(HintRow(n, f)))
  {
    PartsOf(n, crm, op2);
    if !SingleCode(n, f).Invalid? {
      SingleIs(n, crm, op2, f, v);
    } else if 48 <= n <= 55 && f(Feature.Pcdphint) {
      StashIs(n, op2, f, v);
      assert GatedHint(n, crm, op2, f, v) == StashHint(op2, v);
    } else if IsBti(n) {
      BtiIs(n, op2, f, v);
      assert GatedHint(n, crm, op2, f, v) == BtiHint(op2, v);
    } else {
      NumberedIs(n, crm, op2, f, v);
    }
  }

  // --- Barriers. ---

  lemma ScopeIs(crm: bv32)
    requires crm <= 15
    ensures BarrierOption(crm) == Scope(crm)
  {
  }

  function BarrierCode(op2: bv32): Code {
    if op2 == 2 then Code.Clrex
    else if op2 == 4 then Code.Dsb
    else if op2 == 5 then Code.Dmb
    else if op2 == 6 then Code.Isb
    else Code.Sb
  }

  // Where a barrier takes its operand.
  function BarrierOps(op2: bv32, crm: bv32): seq<Operand> {
    if op2 == 2 || op2 == 6 then (if crm == 15 then [] else [Imm(crm)])
    else if op2 == 7 then []
    else [Scope(crm)]
  }

  lemma BarrierTable(word: bv32, op2: bv32, crm: bv32, f: Gate)
    requires word & 0xfff8_f01f == 0xd500_301f && op2 == (word >> 5) & 7 && crm == (word >> 8) & 15
    requires (op2 == 2 || op2 >= 4) && !(op2 == 4 && (crm == 0 || crm == 4))
    ensures Bears(BarrierRows(word, f), BarrierCode(op2), BarrierOps(op2, crm))
  {
  }

  lemma BarrierNamed(op2: bv32)
    ensures OwnNamed(BarrierCode(op2))
  {
  }

  lemma DataBarrierTree(s: SysFields, f: Gate, v: Insn, c: Code, x: Operand)
    requires s.rt == 31 && (s.op2 == 4 || s.op2 == 5) && !(s.op2 == 4 && (s.crm == 0 || s.crm == 4))
    requires c == BarrierCode(s.op2) && x == BarrierOption(s.crm)
    ensures BarrierOf(s, f, v) == v.Set(c).Push(x)
  {
  }

  lemma OtherBarrierTree(s: SysFields, f: Gate, v: Insn, c: Code, y: Operand)
    requires s.rt == 31 && (s.op2 == 2 || s.op2 == 6 || s.op2 == 7) && c == BarrierCode(s.op2) && y == Imm(s.crm)
    ensures BarrierOf(s, f, v) == if s.op2 == 7 || s.crm == 15 then v.Set(c) else v.Set(c).Push(y)
  {
  }

  lemma CommonBarrierIs(word: bv32, s: SysFields, f: Gate, v: Insn)
    requires word & 0xfff8_f01f == 0xd500_301f && SameSelector(s, word) && s.rt == 31
    requires (s.op2 == 2 || s.op2 >= 4) && !(s.op2 == 4 && (s.crm == 0 || s.crm == 4))
    ensures BarrierOf(s, f, v) == Outcome(v, BarrierRows(word, f))
  {
    var c, x, y, row := BarrierCode(s.op2), BarrierOption(s.crm), Imm(s.crm), BarrierRows(word, f);
    ScopeIs(s.crm);
    BarrierTable(word, s.op2, s.crm, f);
    BarrierNamed(s.op2);
    if s.op2 == 4 || s.op2 == 5 {
      DataBarrierTree(s, f, v, c, x);
      One(v, c, x, row);
    } else {
      OtherBarrierTree(s, f, v, c, y);
      if s.op2 == 7 || s.crm == 15 { Zero(v, c, row); } else { One(v, c, y, row); }
    }
  }

  // The fields that select among the named instructions.
  predicate SameSelector(s: SysFields, word: bv32) {
    s.op1 == (word >> 16) & 7 && s.crm == (word >> 8) & 15 && s.op2 == (word >> 5) & 7
  }

  lemma NxsTable(word: bv32, crm: bv32, f: Gate)
    requires word & 0xfff8_f3ff == 0xd500_323f && crm == (word >> 8) & 15
    ensures BarrierRows(word, f) == NoXs(NxsOption(crm), f)
  {
  }

  lemma NxsIs(word: bv32, s: SysFields, f: Gate, v: Insn)
    requires word & 0xfff8_f3ff == 0xd500_323f && s.rt == 31 && s.op2 == 1 && s.crm & 3 == 2
    requires s.crm == (word >> 8) & 15
    ensures f(Feature.Xs) ==> BarrierOf(s, f, v) == Outcome(v, BarrierRows(word, f))
    ensures !f(Feature.Xs) ==> BarrierOf(s, f, v) == v && BarrierRows(word, f) == None
  {
    NxsTable(word, s.crm, f);
    if f(Feature.Xs) {
      One(v, Code.Dsb, SysOp(NxsOption(s.crm)), BarrierRows(word, f));
    }
  }

  lemma TcommitIs(word: bv32, s: SysFields, f: Gate, v: Insn)
    requires word & 0xfff8_ffff == 0xd500_307f && s.rt == 31 && s.op2 == 3 && s.crm == 0
    ensures BarrierOf(s, f, v) == Outcome(v, BarrierRows(word, f))
  {
  }

  lemma SpeculativeIs(word: bv32, s: SysFields, f: Gate, v: Insn)
    requires word & 0xfff8_fbff == 0xd500_309f && s.rt == 31 && s.op2 == 4 && s.crm == (word >> 8) & 15
    ensures BarrierOf(s, f, v) == Outcome(v, BarrierRows(word, f))
  {
  }

  lemma NoBarrierRow(word: bv32, s: SysFields, f: Gate)
    requires word & 0xfff8_f01f == 0xd500_301f && SameSelector(s, word)
    requires s.op2 == 0 || (s.op2 == 1 && s.crm & 3 != 2) || (s.op2 == 3 && s.crm != 0)
    ensures BarrierRows(word, f) == Moved(word)
  {
  }

  lemma BarrierGroups(word: bv32)
    requires word & 0xfff8_f01f == 0xd500_301f
    ensures var crm, op2 := (word >> 8) & 15, (word >> 5) & 7;
            && (word & 0xfff8_f3ff == 0xd500_323f <==> op2 == 1 && crm & 3 == 2)
            && (word & 0xfff8_ffff == 0xd500_307f <==> op2 == 3 && crm == 0)
            && (word & 0xfff8_fbff == 0xd500_309f <==> op2 == 4 && (crm == 0 || crm == 4))
            && op2 <= 7 && crm <= 15
  {
  }

  lemma BarrierIs(word: bv32, s: SysFields, f: Gate, v: Insn)
    requires word & 0xfff8_f01f == 0xd500_301f && SameSelector(s, word) && s.rt == 31
    requires !(s.op2 == 0 || (s.op2 == 1 && s.crm & 3 != 2) || (s.op2 == 3 && s.crm != 0))
    ensures BarrierOf(s, f, v) == Outcome(v, BarrierRows(word, f))
  {
    BarrierGroups(word);
    if s.op2 == 1 {
      NxsIs(word, s, f, v);
    } else if s.op2 == 3 {
      TcommitIs(word, s, f, v);
    } else if s.op2 == 4 && (s.crm == 0 || s.crm == 4) {
      SpeculativeIs(word, s, f, v);
    } else {
      CommonBarrierIs(word, s, f, v);
    }
  }

  // --- PSTATE. ---

  function StreamOps(crm: bv32): seq<Operand> {
    if crm & 6 == 2 then [SysOp(Keyword.Sm)] else if crm & 6 == 4 then [SysOp(Keyword.ZaOption)] else []
  }

  lemma StreamTable(word: bv32, crm: bv32)
    requires word & 0xffff_f0ff == 0xd503_407f && crm == (word >> 8) & 15
    ensures Bears(PstateRows(word), if crm & 1 != 0 then Code.Smstart else Code.Smstop, StreamOps(crm))
  {
  }

  lemma StreamIs(word: bv32, crm: bv32, v: Insn)
    requires word & 0xffff_f0ff == 0xd503_407f && crm == (word >> 8) & 15
    ensures SmstartOf(crm, v) == Outcome(v, PstateRows(word))
  {
    var c, row := if crm & 1 != 0 then Code.Smstart else Code.Smstop, PstateRows(word);
    StreamTable(word, crm);
    if crm & 6 == 2 {
      One(v, c, SysOp(Keyword.Sm), row);
    } else if crm & 6 == 4 {
      One(v, c, SysOp(Keyword.ZaOption), row);
    } else {
      Zero(v, c, row);
    }
  }

  function FlagCode(op2: bv32): Code {
    if op2 == 0 then Code.Cfinv else if op2 == 1 then Code.Xaflag else Code.Axflag
  }

  lemma FlagTable(word: bv32, op2: bv32)
    requires word & 0xffff_f01f == 0xd500_401f && op2 == (word >> 5) & 7 && op2 <= 2
    ensures Bears(PstateRows(word), FlagCode(op2), [])
  {
  }

  lemma FieldTable(word: bv32, s: SysFields)
    requires word & 0xfff8_f01f == 0xd500_401f && SameSelector(s, word)
    requires !(s.op1 == 3 && s.op2 == 3) && !(s.op1 == 0 && s.op2 <= 2)
    ensures PstateRows(word) == match PstateField(s.op1, s.op2, s.crm)
                                case Some(k) => SetsField(k, word)
                                case None => Moved(word)
  {
  }

  lemma FieldShape(v: Insn, k: Keyword, x: Operand, row: Option<Row>)
    requires row == Some(Row(Code.MsrImm, Mnemonic.Msr, [SysOp(k), x], Next, Feature.Base))
    ensures v.Set(Code.MsrImm).SetAlias(Mnemonic.Msr).Push(SysOp(k)).Push(x) == Outcome(v, row)
  {
  }

  lemma UnnamedFieldIs(word: bv32, s: SysFields, v: Insn)
    requires word & 0xfff8_f01f == 0xd500_401f && s == FieldsOf(word)
    requires !(s.op1 == 3 && s.op2 == 3) && !(s.op1 == 0 && s.op2 <= 2)
    requires PstateField(s.op1, s.op2, s.crm).None?
    ensures MsrImmediate(s, v) == Outcome(v, Moved(word))
  {
    Fixed4(word);
    MoveIs(word, v);
    assert MsrImmediate(s, v) == SysRegMove(s, v);
  }

  lemma Fixed4(word: bv32)
    requires word & 0xfff8_f01f == 0xd500_401f
    ensures var s := FieldsOf(word); !s.read && s.op0 == 0 && s.crn == 4 && s.rt == 31
  {
  }

  lemma NamedFieldIs(word: bv32, s: SysFields, k: Keyword, v: Insn, row: Option<Row>)
    requires s.rt == 31 && s.crm == (word >> 8) & 15 && PstateField(s.op1, s.op2, s.crm) == Some(k)
    requires !(s.op1 == 3 && s.op2 == 3) && !(s.op1 == 0 && s.op2 <= 2) && row == SetsField(k, word)
    ensures MsrImmediate(s, v) == Outcome(v, row)
  {
    FieldShape(v, k, Imm(s.crm), row);
  }

  lemma FieldIs(word: bv32, s: SysFields, v: Insn)
    requires word & 0xfff8_f01f == 0xd500_401f && s == FieldsOf(word) && SameSelector(s, word)
    requires !(s.op1 == 3 && s.op2 == 3) && !(s.op1 == 0 && s.op2 <= 2)
    ensures MsrImmediate(s, v) == Outcome(v, PstateRows(word))
  {
    Fixed4(word);
    FieldTable(word, s);
    var k := PstateField(s.op1, s.op2, s.crm);
    if k.Some? {
      NamedFieldIs(word, s, k.value, v, PstateRows(word));
    } else {
      UnnamedFieldIs(word, s, v);
    }
  }

  lemma PstateGroups(word: bv32)
    requires word & 0xfff8_f01f == 0xd500_401f
    ensures var op1, op2 := (word >> 16) & 7, (word >> 5) & 7;
            && (word & 0xffff_f0ff == 0xd503_407f <==> op1 == 3 && op2 == 3)
            && (word & 0xffff_f01f == 0xd500_401f <==> op1 == 0)
  {
  }

  lemma PstateIs(word: bv32, s: SysFields, v: Insn)
    requires word & 0xfff8_f01f == 0xd500_401f && s == FieldsOf(word) && SameSelector(s, word)
    ensures MsrImmediate(s, v) == Outcome(v, PstateRows(word))
  {
    Fixed4(word);
    PstateGroups(word);
    if s.op1 == 3 && s.op2 == 3 {
      StreamIs(word, s.crm, v);
    } else if s.op1 == 0 && s.op2 <= 2 {
      FlagTable(word, s.op2);
      FlagTree(s, v, FlagCode(s.op2));
      Zero(v, FlagCode(s.op2), PstateRows(word));
    } else {
      FieldIs(word, s, v);
    }
  }

  lemma FlagTree(s: SysFields, v: Insn, c: Code)
    requires s.rt == 31 && s.op1 == 0 && s.op2 <= 2 && c == FlagCode(s.op2)
    ensures MsrImmediate(s, v) == v.Set(c) && OwnNamed(c)
  {
  }

  // --- op0 == 00. ---

  lemma SelectorParts(word: bv32)
    ensures SameSelector(FieldsOf(word), word)
    ensures FieldsOf(word).rt == word & 31 && FieldsOf(word).crn == (word >> 12) & 15
  {
  }

  // The selectors of each block of named instructions.
  lemma NamedGroups(word: bv32)
    requires word & 0xffd8_0000 == 0xd500_0000
    ensures var s := FieldsOf(word); s.op0 == 0 && s.crm <= 15 && s.op2 <= 7
    ensures word & 0xffff_fee0 == 0xd523_3060 <==>
            var s := FieldsOf(word); s.read && s.op1 == 3 && s.crn == 3 && s.op2 == 3 && s.crm <= 1
    ensures word & 0xfff8_ffc0 == 0xd500_1000 <==>
            var s := FieldsOf(word); !s.read && s.crn == 1 && s.crm == 0 && s.op2 <= 1
  {
  }

  lemma RestrictedGroups(word: bv32)
    requires word & 0xffd8_0000 == 0xd500_0000
    ensures word & 0xfff8_f01f == 0xd500_201f <==> var s := FieldsOf(word); !s.read && s.crn == 2 && s.rt == 31
    ensures word & 0xfff8_f01f == 0xd500_301f <==> var s := FieldsOf(word); !s.read && s.crn == 3 && s.rt == 31
    ensures word & 0xfff8_f01f == 0xd500_401f <==> var s := FieldsOf(word); !s.read && s.crn == 4 && s.rt == 31
  {
  }

  lemma ResultTable(word: bv32, crm: bv32, f: Gate, x: Operand)
    requires word & 0xffff_fee0 == 0xd523_3060 && crm == (word >> 8) & 15 && x == Xn(word)
    ensures Bears(NamedRows(word, f), if !f(Feature.Tme) then Code.Invalid
                                      else if crm == 0 then Code.Tstart else Code.Ttest, [x])
  {
  }

  lemma ResultTree(s: SysFields, f: Gate, v: Insn, x: Operand, c: Code)
    requires s.op1 == 3 && s.crn == 3 && s.op2 == 3 && s.crm <= 1 && x == XReg(false, s.rt)
    requires c == if !f(Feature.Tme) then Code.Invalid else if s.crm == 0 then Code.Tstart else Code.Ttest
    ensures SystemResult(s, f, v) == if c.Invalid? then v else v.Set(c).Push(x)
    ensures OwnNamed(c)
  {
  }

  lemma ResultIs(word: bv32, s: SysFields, f: Gate, v: Insn, x: Operand)
    requires word & 0xffff_fee0 == 0xd523_3060 && SameSelector(s, word)
    requires s.op1 == 3 && s.crn == 3 && s.op2 == 3 && s.crm <= 1 && x == Xn(word) == XReg(false, s.rt)
    ensures SystemResult(s, f, v) == Outcome(v, NamedRows(word, f))
  {
    var c := if !f(Feature.Tme) then Code.Invalid else if s.crm == 0 then Code.Tstart else Code.Ttest;
    ResultTable(word, s.crm, f, x);
    ResultTree(s, f, v, x, c);
    One(v, c, x, NamedRows(word, f));
  }

  lemma WfxtTable(word: bv32, op2: bv32, f: Gate, x: Operand)
    requires word & 0xfff8_ffc0 == 0xd500_1000 && op2 == (word >> 5) & 7 && x == Xn(word)
    ensures Bears(NamedRows(word, f), if !f(Feature.Wfxt) then Code.Invalid
                                      else if op2 == 0 then Code.Wfet else Code.Wfit, [x])
  {
  }

  lemma WfxtTree(s: SysFields, f: Gate, v: Insn, x: Operand, c: Code)
    requires s.crm == 0 && s.op2 <= 1 && x == XReg(false, s.rt)
    requires c == if !f(Feature.Wfxt) then Code.Invalid else if s.op2 == 0 then Code.Wfet else Code.Wfit
    ensures WfxtOf(s, f, v) == if c.Invalid? then v else v.Set(c).Push(x)
    ensures OwnNamed(c)
  {
  }

  lemma WfxtIs(word: bv32, s: SysFields, f: Gate, v: Insn, x: Operand)
    requires word & 0xfff8_ffc0 == 0xd500_1000 && SameSelector(s, word)
    requires s.crm == 0 && s.op2 <= 1 && x == Xn(word) == XReg(false, s.rt)
    ensures WfxtOf(s, f, v) == Outcome(v, NamedRows(word, f))
  {
    var c := if !f(Feature.Wfxt) then Code.Invalid else if s.op2 == 0 then Code.Wfet else Code.Wfit;
    WfxtTable(word, s.op2, f, x);
    WfxtTree(s, f, v, x, c);
    One(v, c, x, NamedRows(word, f));
  }

  lemma HintIs(word: bv32, s: SysFields, f: Gate, v: Insn)
    requires word & 0xfff8_f01f == 0xd500_201f && SameSelector(s, word) && s.rt == 31
    ensures HintOf(s, f, v) == Outcome(v, NamedRows(word, f))
  {
    HintNumber(word, s);
    HintByIs((word >> 5) & 0x7f, s.crm, s.op2, f, v);
    BlockRows(word, f);
  }

  lemma HintNumber(word: bv32, s: SysFields)
    requires SameSelector(s, word)
    ensures Parts((word >> 5) & 0x7f, s.crm, s.op2)
  {
  }

  lemma BlockRows(word: bv32, f: Gate)
    ensures word & 0xfff8_f01f == 0xd500_201f ==> NamedRows(word, f) == Some(HintRow((word >> 5) & 0x7f, f))
    ensures word & 0xfff8_f01f == 0xd500_301f ==> NamedRows(word, f) == BarrierRows(word, f)
    ensures word & 0xfff8_f01f == 0xd500_401f ==> NamedRows(word, f) == PstateRows(word)
  {
  }

  lemma MovedRows(word: bv32, f: Gate)
    requires word & 0xffff_fee0 != 0xd523_3060 && word & 0xfff8_ffc0 != 0xd500_1000
    requires word & 0xfff8_f01f != 0xd500_201f && word & 0xfff8_f01f != 0xd500_301f
    requires word & 0xfff8_f01f != 0xd500_401f
    ensures NamedRows(word, f) == Moved(word)
  {
  }

  // What the named dispatch leaves is a move.
  lemma NamedIs(word: bv32, s: SysFields, f: Gate, v: Insn)
    requires word & 0xffd8_0000 == 0xd500_0000 && s == FieldsOf(word) && CanonicalForm.Allocated(s)
    ensures Op0Named(s, f, v) == Outcome(v, NamedRows(word, f))
  {
    NamedGroups(word);
    RestrictedGroups(word);
    SelectorParts(word);
    LowRegisters(word);
    BlockRows(word, f);
    if s.read {
      ResultIs(word, s, f, v, Xn(word));
    } else if s.crn == 1 {
      WfxtIs(word, s, f, v, Xn(word));
    } else if s.crn == 2 {
      HintIs(word, s, f, v);
    } else if s.crn == 3 {
      BarrierIs(word, s, f, v);
    } else {
      PstateIs(word, s, v);
    }
  }

  lemma UnnamedRows(word: bv32, s: SysFields, f: Gate)
    requires word & 0xffd8_0000 == 0xd500_0000 && s == FieldsOf(word) && !CanonicalForm.Allocated(s)
    ensures NamedRows(word, f) == Moved(word)
  {
    NamedGroups(word);
    RestrictedGroups(word);
    SelectorParts(word);
    if word & 0xfff8_f01f == 0xd500_301f {
      BlockRows(word, f);
      NoBarrierRow(word, s, f);
    } else {
      MovedRows(word, f);
    }
  }

  lemma Op0Is(word: bv32, f: Gate, v: Insn)
    requires word & 0xffd8_0000 == 0xd500_0000
    ensures Op0(FieldsOf(word), f, v) == Outcome(v, NamedRows(word, f))
  {
    var s := FieldsOf(word);
    SystemLaws.FieldsInRange(word);
    CanonicalForm.UnallocatedIff(s);
    if CanonicalForm.Allocated(s) {
      NamedIs(word, s, f, v);
    } else {
      UnnamedRows(word, s, f);
      MoveIs(word, v);
    }
  }
}
