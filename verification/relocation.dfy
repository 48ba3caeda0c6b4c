/** Decoding commutes with relocation: an instruction decoded at one address and moved
    to another is the instruction decoded there. */
module Relocation {
  import opened Wrappers
  import opened Ints
  import opened Fields
  import opened Features
  import opened Isa
  import opened Instructions
  import opened EditHistory
  import opened BranchSpec

  // Where a decoder starts: the word it records and the address.
  datatype Origin = Origin(word: bv32, ip: U64)

  function From(v: Insn, q: Origin): Insn { v.(word := q.word, ip := q.ip) }

  // Moving the origin of a decoder's input moves the origin of its output.
  predicate Moves(a: Insn, b: Insn, q: Origin) {
    b == From(a, q)
  }

  // A decoder keeps the word, the address and the flag of its input.
  predicate SameHead(a: Insn, v: Insn) {
    a.word == v.word && a.ip == v.ip && a.modified == v.modified
  }

  ghost predicate NoLabels(v: Insn) {
    forall i | 0 <= i < |v.ops| :: !v.ops[i].Label?
  }

  lemma PlainMoves(opc: bv32, rn: bv32, v: Insn, q: Origin)
    requires v.ops == []
    ensures Moves(PlainBranch(opc, rn, v), PlainBranch(opc, rn, From(v, q)), q)
  {
  }

  lemma PlainNoLabels(opc: bv32, rn: bv32, v: Insn)
    requires v.ops == []
    ensures NoLabels(PlainBranch(opc, rn, v)) && SameHead(PlainBranch(opc, rn, v), v)
  {
  }

  lemma SignedReturnMoves(keyA: bool, rn: bv32, op4: bv32, f: Gate, v: Insn, q: Origin)
    requires v.ops == []
    ensures Moves(SignedReturn(keyA, rn, op4, f, v), SignedReturn(keyA, rn, op4, f, From(v, q)), q)
  {
  }

  lemma SignedPairMoves(opc: bv32, keyA: bool, rn: bv32, op4: bv32, f: Gate, v: Insn, q: Origin)
    requires v.ops == [] && opc >= 8
    ensures Moves(SignedBranch(opc, keyA, rn, op4, f, v), SignedBranch(opc, keyA, rn, op4, f, From(v, q)), q)
  {
  }

  lemma SignedZeroMoves(opc: bv32, keyA: bool, rn: bv32, op4: bv32, f: Gate, v: Insn, q: Origin)
    requires v.ops == [] && opc != 2 && opc < 8
    ensures Moves(SignedBranch(opc, keyA, rn, op4, f, v), SignedBranch(opc, keyA, rn, op4, f, From(v, q)), q)
  {
  }

  lemma SignedMoves(opc: bv32, keyA: bool, rn: bv32, op4: bv32, f: Gate, v: Insn, q: Origin)
    requires v.ops == []
    ensures Moves(SignedBranch(opc, keyA, rn, op4, f, v), SignedBranch(opc, keyA, rn, op4, f, From(v, q)), q)
  {
    if opc == 2 {
      SignedReturnMoves(keyA, rn, op4, f, v, q);
    } else if opc >= 8 {
      SignedPairMoves(opc, keyA, rn, op4, f, v, q);
    } else {
      SignedZeroMoves(opc, keyA, rn, op4, f, v, q);
    }
  }

  lemma SignedReturnHead(keyA: bool, rn: bv32, op4: bv32, f: Gate, v: Insn)
    requires v.ops == []
    ensures NoLabels(SignedReturn(keyA, rn, op4, f, v)) && SameHead(SignedReturn(keyA, rn, op4, f, v), v)
  {
  }

  lemma SignedPairHead(opc: bv32, keyA: bool, rn: bv32, op4: bv32, f: Gate, v: Insn)
    requires v.ops == [] && opc >= 8
    ensures NoLabels(SignedBranch(opc, keyA, rn, op4, f, v)) && SameHead(SignedBranch(opc, keyA, rn, op4, f, v), v)
  {
  }

  lemma SignedZeroHead(opc: bv32, keyA: bool, rn: bv32, op4: bv32, f: Gate, v: Insn)
    requires v.ops == [] && opc != 2 && opc < 8
    ensures NoLabels(SignedBranch(opc, keyA, rn, op4, f, v)) && SameHead(SignedBranch(opc, keyA, rn, op4, f, v), v)
  {
  }

  lemma SignedHead(opc: bv32, keyA: bool, rn: bv32, op4: bv32, f: Gate, v: Insn)
    requires v.ops == []
    ensures NoLabels(SignedBranch(opc, keyA, rn, op4, f, v)) && SameHead(SignedBranch(opc, keyA, rn, op4, f, v), v)
  {
    if opc == 2 {
      SignedReturnHead(keyA, rn, op4, f, v);
    } else if opc >= 8 {
      SignedPairHead(opc, keyA, rn, op4, f, v);
    } else {
      SignedZeroHead(opc, keyA, rn, op4, f, v);
    }
  }

  lemma ExceptionMoves(opc: bv32, ll: bv32, imm16: bv32, f: Gate, v: Insn, q: Origin)
    requires v.ops == []
    ensures Moves(ExceptionBy(opc, ll, imm16, f, v), ExceptionBy(opc, ll, imm16, f, From(v, q)), q)
  {
  }

  lemma ExceptionNoLabels(opc: bv32, ll: bv32, imm16: bv32, f: Gate, v: Insn)
    requires v.ops == []
    ensures NoLabels(ExceptionBy(opc, ll, imm16, f, v)) && SameHead(ExceptionBy(opc, ll, imm16, f, v), v)
  {
  }

  lemma TwoNb(c: Code, a: Operand, b: Operand, nb: bool, v: Insn)
    requires !a.Label? && !b.Label?
    ensures var d := WithNb(v.Set(c).Push(a).Push(b), nb); NoLabels(d) && SameHead(d, v)
  {
  }

  lemma TchangeMoves(word: bv32, f: Gate, v: Insn, q: Origin)
    requires v.ops == []
    ensures Moves(TchangeOf(word, f, v), TchangeOf(word, f, From(v, q)), q)
  {
  }

  lemma TchangeNoLabels(word: bv32, f: Gate, v: Insn)
    requires v.ops == []
    ensures NoLabels(TchangeOf(word, f, v)) && SameHead(TchangeOf(word, f, v), v)
  {
    var rt, xn := XReg(false, Bits(word, 0, 5)), XReg(false, Bits(word, 5, 5));
    var imm := ImmUnsigned(Bits(word, 5, 7) as int);
    var backward, nb := Bit(word, 18) == 1, Bit(word, 17) == 1;
    TwoNb(if backward then Code.TchangebReg else Code.TchangefReg, rt, xn, nb, v);
    TwoNb(if backward then Code.TchangebImm else Code.TchangefImm, rt, imm, nb, v);
  }

  lemma PairMoveMoves(s: SysFields, v: Insn, q: Origin)
    requires v.ops == []
    ensures Moves(PairMove(s, v), PairMove(s, From(v, q)), q)
  {
  }

  lemma PairMoveNoLabels(s: SysFields, v: Insn)
    requires v.ops == []
    ensures NoLabels(PairMove(s, v)) && SameHead(PairMove(s, v), v)
  {
  }

  lemma PushMoves(v: Insn, op: Operand, q: Origin)
    ensures Moves(v.Push(op), From(v, q).Push(op), q)
    ensures NoLabels(v) && !op.Label? ==> NoLabels(v.Push(op))
  {
  }

  lemma SysFieldsMoves(s: SysFields, v: Insn, q: Origin)
    ensures Moves(WithSysFields(s, v), WithSysFields(s, From(v, q)), q)
    ensures NoLabels(v) ==> NoLabels(WithSysFields(s, v))
  {
    var a, b := ImmUnsigned(s.op1 as int), SysOp(Keyword.Cr(s.crn & 15));
    var c, d := SysOp(Keyword.Cr(s.crm & 15)), ImmUnsigned(s.op2 as int);
    FourMove(v, a, b, c, d, q);
  }

  lemma FourMove(v: Insn, a: Operand, b: Operand, c: Operand, d: Operand, q: Origin)
    requires !a.Label? && !b.Label? && !c.Label? && !d.Label?
    ensures Moves(v.Push(a).Push(b).Push(c).Push(d), From(v, q).Push(a).Push(b).Push(c).Push(d), q)
    ensures NoLabels(v) ==> NoLabels(v.Push(a).Push(b).Push(c).Push(d))
  {
    PushMoves(v, a, q);
    PushMoves(v.Push(a), b, q);
    PushMoves(v.Push(a).Push(b), c, q);
    PushMoves(v.Push(a).Push(b).Push(c), d, q);
  }

  lemma SysFieldsHead(s: SysFields, v: Insn)
    ensures SameHead(WithSysFields(s, v), v)
  {
  }

  lemma TlbipMoves(s: SysFields, t: SysEntry, v: Insn, q: Origin)
    requires v.ops == []
    ensures Moves(TlbipOf(s, t, v), TlbipOf(s, t, From(v, q)), q) && NoLabels(TlbipOf(s, t, v))
    ensures SameHead(TlbipOf(s, t, v), v)
  {
  }

  lemma SyspFormsMove(s: SysFields, v: Insn, q: Origin)
    requires v.ops == []
    ensures var a, b := WithSysFields(s, v.Set(Code.Sysp)), WithSysFields(s, From(v, q).Set(Code.Sysp));
            && Moves(a, b, q) && NoLabels(a)
            && Moves(a.Push(RegPairOf(s.rt)), b.Push(RegPairOf(s.rt)), q) && NoLabels(a.Push(RegPairOf(s.rt)))
            && SameHead(a, v)
  {
    SysFieldsMoves(s, v.Set(Code.Sysp), q);
    SysFieldsHead(s, v.Set(Code.Sysp));
    PushMoves(WithSysFields(s, v.Set(Code.Sysp)), RegPairOf(s.rt), q);
  }

  lemma SyspMoves(s: SysFields, table: SysTable, v: Insn, q: Origin)
    requires v.ops == []
    ensures Moves(SyspOf(s, table, v), SyspOf(s, table, From(v, q)), q) && NoLabels(SyspOf(s, table, v))
    ensures SameHead(SyspOf(s, table, v), v)
  {
    var entry := table(false, s.op1, s.crn, s.crm, s.op2);
    if entry.Some? { TlbipMoves(s, entry.value, v, q); }
    SyspFormsMove(s, v, q);
  }

  lemma ResultMoves(s: SysFields, f: Gate, v: Insn, q: Origin)
    requires v.ops == []
    ensures Moves(SystemResult(s, f, v), SystemResult(s, f, From(v, q)), q)
  {
  }

  lemma ResultNoLabels(s: SysFields, f: Gate, v: Insn)
    requires v.ops == []
    ensures NoLabels(SystemResult(s, f, v)) && SameHead(SystemResult(s, f, v), v)
  {
  }

  lemma WfxtMoves(s: SysFields, f: Gate, v: Insn, q: Origin)
    requires v.ops == []
    ensures Moves(WfxtOf(s, f, v), WfxtOf(s, f, From(v, q)), q)
  {
  }

  lemma WfxtNoLabels(s: SysFields, f: Gate, v: Insn)
    requires v.ops == []
    ensures NoLabels(WfxtOf(s, f, v)) && SameHead(WfxtOf(s, f, v), v)
  {
  }

  lemma SmstartMoves(crm: bv32, v: Insn, q: Origin)
    ensures Moves(SmstartOf(crm, v), SmstartOf(crm, From(v, q)), q)
    ensures NoLabels(SmstartOf(crm, v)) && SameHead(SmstartOf(crm, v), v)
  {
  }

  lemma FieldMoves(s: SysFields, v: Insn, q: Origin)
    requires v.ops == [] && !(s.op1 == 3 && s.op2 == 3)
    ensures Moves(MsrImmediate(s, v), MsrImmediate(s, From(v, q)), q)
  {
  }

  lemma FieldHead(s: SysFields, v: Insn)
    requires v.ops == [] && !(s.op1 == 3 && s.op2 == 3)
    ensures NoLabels(MsrImmediate(s, v)) && SameHead(MsrImmediate(s, v), v)
  {
  }

  lemma PstateMoves(s: SysFields, v: Insn, q: Origin)
    requires v.ops == []
    ensures Moves(MsrImmediate(s, v), MsrImmediate(s, From(v, q)), q)
    ensures NoLabels(MsrImmediate(s, v)) && SameHead(MsrImmediate(s, v), v)
  {
    if s.op1 == 3 && s.op2 == 3 {
      SmstartMoves(s.crm, v, q);
    } else {
      FieldMoves(s, v, q);
      FieldHead(s, v);
    }
  }

  lemma BarrierMoves(s: SysFields, f: Gate, v: Insn, q: Origin)
    requires v.ops == []
    ensures Moves(BarrierOf(s, f, v), BarrierOf(s, f, From(v, q)), q)
  {
  }

  // Setting an encoding, and one operand with it, keeps the head and adds no label.
  lemma SetIsBlind(c: Code, a: Operand, v: Insn)
    requires !a.Label?
    ensures NoLabels(v.Set(c)) && SameHead(v.Set(c), v)
    ensures NoLabels(v.Set(c).Push(a)) && SameHead(v.Set(c).Push(a), v)
  {
  }

  lemma DsbNoLabels(crm: bv32, v: Insn)
    ensures NoLabels(DsbOf(crm, v)) && SameHead(DsbOf(crm, v), v)
  {
    OptionIsNoLabel(crm);
    SetIsBlind(Code.Dsb, BarrierOption(crm), v);
  }

  lemma OptionIsNoLabel(crm: bv32)
    ensures !BarrierOption(crm).Label?
  {
  }

  lemma OptionalNoLabels(s: SysFields, f: Gate, v: Insn)
    requires v.ops == [] && (s.op2 == 2 || s.op2 == 6)
    ensures NoLabels(BarrierOf(s, f, v)) && SameHead(BarrierOf(s, f, v), v)
  {
    SetIsBlind(if s.op2 == 2 then Code.Clrex else Code.Isb, ImmUnsigned(s.crm as int), v);
  }

  lemma DataNoLabels(s: SysFields, f: Gate, v: Insn)
    requires v.ops == [] && s.op2 != 2 && s.op2 != 6
    ensures NoLabels(BarrierOf(s, f, v)) && SameHead(BarrierOf(s, f, v), v)
  {
    OptionIsNoLabel(s.crm);
    DsbNoLabels(s.crm, v);
    SetIsBlind(Code.Dsb, SysOp(NxsOption(s.crm)), v);
    SetIsBlind(Code.Dmb, BarrierOption(s.crm), v);
  }

  lemma BarrierNoLabels(s: SysFields, f: Gate, v: Insn)
    requires v.ops == []
    ensures NoLabels(BarrierOf(s, f, v)) && SameHead(BarrierOf(s, f, v), v)
  {
    if s.op2 == 2 || s.op2 == 6 { OptionalNoLabels(s, f, v); } else { DataNoLabels(s, f, v); }
  }

  lemma PlainHintMoves(sel: bv32, v: Insn, q: Origin)
    requires v.ops == [] && IsPlainHint(sel)
    ensures Moves(PlainHint(sel, v), PlainHint(sel, From(v, q)), q)
  {
  }

  lemma PlainHintNoLabels(sel: bv32, v: Insn)
    requires v.ops == [] && IsPlainHint(sel)
    ensures NoLabels(PlainHint(sel, v)) && SameHead(PlainHint(sel, v), v)
  {
  }

  lemma GatedHintMoves(sel: bv32, crm: bv32, op2: bv32, f: Gate, v: Insn, q: Origin)
    requires v.ops == []
    ensures Moves(GatedHint(sel, crm, op2, f, v), GatedHint(sel, crm, op2, f, From(v, q)), q)
  {
  }

  lemma GatedHintNoLabels(sel: bv32, crm: bv32, op2: bv32, f: Gate, v: Insn)
    requires v.ops == []
    ensures NoLabels(GatedHint(sel, crm, op2, f, v)) && SameHead(GatedHint(sel, crm, op2, f, v), v)
  {
  }

  lemma SysRegMoveMoves(s: SysFields, v: Insn, q: Origin)
    requires v.ops == []
    ensures Moves(SysRegMove(s, v), SysRegMove(s, From(v, q)), q)
  {
  }

  lemma SysRegMoveNoLabels(s: SysFields, v: Insn)
    requires v.ops == []
    ensures NoLabels(SysRegMove(s, v)) && SameHead(SysRegMove(s, v), v)
  {
  }

  lemma GcsMoves(s: SysFields, c: Code, v: Insn, q: Origin)
    requires v.ops == []
    ensures Moves(GcsOf(s, c, v), GcsOf(s, c, From(v, q)), q)
  {
  }

  lemma GcsNoLabels(s: SysFields, c: Code, v: Insn)
    requires v.ops == []
    ensures NoLabels(GcsOf(s, c, v)) && SameHead(GcsOf(s, c, v), v)
  {
  }

  lemma SysAliasMoves(s: SysFields, t: SysEntry, v: Insn, q: Origin)
    requires v.ops == []
    ensures Moves(SysAlias(s, t, v), SysAlias(s, t, From(v, q)), q)
  {
  }

  lemma SysAliasNoLabels(s: SysFields, t: SysEntry, v: Insn)
    requires v.ops == []
    ensures NoLabels(SysAlias(s, t, v)) && SameHead(SysAlias(s, t, v), v)
  {
  }

  lemma SysCanonicalMoves(s: SysFields, v: Insn, q: Origin)
    requires v.ops == []
    ensures Moves(SysCanonical(s, v), SysCanonical(s, From(v, q)), q)
    ensures NoLabels(SysCanonical(s, v)) && SameHead(SysCanonical(s, v), v)
  {
    SpelledOutMoves(s, if s.read then Code.Sysl else Code.Sys, XReg(false, s.rt), v, q);
  }

  lemma SpelledOutMoves(s: SysFields, c: Code, op: Operand, v: Insn, q: Origin)
    requires !op.Label?
    ensures var a := WithSysFields(s, v.Set(c).Push(op));
            Moves(a, WithSysFields(s, From(v, q).Set(c).Push(op)), q) && NoLabels(a) && SameHead(a, v)
    ensures var a := WithSysFields(s, v.Set(c)).Push(op);
            Moves(a, WithSysFields(s, From(v, q).Set(c)).Push(op), q) && NoLabels(a) && SameHead(a, v)
  {
    SetMoves(c, v, q);
    OneMoves(c, op, v, q);
    SysFieldsMoves(s, v.Set(c).Push(op), q);
    SysFieldsMoves(s, v.Set(c), q);
    SysFieldsHead(s, v.Set(c).Push(op));
    SysFieldsHead(s, v.Set(c));
    PushMoves(WithSysFields(s, v.Set(c)), op, q);
  }

  // --- The classes with a label: it moves by as much as the address. ---

  // What decoding from q gives, from what decoding at a.ip gave.
  predicate Follows(a: Insn, b: Insn, q: Origin) {
    b == From(a, q).(ops := ShiftLabels(a.ops, Sub(q.ip, a.ip)))
  }

  lemma BlindFollows(a: Insn, b: Insn, q: Origin)
    requires Moves(a, b, q) && NoLabels(a)
    ensures Follows(a, b, q)
  {
    NoLabelNoShift(a.ops, Sub(q.ip, a.ip));
  }

  lemma TargetShifts(p: U64, q: U64, off: U64)
    ensures Add(q, off) == Add(Add(p, off), Sub(q, p))
    ensures Sub(q, off) == Add(Sub(p, off), Sub(q, p))
  {
  }

  lemma LabelShifts(word: bv32, s: Span, p: U64, q: U64)
    ensures LabelAt(q, word, s) == ShiftLabel(LabelAt(p, word, s), Sub(q, p))
  {
    FieldShifts(ImmField(word, s), s, p, q);
  }

  lemma FieldShifts(imm: nat, s: Span, p: U64, q: U64)
    requires imm < 2 * Half(s)
    ensures Label(Target(q, imm, s)) == ShiftLabel(Label(Target(p, imm, s)), Sub(q, p))
  {
    TargetShifts(p, q, Unsigned(SignExtend4(imm, s)));
  }

  // A label-free operand list, then the label.
  lemma LastShifts(ops: seq<Operand>, l: Operand, delta: U64)
    requires forall i | 0 <= i < |ops| :: !ops[i].Label?
    ensures ShiftLabels(ops + [l], delta) == ops + [ShiftLabel(l, delta)]
  {
    var r := ShiftLabels(ops + [l], delta);
    forall i | 0 <= i < |r|
      ensures r[i] == (ops + [ShiftLabel(l, delta)])[i]
    {
      assert r[i] == ShiftLabel((ops + [l])[i], delta);
    }
  }

  lemma PushLabelFollows(a: Insn, b: Insn, l: Operand, m: Operand, q: Origin)
    requires Moves(a, b, q) && NoLabels(a) && |a.ops| < MAX_OPERANDS && m == ShiftLabel(l, Sub(q.ip, a.ip))
    ensures Follows(a.Push(l), b.Push(m), q)
  {
    LastShifts(a.ops, l, Sub(q.ip, a.ip));
  }

  // The part of a branch before its label.
  lemma SetMoves(c: Code, v: Insn, q: Origin)
    ensures Moves(v.Set(c), From(v, q).Set(c), q) && NoLabels(v.Set(c)) && v.Set(c).ops == []
  {
  }

  lemma OneMoves(c: Code, a: Operand, v: Insn, q: Origin)
    requires !a.Label?
    ensures Moves(v.Set(c).Push(a), From(v, q).Set(c).Push(a), q)
    ensures NoLabels(v.Set(c).Push(a)) && |v.Set(c).Push(a).ops| == 1
  {
  }

  lemma TwoMoves(c: Code, a: Operand, b: Operand, v: Insn, q: Origin)
    requires !a.Label? && !b.Label?
    ensures Moves(v.Set(c).Push(a).Push(b), From(v, q).Set(c).Push(a).Push(b), q)
    ensures NoLabels(v.Set(c).Push(a).Push(b)) && |v.Set(c).Push(a).Push(b).ops| == 2
  {
  }

  lemma CondTargetFollows(word: bv32, c: Code, v: Insn, q: Origin)
    ensures Follows(CondTarget(word, v.Set(c)), CondTarget(word, From(v, q).Set(c)), q)
    ensures SameHead(CondTarget(word, v.Set(c)), v)
  {
    var cond := Operand.Cond(ConditionFromU4(Bits(word, 0, 4)));
    OneMoves(c, cond, v, q);
    LabelShifts(word, Imm19, v.ip, q.ip);
    PushLabelFollows(v.Set(c).Push(cond), From(v, q).Set(c).Push(cond), LabelAt(v.ip, word, Imm19),
                     LabelAt(q.ip, word, Imm19), q);
  }

  lemma BackFollows(c: Code, off: U64, v: Insn, q: Origin)
    ensures Follows(v.Set(c).Push(Label(Sub(v.ip, off))), From(v, q).Set(c).Push(Label(Sub(q.ip, off))), q)
    ensures SameHead(v.Set(c).Push(Label(Sub(v.ip, off))), v)
  {
    SetMoves(c, v, q);
    TargetShifts(v.ip, q.ip, off);
    PushLabelFollows(v.Set(c), From(v, q).Set(c), Label(Sub(v.ip, off)), Label(Sub(q.ip, off)), q);
  }

  lemma SppcFollows(word: bv32, c: Code, v: Insn, q: Origin)
    ensures Follows(SppcTarget(word, v.Set(c)), SppcTarget(word, From(v, q).Set(c)), q)
    ensures SameHead(SppcTarget(word, v.Set(c)), v)
  {
    BackFollows(c, 4 * (Field16(word) as int), v, q);
  }

  lemma StillFollows(v: Insn, q: Origin)
    requires v.ops == []
    ensures Follows(v, From(v, q), q)
    ensures SameHead(v, v)
  {
  }

  lemma CondFollows(word: bv32, f: Gate, v: Insn, q: Origin)
    requires v.ops == []
    ensures Follows(CondBranch(word, f, v), CondBranch(word, f, From(v, q)), q)
    ensures SameHead(CondBranch(word, f, v), v)
  {
    StillFollows(v, q);
    if Bit(word, 24) != 0 {
      SppcFollows(word, if Bit(word, 21) == 1 then Code.Retabsppc else Code.Retaasppc, v, q);
    } else {
      CondTargetFollows(word, if Bit(word, 4) == 0 then Code.BCond else Code.BcCond, v, q);
    }
  }

  lemma CompareFollows(word: bv32, v: Insn, q: Origin)
    ensures Follows(CompareBranch(word, v), CompareBranch(word, From(v, q)), q)
    ensures SameHead(CompareBranch(word, v), v)
  {
    var c := CompareBranchCode(Bit(word, 24), Bit(word, 31));
    var r := PlainReg(false, WidthOf(Bit(word, 31)), Bits(word, 0, 5));
    OneMoves(c, r, v, q);
    LabelShifts(word, Imm19, v.ip, q.ip);
    PushLabelFollows(v.Set(c).Push(r), From(v, q).Set(c).Push(r), LabelAt(v.ip, word, Imm19),
                     LabelAt(q.ip, word, Imm19), q);
  }

  lemma TestFollows(word: bv32, v: Insn, q: Origin)
    ensures Follows(TestBranch(word, v), TestBranch(word, From(v, q)), q)
    ensures SameHead(TestBranch(word, v), v)
  {
    var c := if Bit(word, 24) == 1 then Code.Tbnz else Code.Tbz;
    var r, n := PlainReg(false, WidthOf(Bit(word, 31)), Bits(word, 0, 5)), ImmUnsigned(BitPosition(word) as int);
    TwoMoves(c, r, n, v, q);
    LabelShifts(word, Imm14, v.ip, q.ip);
    PushLabelFollows(v.Set(c).Push(r).Push(n), From(v, q).Set(c).Push(r).Push(n),
                     LabelAt(v.ip, word, Imm14), LabelAt(q.ip, word, Imm14), q);
  }

  lemma ThreeFollows(word: bv32, c: Code, a: Operand, b: Operand, v: Insn, q: Origin)
    requires !a.Label? && !b.Label?
    ensures Follows(v.Set(c).Push(a).Push(b).Push(LabelAt(v.ip, word, Imm9)),
                    From(v, q).Set(c).Push(a).Push(b).Push(LabelAt(q.ip, word, Imm9)), q)
    ensures SameHead(v.Set(c).Push(a).Push(b).Push(LabelAt(v.ip, word, Imm9)), v)
  {
    TwoMoves(c, a, b, v, q);
    LabelShifts(word, Imm9, v.ip, q.ip);
    PushLabelFollows(v.Set(c).Push(a).Push(b), From(v, q).Set(c).Push(a).Push(b),
                     LabelAt(v.ip, word, Imm9), LabelAt(q.ip, word, Imm9), q);
  }

  lemma CmpbrRegFollows(word: bv32, v: Insn, q: Origin)
    requires v.ops == []
    ensures Follows(CmpbrReg(word, v), CmpbrReg(word, From(v, q)), q)
    ensures SameHead(CmpbrReg(word, v), v)
  {
    var w := WidthOf(Bit(word, 31));
    var c := CmpbrRegCode(Bits(word, 14, 2), Bits(word, 21, 3));
    StillFollows(v, q);
    if c.Some? {
      ThreeFollows(word, c.value, PlainReg(false, w, Bits(word, 0, 5)), PlainReg(false, w, Bits(word, 16, 5)), v, q);
    }
  }

  lemma CmpbrImmFollows(word: bv32, v: Insn, q: Origin)
    requires v.ops == []
    ensures Follows(CmpbrImm(word, v), CmpbrImm(word, From(v, q)), q)
    ensures SameHead(CmpbrImm(word, v), v)
  {
    var c := CmpbrImmCode(Bits(word, 21, 3));
    StillFollows(v, q);
    if c.Some? {
      ThreeFollows(word, c.value, PlainReg(false, WidthOf(Bit(word, 31)), Bits(word, 0, 5)),
                   ImmUnsigned(Bits(word, 15, 6) as int), v, q);
    }
  }

  lemma UncondFollows(word: bv32, v: Insn, q: Origin)
    ensures Follows(UncondBranchImm(word, v), UncondBranchImm(word, From(v, q)), q)
    ensures SameHead(UncondBranchImm(word, v), v)
  {
    var c := if Bit(word, 31) == 1 then Code.BlImm else Code.BUncond;
    SetMoves(c, v, q);
    LabelShifts(word, Imm26, v.ip, q.ip);
    PushLabelFollows(v.Set(c), From(v, q).Set(c), LabelAt(v.ip, word, Imm26), LabelAt(q.ip, word, Imm26), q);
  }

  // --- The whole group. ---

  lemma RegBranchByMoves(opc: bv32, op3: bv32, rn: bv32, op4: bv32, f: Gate, v: Insn, q: Origin)
    requires v.ops == []
    ensures var d := RegBranchBy(opc, op3, rn, op4, f, v);
            Moves(d, RegBranchBy(opc, op3, rn, op4, f, From(v, q)), q) && NoLabels(d) && SameHead(d, v)
  {
    if op3 == 0 {
      PlainMoves(opc, rn, v, q);
      PlainNoLabels(opc, rn, v);
    } else {
      SignedMoves(opc, op3 == 2, rn, op4, f, v, q);
      SignedHead(opc, op3 == 2, rn, op4, f, v);
    }
  }

  lemma RegBranchFollows(word: bv32, f: Gate, v: Insn, q: Origin)
    requires v.ops == []
    ensures Follows(UncondBranchReg(word, f, v), UncondBranchReg(word, f, From(v, q)), q)
    ensures SameHead(UncondBranchReg(word, f, v), v)
  {
    RegBranchByMoves(Bits(word, 21, 4), Bits(word, 10, 6), Bits(word, 5, 5), Bits(word, 0, 5), f, v, q);
    BlindFollows(UncondBranchReg(word, f, v), UncondBranchReg(word, f, From(v, q)), q);
  }

  lemma JumpFollows(c: BranchSpec.Class, word: bv32, f: Gate, v: Insn, q: Origin)
    requires v.ops == []
    ensures Follows(Jump(c, word, f, v), Jump(c, word, f, From(v, q)), q)
    ensures SameHead(Jump(c, word, f, v), v)
  {
    if c.RegBranch? {
      RegBranchFollows(word, f, v, q);
    } else if c.CondBlock? {
      CondFollows(word, f, v, q);
    } else if c.CmpbrBlock? {
      CmpbrFollows(word, f, v, q);
    } else {
      PlainJumpFollows(c, word, f, v, q);
    }
  }

  lemma CmpbrFollows(word: bv32, f: Gate, v: Insn, q: Origin)
    requires v.ops == []
    ensures Follows(CmpbrOf(word, f, v), CmpbrOf(word, f, From(v, q)), q) && SameHead(CmpbrOf(word, f, v), v)
  {
    StillFollows(v, q);
    CmpbrRegFollows(word, v, q);
    CmpbrImmFollows(word, v, q);
  }

  lemma PlainJumpFollows(c: BranchSpec.Class, word: bv32, f: Gate, v: Insn, q: Origin)
    requires v.ops == [] && !c.RegBranch? && !c.CondBlock? && !c.CmpbrBlock?
    ensures Follows(Jump(c, word, f, v), Jump(c, word, f, From(v, q)), q)
    ensures SameHead(Jump(c, word, f, v), v)
  {
    if c.CompareBlock? {
      CompareFollows(word, v, q);
    } else if c.TestBlock? {
      TestFollows(word, v, q);
    } else if c.ImmBranch? {
      UncondFollows(word, v, q);
    } else {
      StillFollows(v, q);
    }
  }

  lemma PauthMoves(m: Mnemonic, v: Insn, q: Origin)
    ensures Moves(v.Set(Code.HintGeneric).SetAlias(m), From(v, q).Set(Code.HintGeneric).SetAlias(m), q)
    ensures NoLabels(v.Set(Code.HintGeneric).SetAlias(m))
    ensures SameHead(v.Set(Code.HintGeneric).SetAlias(m), v)
  {
  }

  lemma HintMoves(s: SysFields, f: Gate, v: Insn, q: Origin)
    requires v.ops == []
    ensures Moves(HintOf(s, f, v), HintOf(s, f, From(v, q)), q) && NoLabels(HintOf(s, f, v))
    ensures SameHead(HintOf(s, f, v), v)
  {
    if s.rt == 31 { HintByMoves((s.crm << 3) | s.op2, s.crm, s.op2, f, v, q); }
  }

  lemma HintByMoves(sel: bv32, crm: bv32, op2: bv32, f: Gate, v: Insn, q: Origin)
    requires v.ops == []
    ensures Moves(HintBy(sel, crm, op2, f, v), HintBy(sel, crm, op2, f, From(v, q)), q)
    ensures NoLabels(HintBy(sel, crm, op2, f, v))
    ensures SameHead(HintBy(sel, crm, op2, f, v), v)
  {
    if IsPlainHint(sel) {
      PlainHintMoves(sel, v, q);
      PlainHintNoLabels(sel, v);
    } else if f(Feature.PAuth) && IsPauthHint(sel) {
      PauthMoves(PauthHint(sel), v, q);
    } else {
      GatedHintMoves(sel, crm, op2, f, v, q);
      GatedHintNoLabels(sel, crm, op2, f, v);
    }
  }

  lemma NamedMoves(s: SysFields, f: Gate, v: Insn, q: Origin)
    requires v.ops == []
    ensures Moves(Op0Named(s, f, v), Op0Named(s, f, From(v, q)), q) && NoLabels(Op0Named(s, f, v))
    ensures SameHead(Op0Named(s, f, v), v)
  {
    if s.read {
      ResultMoves(s, f, v, q);
      ResultNoLabels(s, f, v);
    } else if s.crn == 4 {
      PstateMoves(s, v, q);
    } else if s.crn == 2 {
      HintMoves(s, f, v, q);
    } else if s.crn == 3 {
      BarrierMoves(s, f, v, q);
      BarrierNoLabels(s, f, v);
    } else if s.crn == 1 {
      WfxtMoves(s, f, v, q);
      WfxtNoLabels(s, f, v);
    }
  }

  lemma RctxMoves(m: Mnemonic, r: Operand, v: Insn, q: Origin)
    requires !r.Label?
    ensures Moves(v.Set(Code.Sys).SetAlias(m).Push(SysOp(Keyword.Rctx)).Push(r),
                  From(v, q).Set(Code.Sys).SetAlias(m).Push(SysOp(Keyword.Rctx)).Push(r), q)
    ensures NoLabels(v.Set(Code.Sys).SetAlias(m).Push(SysOp(Keyword.Rctx)).Push(r))
    ensures SameHead(v.Set(Code.Sys).SetAlias(m).Push(SysOp(Keyword.Rctx)).Push(r), v)
  {
  }

  lemma SysMoves(s: SysFields, f: Gate, table: SysTable, v: Insn, q: Origin)
    requires v.ops == []
    ensures Moves(SysOf(s, f, table, v), SysOf(s, f, table, From(v, q)), q) && NoLabels(SysOf(s, f, table, v))
    ensures SameHead(SysOf(s, f, table, v), v)
  {
    if RctxAlias(s).Some? {
      RctxMoves(RctxAlias(s).value, XReg(false, s.rt), v, q);
    } else if GcsCode(s).Some? && f(Feature.Gcs) {
      GcsMoves(s, GcsCode(s).value, v, q);
      GcsNoLabels(s, GcsCode(s).value, v);
    } else {
      var entry := table(s.read, s.op1, s.crn, s.crm, s.op2);
      if entry.Some? {
        SysAliasMoves(s, entry.value, v, q);
        SysAliasNoLabels(s, entry.value, v);
      } else {
        SysCanonicalMoves(s, v, q);
      }
    }
  }

  lemma SystemMoves(word: bv32, f: Gate, table: SysTable, v: Insn, q: Origin)
    requires v.ops == []
    ensures Moves(System(word, f, table, v), System(word, f, table, From(v, q)), q)
    ensures NoLabels(System(word, f, table, v))
    ensures SameHead(System(word, f, table, v), v)
  {
    var s := FieldsOf(word);
    SysRegMoveMoves(s, v, q);
    SysRegMoveNoLabels(s, v);
    if s.op0 == 0 {
      NamedMoves(s, f, v, q);
    } else if s.op0 == 1 {
      SysMoves(s, f, table, v, q);
    }
  }

  lemma PairMoves(word: bv32, f: Gate, table: SysTable, v: Insn, q: Origin)
    requires v.ops == []
    ensures Moves(SystemPair(word, f, table, v), SystemPair(word, f, table, From(v, q)), q)
    ensures NoLabels(SystemPair(word, f, table, v))
    ensures SameHead(SystemPair(word, f, table, v), v)
  {
    var s := FieldsOf(word);
    SyspMoves(s, table, v, q);
    PairMoveMoves(s, v, q);
    PairMoveNoLabels(s, v);
  }

  lemma BlockFollows(c: BranchSpec.Class, word: bv32, f: Gate, table: SysTable, v: Insn, q: Origin)
    requires v.ops == []
    ensures Follows(BranchIn(c, word, f, table, v), BranchIn(c, word, f, table, From(v, q)), q)
    ensures SameHead(BranchIn(c, word, f, table, v), v)
  {
    match c
    case Exceptions =>
      ExceptionMoves(Bits(word, 21, 3), Bits(word, 0, 2), Bits(word, 5, 16), f, v, q);
      ExceptionNoLabels(Bits(word, 21, 3), Bits(word, 0, 2), Bits(word, 5, 16), f, v);
      BlindFollows(ExceptionGen(word, f, v), ExceptionGen(word, f, From(v, q)), q);
    case SystemBlock =>
      SystemMoves(word, f, table, v, q);
      BlindFollows(System(word, f, table, v), System(word, f, table, From(v, q)), q);
    case PairBlock =>
      PairMoves(word, f, table, v, q);
      BlindFollows(SystemPair(word, f, table, v), SystemPair(word, f, table, From(v, q)), q);
    case TchangeBlock =>
      TchangeMoves(word, f, v, q);
      TchangeNoLabels(word, f, v);
      BlindFollows(TchangeOf(word, f, v), TchangeOf(word, f, From(v, q)), q);
    case Outside => StillFollows(v, q);
    case _ => JumpFollows(c, word, f, v, q);
  }

  // For every word, gate and pair of addresses: decoding at p and moving to q is
  // decoding at q, marked modified exactly when there is a label to move.
  lemma DecodingCommutesWithRelocation(word: bv32, f: Gate, table: SysTable, p: U64, q: U64)
    ensures var a, b := Branch(word, f, table, NewInvalid(word, p)), Branch(word, f, table, NewInvalid(word, q));
            Moved(a, q) == b.(modified := a.HasLabel())
  {
    var v := NewInvalid(word, p);
    BlockFollows(ClassOf(word), word, f, table, v, Origin(word, q));
  }

  lemma {:induction false} NoDistanceNoShift(ops: seq<Operand>)
    ensures ShiftLabels(ops, 0) == ops
  {
    var r := ShiftLabels(ops, 0);
    forall i | 0 <= i < |r|
      ensures r[i] == ops[i]
    {
      assert r[i] == ShiftLabel(ops[i], 0);
    }
  }

  // The word an instruction records takes no part in decoding.
  lemma RecordedWordFree(word: bv32, f: Gate, table: SysTable, v: Insn, y: bv32)
    requires v.ops == []
    ensures Branch(word, f, table, v.(word := y)) == Branch(word, f, table, v).(word := y)
    ensures SameHead(Branch(word, f, table, v), v)
  {
    BlockFollows(ClassOf(word), word, f, table, v, Origin(y, v.ip));
    NoDistanceNoShift(Branch(word, f, table, v).ops);
  }
}
