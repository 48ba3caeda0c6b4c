/** What each public edit of `src/instruction.rs` changes: when it applies, what is read
    back after it, and what stays as it was. */
module EditLaws {
  import opened Wrappers
  import opened Ints
  import opened Isa
  import opened Instructions
  import opened EditHistory

  // Of the whole value only the operand in slot n may differ, and the mark is set.
  ghost predicate OnlySlot(v: Insn, w: Insn, n: nat) {
    && w.word == v.word && w.ip == v.ip && w.code == v.code && w.mnemonic == v.mnemonic && w.modified
    && n < |v.ops| == |w.ops| && forall i | 0 <= i < |v.ops| && i != n :: w.ops[i] == v.ops[i]
  }

  // --- set_op_immediate. ---

  predicate TakesNumber(op: Operand, x: U64) {
    || op.ImmUnsigned? || op.ImmSigned? || op.ImmLogical? || op.Label? || op.ImmSignedDec?
    || (op.ShiftAmount? && x <= 255) || ((op.ImmShiftedMove? || op.ImmShiftedMsl?) && x <= 65535)
  }

  // The number as the signed kinds hold it.
  predicate TwosComplement(i: I64, x: U64) {
    i == x || i == x - 0x1_0000_0000_0000_0000
  }

  // An operand of the same kind, with the number in it and all else kept.
  predicate HoldsNumber(before: Operand, after: Operand, x: U64) {
    && (before.ImmUnsigned? ==> after.ImmUnsigned? && after.value == x)
    && (before.ImmLogical? ==> after.ImmLogical? && after.value == x)
    && (before.Label? ==> after.Label? && after.target == x)
    && (before.ImmSigned? ==> after.ImmSigned? && TwosComplement(after.signed, x))
    && (before.ImmSignedDec? ==> after.ImmSignedDec? && TwosComplement(after.signed, x))
    && (before.ShiftAmount? ==> after.ShiftAmount? && after.amount == x)
    && (before.ImmShiftedMove? ==> after.ImmShiftedMove? && after.imm16 == x && after.lsl == before.lsl)
    && (before.ImmShiftedMsl? ==> after.ImmShiftedMsl? && after.imm16 == x && after.msl == before.msl)
  }

  // It applies to the eight kinds of number, within their range; the number reads back,
  // and the kind, the shift and everything else stay.
  lemma ImmediateSet(v: Insn, n: nat, x: U64)
    requires v.WellFormed()
    ensures var w := Edited(v, Edit.SetOpImmediate(n, x));
            && (w.Some? <==> n < |v.ops| && TakesNumber(v.ops[n], x))
            && (w.Some? ==> OnlySlot(v, w.value, n) && HoldsNumber(v.ops[n], w.value.ops[n], x))
            && (w.Some? && (v.ops[n].ImmUnsigned? || v.ops[n].ImmLogical? || v.ops[n].ImmSigned? || v.ops[n].Label?) ==>
                  w.value.OpImmediate(n) == x)
  {
  }

  // --- set_op_register and set_op_register_unchecked. ---

  predicate HasOneRegister(op: Operand) { op.Reg? || op.RegBang? || op.IndexedElement? || op.PredCounter? }

  // An operand of the same kind, with the register in it and every decoration kept.
  predicate HoldsRegister(before: Operand, after: Operand, r: Register) {
    && (before.Reg? ==> after.Reg? && after.reg == r && after.deco == before.deco)
    && (before.RegBang? ==> after.RegBang? && after.reg == r)
    && (before.IndexedElement? ==>
          && after.IndexedElement? && after.reg == r && after.elemArr == before.elemArr && after.index == before.index
          && after.elemImm == before.elemImm)
    && (before.PredCounter? ==>
          && after.PredCounter? && after.reg == r && after.zeroing == before.zeroing && after.pcArr == before.pcArr
          && after.pcIndex == before.pcIndex)
  }

  lemma RegisterSetUnchecked(v: Insn, n: nat, r: Register)
    requires v.WellFormed()
    ensures var w := Edited(v, Edit.SetOpRegisterUnchecked(n, r));
            && (w.Some? <==> n < |v.ops| && HasOneRegister(v.ops[n]))
            && (w.Some? ==> OnlySlot(v, w.value, n) && HoldsRegister(v.ops[n], w.value.ops[n], r))
            && (w.Some? && v.ops[n].Reg? ==> w.value.OpRegister(n) == r)
  {
  }

  // The checked form asks besides that class and width stay, and a counter is P8 to P15.
  lemma RegisterSet(v: Insn, n: nat, r: Register)
    requires v.WellFormed()
    ensures var w := Edited(v, Edit.SetOpRegister(n, r));
            && (w.Some? <==> && n < |v.ops| && HasOneRegister(v.ops[n]) && SameView(v.ops[n].reg, r)
                             && (v.ops[n].PredCounter? ==> 8 <= Number(r)))
            && (w.Some? ==> w == Edited(v, Edit.SetOpRegisterUnchecked(n, r)))
  {
    if n < |v.ops| && HasOneRegister(v.ops[n]) { ViewsAre(v.ops[n].reg, r); }
  }

  predicate IsW(r: Register) { r.W? || r.Wzr? || r.Wsp? }

  predicate IsX(r: Register) { r.X? || r.Xzr? || r.Sp? }

  // Registers of one view: general of 32 or of 64 bits, scalar of one size, vector,
  // scalable, predicate, prefetch operation; the rest stand alone, FFR and ZA together.
  predicate SameView(a: Register, b: Register) {
    || (IsW(a) && IsW(b)) || (IsX(a) && IsX(b)) || (a.B? && b.B?) || (a.H? && b.H?) || (a.S? && b.S?)
    || (a.D? && b.D?) || (a.Q? && b.Q?) || (a.V? && b.V?) || (a.Z? && b.Z?) || (a.P? && b.P?) || (a.Pf? && b.Pf?)
    || a == b || (a.Ffr? && b.Za?) || (a.Za? && b.Ffr?)
  }

  lemma ViewsAre(a: Register, b: Register)
    ensures SameView(a, b) <==> Class(a) == Class(b) && WidthBits(a) == WidthBits(b)
  {
  }

  // --- The edits of the first operand of a kind. ---

  // The slot at which such an edit stopped.
  lemma {:induction false} EditedAt(ops: seq<Operand>, e: Edit, from: nat) returns (k: nat)
    requires from <= |ops| && EditFirst(ops, e, from).Some?
    ensures from <= k < |ops| && StepOf(e, ops[k]).Put?
    ensures EditFirst(ops, e, from).value == ops[k := StepOf(e, ops[k]).op]
    ensures forall i | from <= i < k :: StepOf(e, ops[i]).Skip?
    decreases |ops| - from
  {
    if StepOf(e, ops[from]).Put? {
      k := from;
    } else {
      k := EditedAt(ops, e, from + 1);
    }
  }

  lemma {:induction false} SkippedAll(ops: seq<Operand>, e: Edit, from: nat)
    requires from <= |ops| && forall op | op in ops :: StepOf(e, op) != Refuse
    ensures EditFirst(ops, e, from).None? ==> forall i | from <= i < |ops| :: StepOf(e, ops[i]).Skip?
    decreases |ops| - from
  {
    if from < |ops| {
      assert ops[from] in ops;
      SkippedAll(ops, e, from + 1);
    }
  }

  lemma {:induction false} FirstCondAt(ops: seq<Operand>, k: nat)
    requires k < |ops| && ops[k].Cond? && forall i | 0 <= i < k :: !ops[i].Cond?
    ensures FirstCond(ops) == Some(ops[k].cond)
  {
    if k > 0 { FirstCondAt(ops[1..], k - 1); }
  }

  // Only the operand in slot k may differ, and it is the first that has the part.
  ghost predicate ReplacesFirst(v: Insn, w: Insn, k: nat, has: Operand -> bool) {
    OnlySlot(v, w, k) && has(v.ops[k]) && forall i | 0 <= i < k :: !has(v.ops[i])
  }

  predicate IsCond(op: Operand) { op.Cond? }

  predicate IsLabel(op: Operand) { op.Label? }

  // The condition operand is replaced, if there is one, and is then the condition of the
  // instruction.
  lemma ConditionSet(v: Insn, c: Condition)
    requires v.WellFormed()
    ensures var w := Edited(v, Edit.SetCondition(c));
            && (w.Some? <==> exists op | op in v.ops :: op.Cond?)
            && (w.Some? ==> w.value.ConditionOf() == Some(c))
            && (w.Some? ==> exists k: nat :: ReplacesFirst(v, w.value, k, IsCond) && w.value.ops[k] == Operand.Cond(c))
  {
    var e := Edit.SetCondition(c);
    if Edited(v, e).Some? {
      var k := EditedAt(v.ops, e, 0);
      FirstCondAt(Edited(v, e).value.ops, k);
      assert ReplacesFirst(v, Edited(v, e).value, k, IsCond) && v.ops[k] in v.ops;
    } else {
      SkippedAll(v.ops, e, 0);
    }
  }

  // The first label is replaced, if there is one.
  lemma LabelSet(v: Insn, t: U64)
    requires v.WellFormed()
    ensures var w := Edited(v, Edit.SetLabel(t));
            && (w.Some? <==> v.HasLabel())
            && (w.Some? ==> FirstLabel(w.value.ops) == t)
            && (w.Some? ==> exists k: nat :: ReplacesFirst(v, w.value, k, IsLabel) && w.value.ops[k] == Label(t))
  {
    var e := Edit.SetLabel(t);
    if Edited(v, e).Some? {
      var k := EditedAt(v.ops, e, 0);
      FirstLabelAt(Edited(v, e).value.ops, k);
      assert ReplacesFirst(v, Edited(v, e).value, k, IsLabel);
    } else {
      SkippedAll(v.ops, e, 0);
    }
  }

  // An address of the same kind, with only its base, its index or its displacement new.
  predicate HoldsBase(before: Operand, after: Operand, r: Register) {
    && (before.MemImm? ==> after == MemImm(r, before.disp, before.mode))
    && (before.MemExt? ==> after == MemExt(r, before.index, before.ext, before.scale))
    && (before.SveMem? ==> after == SveMem(r, before.index, before.disp32, before.sveMode))
  }

  predicate HoldsIndex(before: Operand, after: Operand, r: Register) {
    && (before.MemExt? ==> after == MemExt(before.base, r, before.ext, before.scale))
    && (before.SveMem? ==> after == SveMem(before.base, r, before.disp32, before.sveMode))
  }

  predicate HoldsDisplacement(before: Operand, after: Operand, d: I64) {
    && (before.MemImm? ==> after == MemImm(before.base, d, before.mode))
    && (before.SveMem? ==> -0x8000_0000 <= d < 0x8000_0000 &&
                           after == SveMem(before.base, before.index, d, before.sveMode))
  }

  lemma BaseKept(v: Insn, r: Register)
    requires v.WellFormed()
    ensures var w := Edited(v, Edit.SetMemoryBase(r));
            && (w.Some? <==> exists op | op in v.ops :: op.MemImm? || op.MemExt? || op.SveMem?)
            && (w.Some? ==>
                  exists k: nat :: ReplacesFirst(v, w.value, k, HasBase) && HoldsBase(v.ops[k], w.value.ops[k], r))
  {
    var e := Edit.SetMemoryBase(r);
    if Edited(v, e).Some? {
      var k := EditedAt(v.ops, e, 0);
      assert ReplacesFirst(v, Edited(v, e).value, k, HasBase) && v.ops[k] in v.ops;
    } else {
      SkippedAll(v.ops, e, 0);
    }
  }

  lemma IndexKept(v: Insn, r: Register)
    requires v.WellFormed()
    ensures var w := Edited(v, Edit.SetMemoryIndex(r));
            && (w.Some? <==> exists op | op in v.ops :: op.MemExt? || op.SveMem?)
            && (w.Some? ==>
                  exists k: nat :: ReplacesFirst(v, w.value, k, HasIndex) && HoldsIndex(v.ops[k], w.value.ops[k], r))
  {
    var e := Edit.SetMemoryIndex(r);
    if Edited(v, e).Some? {
      var k := EditedAt(v.ops, e, 0);
      assert ReplacesFirst(v, Edited(v, e).value, k, HasIndex) && v.ops[k] in v.ops;
    } else {
      SkippedAll(v.ops, e, 0);
    }
  }

  // The first operand with a displacement decides.
  lemma {:induction false} StopsAt(ops: seq<Operand>, e: Edit, from: nat, k: nat)
    requires from <= k < |ops| && !StepOf(e, ops[k]).Skip?
    requires forall i | from <= i < k :: StepOf(e, ops[i]).Skip?
    ensures EditFirst(ops, e, from).Some? <==> StepOf(e, ops[k]).Put?
    decreases k - from
  {
    if from < k { StopsAt(ops, e, from + 1, k); }
  }

  // Slot k has the first displacement, and d fits it.
  predicate Takes(ops: seq<Operand>, k: nat, d: I64) {
    && k < |ops| && (ops[k].MemImm? || (ops[k].SveMem? && -0x8000_0000 <= d <= 0x7fff_ffff))
    && forall i | 0 <= i < k :: !ops[i].MemImm? && !ops[i].SveMem?
  }

  lemma DisplacementKept(v: Insn, d: I64)
    requires v.WellFormed()
    ensures var w := Edited(v, Edit.SetMemoryDisplacement64(d));
            && (w.Some? <==> exists k: nat :: Takes(v.ops, k, d))
            && (w.Some? ==> exists k: nat :: && ReplacesFirst(v, w.value, k, HasDisplacement)
                                             && HoldsDisplacement(v.ops[k], w.value.ops[k], d))
  {
    var e := Edit.SetMemoryDisplacement64(d);
    if Edited(v, e).Some? {
      var k := EditedAt(v.ops, e, 0);
      assert ReplacesFirst(v, Edited(v, e).value, k, HasDisplacement) && Takes(v.ops, k, d);
    }
    if k: nat :| Takes(v.ops, k, d) { StopsAt(v.ops, e, 0, k); }
  }

  // --- The edits of the operand list and of the head. ---

  // All but the operands is kept, and the mark is set.
  predicate SameHead(v: Insn, w: Insn) {
    w.word == v.word && w.ip == v.ip && w.code == v.code && w.mnemonic == v.mnemonic && w.modified
  }

  lemma SlotSet(v: Insn, n: nat, op: Operand)
    requires v.WellFormed()
    ensures var w := Edited(v, Edit.SetOp(n, op));
            && (w.Some? <==> n < 5)
            && (w.Some? ==> && SameHead(v, w.value) && |w.value.ops| == (if n < |v.ops| then |v.ops| else n + 1)
                            && forall i: nat :: w.value.Op(i) == if i == n then op else v.Op(i))
  {
  }

  lemma CountSet(v: Insn, count: nat)
    requires v.WellFormed()
    ensures var w := Edited(v, Edit.SetOpCount(count));
            && (w.Some? <==> count <= 5)
            && (w.Some? ==> && SameHead(v, w.value) && |w.value.ops| == count
                            && forall i: nat :: w.value.Op(i) == if i < count then v.Op(i) else NoOperand)
  {
  }

  lemma Pushed(v: Insn, op: Operand)
    requires v.WellFormed()
    ensures var w := Edited(v, Edit.PushOp(op));
            && (w.Some? <==> |v.ops| < 5)
            && (w.Some? ==> && SameHead(v, w.value) && |w.value.ops| == |v.ops| + 1
                            && forall i: nat :: w.value.Op(i) == if i == |v.ops| then op else v.Op(i))
  {
  }

  // The encodings that each shared name has; any other encoding is named by itself.
  predicate Names(m: Mnemonic, c: Code) {
    if m.B? then c.BCond? || c.BUncond?
    else if m.Cbz? then c.Cbz32? || c.Cbz64?
    else if m.Cbnz? then c.Cbnz32? || c.Cbnz64?
    else if m.Msr? then c.MsrImm? || c.MsrReg?
    else if m.Tchangef? then c.TchangefReg? || c.TchangefImm?
    else if m.Tchangeb? then c.TchangebReg? || c.TchangebImm?
    else if m.OtherMnemonic? then c.OtherCode? && c.spelling == m.id
    else m.Own? && m.code == c && !IsShared(c)
  }

  predicate IsShared(c: Code) {
    || c.BCond? || c.BUncond? || c.Cbz32? || c.Cbz64? || c.Cbnz32? || c.Cbnz64? || c.MsrImm? || c.MsrReg?
    || c.TchangefReg? || c.TchangefImm? || c.TchangebReg? || c.TchangebImm? || c.OtherCode?
  }

  lemma NameIsOne(m: Mnemonic, c: Code)
    ensures Names(m, c) <==> m == MnemonicOf(c)
  {
    if IsShared(c) { SharedName(m, c); } else { OwnName(m, c); }
  }

  lemma OwnName(m: Mnemonic, c: Code)
    requires !IsShared(c)
    ensures MnemonicOf(c) == Own(c) && (Names(m, c) <==> m == Own(c))
  {
  }

  lemma SharedName(m: Mnemonic, c: Code)
    requires IsShared(c)
    ensures Names(m, c) <==> m == MnemonicOf(c)
  {
    if m.Own? {
      assert !Names(m, c);
    }
  }

  // set_code gives the one name of the new encoding, set_ip and set_mnemonic move nothing
  // else.
  lemma HeadSet(v: Insn, c: Code, m: Mnemonic, ip: U64)
    requires v.WellFormed()
    ensures Edited(v, Edit.SetMnemonic(m)) == Some(Insn(v.word, v.ip, v.code, m, v.ops, true))
    ensures Edited(v, Edit.SetIp(ip)) == Some(Insn(v.word, ip, v.code, v.mnemonic, v.ops, v.modified || v.HasLabel()))
    ensures Names(m, c) <==> Edited(v, Edit.SetCode(c)) == Some(Insn(v.word, v.ip, c, m, v.ops, true))
  {
    NameIsOne(m, c);
  }
}
