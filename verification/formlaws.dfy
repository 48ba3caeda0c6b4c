/** Exactly what the report says is read and written, form by form, for every instruction
    value and every mnemonic table. */
module FormLaws {
  import opened Wrappers
  import opened Isa
  import opened Instructions
  import opened Access
  import opened Implicit
  import opened Info
  import opened InfoLaws

  // --- What an operand names. ---

  // The vectors n, n + stride, ..., count of them, modulo 32.
  predicate InGroup(n: bv32, count: nat, stride: bv32, r: Register)
    decreases count
  {
    count > 0 && (r == Z(n & 31) || InGroup(n + stride, count - 1, stride, r))
  }

  // The registers that hold the data of the operand.
  predicate Carries(op: Operand, r: Register) {
    if op.Reg? || op.RegBang? || op.PredCounter? || op.IndexedElement? then r == op.reg
    else if op.MultiReg? then r in op.regs
    else if op.RegPair? then r == op.first || r == op.second
    else if op.SveVecGroup? then InGroup(Number(op.first), op.groupCount, op.stride, r)
    else if op.SmeTile? || op.SmeTileSlice? || op.SmeZaSlice? || (op.SmeZaMask? && !op.zt0) then r == Za
    else if op.SmeZt0Index? || op.SmeZaMask? then r == Zt0
    else false
  }

  // The register that selects the element or the slice.
  predicate Picks(op: Operand, r: Register) {
    || (op.IndexedElement? && r == op.index)
    || ((op.SmeTileSlice? || op.SmeZaSlice?) && r == op.sel)
  }

  // The registers an address is formed from, and the one it is written back to.
  predicate Forms(op: Operand, r: Register) {
    (op.MemImm? && r == op.base) || ((op.MemExt? || op.SveMem?) && (r == op.base || r == op.index))
  }

  predicate WritesBack(op: Operand, r: Register) {
    op.MemImm? && r == op.base && (op.mode.PreIndex? || op.mode.PreNoOffset? || op.mode.PostImm? || op.mode.PostReg?)
  }

  // --- Joins tell what their adds do. ---

  ghost predicate SomeReads(adds: seq<UsedRegister>, r: Register) {
    exists u :: u in adds && u.register == r && Reads(u.access)
  }

  ghost predicate SomeWrites(adds: seq<UsedRegister>, r: Register) {
    exists u :: u in adds && u.register == r && Writes(u.access)
  }

  lemma SomeOfSnoc(adds: seq<UsedRegister>, u: UsedRegister, r: Register)
    ensures SomeReads(adds + [u], r) <==> SomeReads(adds, r) || (u.register == r && Reads(u.access))
    ensures SomeWrites(adds + [u], r) <==> SomeWrites(adds, r) || (u.register == r && Writes(u.access))
  {
    assert forall x :: x in adds + [u] <==> x in adds || x == u;
  }

  lemma {:induction false} JoinTells(adds: seq<UsedRegister>, r: Register)
    requires Plain(adds)
    ensures Reads(JoinOf(adds, r)) <==> SomeReads(adds, r)
    ensures Writes(JoinOf(adds, r)) <==> SomeWrites(adds, r)
  {
    if adds != [] {
      var n := |adds| - 1;
      assert adds == adds[..n] + [adds[n]] && adds[n] in adds;
      assert forall u | u in adds[..n] :: u in adds;
      JoinTells(adds[..n], r);
      PlainJoin(adds[..n], r);
      SomeOfSnoc(adds[..n], adds[n], r);
      MergedFlags(JoinOf(adds[..n], r), Touch(adds[n], r));
    }
  }

  lemma SomeOfOne(u: UsedRegister, r: Register)
    ensures SomeReads([u], r) <==> u.register == r && Reads(u.access)
    ensures SomeWrites([u], r) <==> u.register == r && Writes(u.access)
  {
    assert u in [u];
  }

  lemma SomeOfTwo(u: UsedRegister, w: UsedRegister, r: Register)
    ensures SomeReads([u, w], r) <==> (u.register == r && Reads(u.access)) || (w.register == r && Reads(w.access))
    ensures SomeWrites([u, w], r) <==> (u.register == r && Writes(u.access)) || (w.register == r && Writes(w.access))
  {
    assert u in [u, w] && w in [u, w];
  }

  lemma {:induction false} EachIs(rs: seq<Register>, access: OpAccess, u: UsedRegister)
    ensures u in AllWith(rs, access) <==> u.access == access && u.register in rs
  {
    if rs != [] { EachIs(rs[1..], access, u); }
  }

  lemma {:induction false} GroupIs(n: bv32, count: nat, stride: bv32, access: OpAccess, u: UsedRegister)
    ensures u in Group(n, count, stride, access) <==> u.access == access && InGroup(n, count, stride, u.register)
    decreases count
  {
    if count > 0 { GroupIs(n + stride, count - 1, stride, access, u); }
  }

  // The data of an operand has the access of its use; what selects is read.
  lemma DataIs(op: Operand, access: OpAccess, r: Register)
    requires Unconditional(access)
    ensures Writes(JoinOf(DataAdds(op, access), r)) <==> Writes(access) && Carries(op, r)
    ensures Reads(JoinOf(DataAdds(op, access), r)) <==> (Reads(access) && Carries(op, r)) || Picks(op, r)
  {
    PlainData(op, access);
    JoinTells(DataAdds(op, access), r);
    var u := UsedRegister(r, access);
    if op.MultiReg? {
      forall x { EachIs(op.regs, access, x); }
      assert u in AllWith(op.regs, access) <==> r in op.regs;
    } else if op.SveVecGroup? {
      var n := Number(op.first);
      forall x { GroupIs(n, op.groupCount, op.stride, access, x); }
      assert u in Group(n, op.groupCount, op.stride, access) <==> InGroup(n, op.groupCount, op.stride, r);
    } else {
      FewIs(op, access, r);
    }
  }

  // Operands of at most two registers.
  lemma FewIs(op: Operand, access: OpAccess, r: Register)
    requires !op.MultiReg? && !op.SveVecGroup?
    ensures SomeWrites(DataAdds(op, access), r) <==> Writes(access) && Carries(op, r)
    ensures SomeReads(DataAdds(op, access), r) <==> (Reads(access) && Carries(op, r)) || Picks(op, r)
  {
    if op.Reg? || op.RegBang? || op.PredCounter? {
      SomeOfOne(UsedRegister(op.reg, access), r);
    } else if op.RegPair? || op.IndexedElement? {
      PairIs(op, access, r);
    } else {
      ZaIs(op, access, r);
    }
  }

  lemma PairIs(op: Operand, access: OpAccess, r: Register)
    requires op.RegPair? || op.IndexedElement?
    ensures SomeWrites(PairAdds(op, access), r) <==> Writes(access) && Carries(op, r)
    ensures SomeReads(PairAdds(op, access), r) <==> (Reads(access) && Carries(op, r)) || Picks(op, r)
  {
    if op.RegPair? {
      SomeOfTwo(UsedRegister(op.first, access), UsedRegister(op.second, access), r);
    } else {
      SomeOfTwo(UsedRegister(op.reg, access), UsedRegister(op.index, Read), r);
    }
  }

  lemma ZaIs(op: Operand, access: OpAccess, r: Register)
    requires !op.MultiReg? && !op.SveVecGroup? && !op.Reg? && !op.RegBang? && !op.PredCounter? && !op.RegPair?
    requires !op.IndexedElement?
    ensures SomeWrites(ZaAdds(op, access), r) <==> Writes(access) && Carries(op, r)
    ensures SomeReads(ZaAdds(op, access), r) <==> (Reads(access) && Carries(op, r)) || Picks(op, r)
  {
    if op.SmeTileSlice? || op.SmeZaSlice? {
      SliceIs(op, access, r);
    } else if op.SmeTile? || op.SmeZaMask? || op.SmeZt0Index? {
      TileIs(op, access, r);
    } else {
      assert ZaAdds(op, access) == [] && !Carries(op, r) && !Picks(op, r);
    }
  }

  lemma TileIs(op: Operand, access: OpAccess, r: Register)
    requires op.SmeTile? || op.SmeZaMask? || op.SmeZt0Index?
    ensures SomeWrites(ZaAdds(op, access), r) <==> Writes(access) && Carries(op, r)
    ensures SomeReads(ZaAdds(op, access), r) <==> (Reads(access) && Carries(op, r)) || Picks(op, r)
  {
    SomeOfOne(UsedRegister(ZaRegister(op), access), r);
  }

  lemma SliceIs(op: Operand, access: OpAccess, r: Register)
    requires op.SmeTileSlice? || op.SmeZaSlice?
    ensures SomeWrites(ZaAdds(op, access), r) <==> Writes(access) && Carries(op, r)
    ensures SomeReads(ZaAdds(op, access), r) <==> (Reads(access) && Carries(op, r)) || Picks(op, r)
  {
    SomeOfTwo(UsedRegister(op.sel, Read), UsedRegister(Za, access), r);
  }

  lemma AddressIs(op: Operand, r: Register)
    ensures Writes(JoinOf(AddressAdds(op), r)) <==> WritesBack(op, r)
    ensures Reads(JoinOf(AddressAdds(op), r)) <==> Forms(op, r)
  {
    PlainUse(AddressUse(op, Read));
    JoinTells(AddressAdds(op), r);
    if op.MemImm? {
      SomeOfOne(UsedRegister(op.base, if IsWriteback(op.mode) then ReadWrite else Read), r);
    } else if op.MemExt? || op.SveMem? {
      SomeOfTwo(UsedRegister(op.base, Read), UsedRegister(op.index, Read), r);
    }
  }

  // --- The uses of an instruction, and what each of them does. ---

  predicate UseReads(u: Use, r: Register) {
    if u.AddressUse? then Forms(u.op, r) else (Reads(u.access) && Carries(u.op, r)) || Picks(u.op, r)
  }

  predicate UseWrites(u: Use, r: Register) {
    if u.AddressUse? then WritesBack(u.op, r) else Writes(u.access) && Carries(u.op, r)
  }

  lemma UseIs(u: Use, r: Register)
    requires Unconditional(u.access)
    ensures Reads(JoinOf(RegsOfUse(u), r)) <==> UseReads(u, r)
    ensures Writes(JoinOf(RegsOfUse(u), r)) <==> UseWrites(u, r)
    ensures Unconditional(JoinOf(RegsOfUse(u), r))
  {
    PlainUse(u);
    PlainJoin(RegsOfUse(u), r);
    if u.DataUse? { DataIs(u.op, u.access, r); } else { AddressIs(u.op, r); }
  }

  ghost predicate SomeUseReads(uses: seq<Use>, r: Register) { exists u :: u in uses && UseReads(u, r) }

  ghost predicate SomeUseWrites(uses: seq<Use>, r: Register) { exists u :: u in uses && UseWrites(u, r) }

  lemma {:induction false} UsesTell(uses: seq<Use>, r: Register)
    requires forall u | u in uses :: Unconditional(u.access)
    ensures Reads(JoinOf(RegsOf(uses), r)) <==> SomeUseReads(uses, r)
    ensures Writes(JoinOf(RegsOf(uses), r)) <==> SomeUseWrites(uses, r)
  {
    if uses != [] {
      assert uses[0] in uses && forall u :: u in uses <==> u == uses[0] || u in uses[1..];
      UsesTell(uses[1..], r);
      UseIs(uses[0], r);
      PlainUses(uses[1..]);
      PlainJoin(RegsOf(uses[1..]), r);
      JoinOfConcat(RegsOfUse(uses[0]), RegsOf(uses[1..]), r);
      MergedFlags(JoinOf(RegsOfUse(uses[0]), r), JoinOf(RegsOf(uses[1..]), r));
    }
  }

  // What the report says is what some use or the implicit list says.
  lemma ReportTells(v: Insn, t: Tables, r: Register)
    requires Fits(v, t) && !r.NoRegister?
    ensures var a, b := AccessOf(InfoOf(v, t).regs, r), AccessOf(Listed(v), r);
            && (Reads(a) <==> SomeUseReads(Uses(v, t), r) || Reads(b))
            && (Writes(a) <==> SomeUseWrites(Uses(v, t), r) || Writes(b))
  {
    InfoIsMap(v, t, r);
    ImplicitIsComplete(v, r);
    UsesAre(v, t);
    UsesTell(Uses(v, t), r);
    ExplicitUnconditional(v, t, r);
    PlainImplicit(v);
    PlainJoin(ImplicitAdds(v), r);
    MergedFlags(JoinOf(RegsOf(Uses(v, t)), r), JoinOf(ImplicitAdds(v), r));
  }

  lemma {:induction false} UsesFromOnly(f: Form, ops: seq<Operand>, i: nat, u: Use)
    requires i <= |ops| && u in UsesFrom(f, ops, i)
    ensures exists k :: i <= k < |ops| && SlotUse(f, ops[k], k) == Some(u)
    decreases |ops| - i
  {
    if i < |ops| && SlotUse(f, ops[i], i) != Some(u) { UsesFromOnly(f, ops, i + 1, u); }
  }

  // --- A load or a store. ---

  predicate IsPredicateRegister(op: Operand) {
    (op.Reg? && Class(op.reg) == RegClass.Predicate) || op.PredCounter?
  }

  // Which data operands a transfer writes: all that a load names, the status of an
  // exclusive store, the register before the address of an atomic update, the first half
  // of a compare-and-swap. A predicate past slot 0 is only read.
  predicate IsWritten(kind: MemKind, m: nat, op: Operand, i: nat) {
    && (i == 0 || !IsPredicateRegister(op))
    && (kind.Load? || (kind.StoreExclusive? && i == 0) || (kind.AtomicRmw? && i + 1 == m)
        || (kind.CompareSwap? && 2 * (i + 1) <= m))
  }

  // And which it reads: all the others, and what a compare-and-swap compares with.
  predicate IsRead(kind: MemKind, m: nat, op: Operand, i: nat) {
    !IsWritten(kind, m, op, i) || kind.CompareSwap?
  }

  // No operand of the copy and set family, and the first address is in slot m.
  ghost predicate HasAddress(v: Insn, m: nat) {
    && m < |v.ops| && (v.ops[m].MemImm? || v.ops[m].MemExt? || v.ops[m].SveMem?)
    && (forall j | 0 <= j < m :: !v.ops[j].MemImm? && !v.ops[j].MemExt? && !v.ops[j].SveMem?)
    && NoMops(v)
  }

  ghost predicate NoMops(v: Insn) {
    forall j | 0 <= j < |v.ops| :: !v.ops[j].RegBang? && !(v.ops[j].MemImm? && v.ops[j].mode.PreNoOffset?)
  }

  lemma MemoryFormIs(v: Insn, t: Tables, m: nat)
    requires HasAddress(v, m) && t.classify(v.mnemonic, true) != NotMem
    ensures FormOf(v, t) == Memory(t.classify(v.mnemonic, true), m)
  {
  }

  lemma DataSlot(f: Form, ops: seq<Operand>, i: nat, r: Register)
    requires f.Memory? && f.kind != NotMem && i < |ops| && i != f.slot
    ensures var u := SlotUse(f, ops[i], i);
            && u.Some?
            && (UseWrites(u.value, r) <==> IsWritten(f.kind, f.slot, ops[i], i) && Carries(ops[i], r))
            && (UseReads(u.value, r) <==> (IsRead(f.kind, f.slot, ops[i], i) && Carries(ops[i], r)) || Picks(ops[i], r))
  {
  }

  ghost predicate DataWritten(ops: seq<Operand>, kind: MemKind, m: nat, r: Register) {
    exists i :: 0 <= i < |ops| && i != m && IsWritten(kind, m, ops[i], i) && Carries(ops[i], r)
  }

  ghost predicate DataRead(ops: seq<Operand>, kind: MemKind, m: nat, r: Register) {
    exists i :: 0 <= i < |ops| && i != m && ((IsRead(kind, m, ops[i], i) && Carries(ops[i], r)) || Picks(ops[i], r))
  }

  lemma SlotsAreUsed(f: Form, ops: seq<Operand>, u: Use) returns (k: nat)
    requires u in UsesFrom(f, ops, 0)
    ensures k < |ops| && SlotUse(f, ops[k], k) == Some(u)
  {
    UsesFromOnly(f, ops, 0, u);
    k :| 0 <= k < |ops| && SlotUse(f, ops[k], k) == Some(u);
  }

  lemma DataSlotsWrite(f: Form, ops: seq<Operand>, r: Register)
    requires f.Memory? && f.kind != NotMem
    ensures SomeUseWrites(UsesFrom(f, ops, 0), r) <==> DataWritten(ops, f.kind, f.slot, r)
  {
    if SomeUseWrites(UsesFrom(f, ops, 0), r) {
      var u :| u in UsesFrom(f, ops, 0) && UseWrites(u, r);
      var k := SlotsAreUsed(f, ops, u);
      DataSlot(f, ops, k, r);
    }
    if DataWritten(ops, f.kind, f.slot, r) {
      var i :| 0 <= i < |ops| && i != f.slot && IsWritten(f.kind, f.slot, ops[i], i) && Carries(ops[i], r);
      DataSlot(f, ops, i, r);
      UsesFromHas(f, ops, 0, i);
    }
  }

  lemma DataSlotsRead(f: Form, ops: seq<Operand>, r: Register)
    requires f.Memory? && f.kind != NotMem
    ensures SomeUseReads(UsesFrom(f, ops, 0), r) <==> DataRead(ops, f.kind, f.slot, r)
  {
    if SomeUseReads(UsesFrom(f, ops, 0), r) {
      var u :| u in UsesFrom(f, ops, 0) && UseReads(u, r);
      var k := SlotsAreUsed(f, ops, u);
      DataSlot(f, ops, k, r);
    }
    if DataRead(ops, f.kind, f.slot, r) {
      var i :| && 0 <= i < |ops| && i != f.slot
               && ((IsRead(f.kind, f.slot, ops[i], i) && Carries(ops[i], r)) || Picks(ops[i], r));
      DataSlot(f, ops, i, r);
      UsesFromHas(f, ops, 0, i);
    }
  }

  lemma OneMoreUse(u: Use, rest: seq<Use>, r: Register)
    ensures SomeUseWrites([u] + rest, r) <==> UseWrites(u, r) || SomeUseWrites(rest, r)
    ensures SomeUseReads([u] + rest, r) <==> UseReads(u, r) || SomeUseReads(rest, r)
  {
    assert forall x :: x in [u] + rest <==> x == u || x in rest;
  }

  // The report of a load, a store or an atomic: a register is written exactly if the
  // operand that holds it is, or the address is written back to it; it is read exactly if
  // the operand that holds it is, or the address or an element is formed with it. Besides
  // there is what the instruction does without naming it.
  lemma MemoryReport(v: Insn, t: Tables, m: nat, r: Register)
    requires HasAddress(v, m) && t.classify(v.mnemonic, true) != NotMem && Fits(v, t) && !r.NoRegister?
    ensures var a, b, kind := AccessOf(InfoOf(v, t).regs, r), AccessOf(Listed(v), r), t.classify(v.mnemonic, true);
            && (Writes(a) <==> WritesBack(v.ops[m], r) || DataWritten(v.ops, kind, m, r) || Writes(b))
            && (Reads(a) <==> Forms(v.ops[m], r) || DataRead(v.ops, kind, m, r) || Reads(b))
  {
    ReportTells(v, t, r);
    MemoryFormIs(v, t, m);
    var f := FormOf(v, t);
    OneMoreUse(AddressUse(v.ops[m], MemAccess(f.kind)), UsesFrom(f, v.ops, 0), r);
    DataSlotsWrite(f, v.ops, r);
    DataSlotsRead(f, v.ops, r);
  }

  function EntryAt(op: Operand, access: OpAccess): UsedMemory
    requires op.MemImm? || op.MemExt? || op.SveMem?
  {
    if op.MemImm? then UsedMemory(op.base, NoRegister, op.disp, access)
    else if op.MemExt? then UsedMemory(op.base, op.index, 0, access)
    else UsedMemory(op.base, op.index, op.disp32, access)
  }

  lemma AccessIs(kind: MemKind)
    requires kind != NotMem
    ensures MemAccess(kind) == if kind.Load? || kind.Prefetch? then Read
                               else if kind.Store? || kind.StoreExclusive? then Write
                               else ReadWrite
  {
  }

  // The memory entry of such an instruction: where it goes, and whether it is read or written.
  lemma MemoryEntry(v: Insn, t: Tables, m: nat)
    requires HasAddress(v, m) && t.classify(v.mnemonic, true) != NotMem
    ensures var kind := t.classify(v.mnemonic, true);
            InfoOf(v, t).mem == [EntryAt(v.ops[m], if kind.Load? || kind.Prefetch? then Read
                                                   else if kind.Store? || kind.StoreExclusive? then Write
                                                   else ReadWrite)]
  {
    MemoryFormIs(v, t, m);
    AccessIs(t.classify(v.mnemonic, true));
    AddressFormMemory(v.ops, FormOf(v, t));
    assert MemoryOf(v.ops[m], MemAccess(t.classify(v.mnemonic, true))) ==
           Some(EntryAt(v.ops[m], MemAccess(t.classify(v.mnemonic, true))));
  }

  // --- The copy and set family. ---

  predicate IsCopyOperand(op: Operand) { op.RegBang? || (op.MemImm? && op.mode.PreNoOffset?) }

  // The registers with an exclamation mark and the addresses in brackets with one are
  // read and written, everything else is read.
  ghost predicate MopsWritten(ops: seq<Operand>, r: Register) {
    exists i :: 0 <= i < |ops| && IsCopyOperand(ops[i]) && (Carries(ops[i], r) || Forms(ops[i], r))
  }

  ghost predicate MopsRead(ops: seq<Operand>, r: Register) {
    exists i :: && 0 <= i < |ops|
                && (Carries(ops[i], r) || Picks(ops[i], r) || (IsCopyOperand(ops[i]) && Forms(ops[i], r)))
  }

  lemma AddressHoldsNothing(op: Operand, r: Register)
    ensures op.MemImm? || op.MemExt? || op.SveMem? ==> !Carries(op, r) && !Picks(op, r)
    ensures !op.MemImm? && !op.MemExt? && !op.SveMem? ==> !Forms(op, r) && !WritesBack(op, r)
  {
  }

  lemma MopsUseIs(op: Operand)
    ensures MopsUse(op) == if op.MemImm? && op.mode.PreNoOffset? then AddressUse(op, ReadWrite)
                           else DataUse(op, if op.RegBang? then ReadWrite else Read)
  {
  }

  lemma MopsSlot(op: Operand, i: nat, r: Register)
    ensures var u := SlotUse(Mops, op, i);
            && u.Some?
            && (UseWrites(u.value, r) <==> IsCopyOperand(op) && (Carries(op, r) || Forms(op, r)))
            && (UseReads(u.value, r) <==>
                  Carries(op, r) || Picks(op, r) || (IsCopyOperand(op) && Forms(op, r)))
  {
    MopsUseIs(op);
    AddressHoldsNothing(op, r);
  }

  lemma MopsSlots(ops: seq<Operand>, r: Register)
    ensures SomeUseWrites(UsesFrom(Mops, ops, 0), r) <==> MopsWritten(ops, r)
    ensures SomeUseReads(UsesFrom(Mops, ops, 0), r) <==> MopsRead(ops, r)
  {
    forall u | u in UsesFrom(Mops, ops, 0)
      ensures (UseWrites(u, r) ==> MopsWritten(ops, r)) && (UseReads(u, r) ==> MopsRead(ops, r))
    {
      var k := SlotsAreUsed(Mops, ops, u);
      MopsSlot(ops[k], k, r);
    }
    forall i | 0 <= i < |ops|
      ensures SlotUse(Mops, ops[i], i).Some? && SlotUse(Mops, ops[i], i).value in UsesFrom(Mops, ops, 0)
    {
      UsesFromHas(Mops, ops, 0, i);
    }
    forall i | 0 <= i < |ops| { MopsSlot(ops[i], i, r); }
  }

  lemma MopsReport(v: Insn, t: Tables, r: Register)
    requires !NoMops(v) && Fits(v, t) && !r.NoRegister?
    ensures var a, b := AccessOf(InfoOf(v, t).regs, r), AccessOf(Listed(v), r);
            && (Writes(a) <==> MopsWritten(v.ops, r) || Writes(b))
            && (Reads(a) <==> MopsRead(v.ops, r) || Reads(b))
  {
    ReportTells(v, t, r);
    MopsSlots(v.ops, r);
  }

  // --- Control transfers, and data processing. ---

  ghost predicate NoAddress(v: Insn) {
    NoMops(v) && forall j | 0 <= j < |v.ops| :: !v.ops[j].MemImm? && !v.ops[j].MemExt? && !v.ops[j].SveMem?
  }

  ghost predicate SomeMerges(v: Insn) {
    exists i :: 0 <= i < |v.ops| && v.ops[i].Reg? && v.ops[i].deco.pred == Some(Merging)
  }

  lemma NoAddressForm(v: Insn, t: Tables)
    requires NoAddress(v)
    ensures FormOf(v, t) == if v.FlowControlOf() != Next then Transfer
                            else Data(t.noDest(v.mnemonic), t.accumulates(v.mnemonic) || SomeMerges(v))
  {
  }

  ghost predicate SomeCarries(ops: seq<Operand>, r: Register) {
    exists i :: 0 <= i < |ops| && (Carries(ops[i], r) || Picks(ops[i], r))
  }

  lemma TransferSlots(ops: seq<Operand>, r: Register)
    ensures !SomeUseWrites(UsesFrom(Transfer, ops, 0), r)
    ensures SomeUseReads(UsesFrom(Transfer, ops, 0), r) <==> SomeCarries(ops, r)
  {
    forall u | u in UsesFrom(Transfer, ops, 0)
      ensures !UseWrites(u, r) && (UseReads(u, r) ==> SomeCarries(ops, r))
    {
      var k := SlotsAreUsed(Transfer, ops, u);
    }
    forall i | 0 <= i < |ops|
      ensures DataUse(ops[i], Read) in UsesFrom(Transfer, ops, 0)
    {
      UsesFromHas(Transfer, ops, 0, i);
    }
    forall i | 0 <= i < |ops|
      ensures UseReads(DataUse(ops[i], Read), r) <==> Carries(ops[i], r) || Picks(ops[i], r)
    {
    }
  }

  // A control transfer reads the registers its operands name and writes none of them.
  lemma TransferReport(v: Insn, t: Tables, r: Register)
    requires NoAddress(v) && v.FlowControlOf() != Next && Fits(v, t) && !r.NoRegister?
    ensures var a, b := AccessOf(InfoOf(v, t).regs, r), AccessOf(Listed(v), r);
            (Writes(a) <==> Writes(b)) && (Reads(a) <==> SomeCarries(v.ops, r) || Reads(b))
  {
    ReportTells(v, t, r);
    NoAddressForm(v, t);
    TransferSlots(v.ops, r);
  }

  // A data-processing instruction reads what its operands name, but for the destination
  // in slot 0: that is written, and read too where it is accumulated into or merged into.
  ghost predicate DataFormRead(ops: seq<Operand>, noDest: bool, accum: bool, r: Register) {
    exists i :: && 0 <= i < |ops|
                && (Picks(ops[i], r) || (Carries(ops[i], r) && (i > 0 || noDest || accum)))
  }

  predicate DataFormWritten(ops: seq<Operand>, noDest: bool, r: Register) {
    !noDest && ops != [] && Carries(ops[0], r)
  }

  lemma DataFormUseIs(op: Operand, i: nat, noDest: bool, accum: bool)
    requires !IsMemory(op)
    ensures DataFormUse(op, noDest, accum, i) ==
            DataUse(op, if noDest || i > 0 then Read else if accum then ReadWrite else Write)
  {
  }

  lemma DataFormSlot(op: Operand, i: nat, noDest: bool, accum: bool, r: Register)
    requires !IsMemory(op)
    ensures var u := SlotUse(Data(noDest, accum), op, i);
            && u.Some?
            && (UseWrites(u.value, r) <==> !noDest && i == 0 && Carries(op, r))
            && (UseReads(u.value, r) <==> Picks(op, r) || (Carries(op, r) && (i > 0 || noDest || accum)))
  {
    DataFormUseIs(op, i, noDest, accum);
  }

  lemma DataFormWrites(ops: seq<Operand>, noDest: bool, accum: bool, r: Register)
    requires forall i | 0 <= i < |ops| :: !IsMemory(ops[i])
    ensures SomeUseWrites(UsesFrom(Data(noDest, accum), ops, 0), r) <==> DataFormWritten(ops, noDest, r)
  {
    var f := Data(noDest, accum);
    if SomeUseWrites(UsesFrom(f, ops, 0), r) {
      var u :| u in UsesFrom(f, ops, 0) && UseWrites(u, r);
      var k := SlotsAreUsed(f, ops, u);
      DataFormSlot(ops[k], k, noDest, accum, r);
    }
    if DataFormWritten(ops, noDest, r) {
      DataFormSlot(ops[0], 0, noDest, accum, r);
      UsesFromHas(f, ops, 0, 0);
    }
  }

  lemma DataFormReadsThese(ops: seq<Operand>, noDest: bool, accum: bool, r: Register, i: nat)
    requires i < |ops| && !IsMemory(ops[i])
    requires Picks(ops[i], r) || (Carries(ops[i], r) && (i > 0 || noDest || accum))
    ensures SomeUseReads(UsesFrom(Data(noDest, accum), ops, 0), r)
  {
    DataFormSlot(ops[i], i, noDest, accum, r);
    UsesFromHas(Data(noDest, accum), ops, 0, i);
  }

  lemma DataFormReads(ops: seq<Operand>, noDest: bool, accum: bool, r: Register)
    requires forall i | 0 <= i < |ops| :: !IsMemory(ops[i])
    ensures SomeUseReads(UsesFrom(Data(noDest, accum), ops, 0), r) <==> DataFormRead(ops, noDest, accum, r)
  {
    var f := Data(noDest, accum);
    if DataFormRead(ops, noDest, accum, r) {
      var i :| 0 <= i < |ops| && (Picks(ops[i], r) || (Carries(ops[i], r) && (i > 0 || noDest || accum)));
      DataFormReadsThese(ops, noDest, accum, r, i);
    } else if SomeUseReads(UsesFrom(f, ops, 0), r) {
      var u :| u in UsesFrom(f, ops, 0) && UseReads(u, r);
      var k := SlotsAreUsed(f, ops, u);
      DataFormSlot(ops[k], k, noDest, accum, r);
    }
  }

  lemma DataReport(v: Insn, t: Tables, r: Register)
    requires NoAddress(v) && v.FlowControlOf() == Next && Fits(v, t) && !r.NoRegister?
    ensures var a, b := AccessOf(InfoOf(v, t).regs, r), AccessOf(Listed(v), r);
            var noDest, accum := t.noDest(v.mnemonic), t.accumulates(v.mnemonic) || SomeMerges(v);
            && (Writes(a) <==> DataFormWritten(v.ops, noDest, r) || Writes(b))
            && (Reads(a) <==> DataFormRead(v.ops, noDest, accum, r) || Reads(b))
  {
    ReportTells(v, t, r);
    NoAddressForm(v, t);
    var noDest, accum := t.noDest(v.mnemonic), t.accumulates(v.mnemonic) || SomeMerges(v);
    DataFormWrites(v.ops, noDest, accum, r);
    DataFormReads(v.ops, noDest, accum, r);
  }

  // --- The memory of the other two forms. ---

  predicate IsAddress(op: Operand) { op.MemImm? || op.MemExt? || op.SveMem? }

  // The addresses from operand i on: those of the copy and set family, or all of them.
  function Addresses(ops: seq<Operand>, i: nat, copies: bool): seq<UsedMemory>
    requires i <= |ops|
    decreases |ops| - i
  {
    if i == |ops| then []
    else if copies && ops[i].MemImm? && ops[i].mode.PreNoOffset? then
      [EntryAt(ops[i], ReadWrite)] + Addresses(ops, i + 1, copies)
    else if !copies && IsAddress(ops[i]) then [EntryAt(ops[i], Read)] + Addresses(ops, i + 1, copies)
    else Addresses(ops, i + 1, copies)
  }

  lemma {:induction false} AddressesAre(f: Form, ops: seq<Operand>, i: nat)
    requires i <= |ops| && (f.Mops? || f.Data?)
    ensures MemoriesOf(UsesFrom(f, ops, i)) == Addresses(ops, i, f.Mops?)
    decreases |ops| - i
  {
    if i < |ops| {
      var u, rest := SlotUse(f, ops[i], i), UsesFrom(f, ops, i + 1);
      AddressesAre(f, ops, i + 1);
      assert ([u.value] + rest)[1..] == rest;
      SlotMemory(f, ops[i], i);
    }
  }

  lemma SlotMemory(f: Form, op: Operand, i: nat)
    requires f.Mops? || f.Data?
    ensures SlotUse(f, op, i).Some?
    ensures MemOfUse(SlotUse(f, op, i).value) ==
            if f.Mops? && op.MemImm? && op.mode.PreNoOffset? then Some(EntryAt(op, ReadWrite))
            else if f.Data? && IsAddress(op) then Some(EntryAt(op, Read))
            else None
  {
  }

  // A copy or set reads and writes at its addresses. Where the mnemonic tables call an
  // instruction with an address no memory access, its addresses are reported as read.
  lemma OtherMemory(v: Insn, t: Tables)
    requires !NoMops(v) || (t.classify(v.mnemonic, MemSlot(v.ops) < |v.ops|) == NotMem && v.FlowControlOf() == Next)
    ensures InfoOf(v, t).mem == FirstTwo(Addresses(v.ops, 0, !NoMops(v)))
  {
    MemoryIsFirstTwo(v, t);
    AddressesAre(FormOf(v, t), v.ops, 0);
  }
}
