/** `src/info.rs`: the registers and memory an instruction accesses, gathered from its
    operands by form and from the implicit list. Like the implicit analysis it only
    reads the instruction. */
module Info {
  import opened Wrappers
  import opened Ints
  import opened Isa
  import opened Instructions
  import opened Access
  import opened Implicit

  const MAX_USED_REGS := 20
  const MAX_USED_MEM := 2

  datatype UsedMemory = UsedMemory(base: Register, index: Register, offset: I64, access: OpAccess)

  datatype MemKind = NotMem | Load | Store | StoreExclusive | AtomicRmw | AtomicStore | CompareSwap | Prefetch

  // The mnemonic tables: classify_mem, accumulates_into_dest, has_no_dest_register.
  datatype Tables = Tables(classify: (Mnemonic, bool) -> MemKind, accumulates: Mnemonic -> bool,
                           noDest: Mnemonic -> bool)

  // classify_mem ends by calling whatever carries a memory operand a load.
  ghost predicate Total(t: Tables) { forall m :: t.classify(m, true) != NotMem }

  // --- One operand. ---

  predicate IsMemory(op: Operand) { op.MemImm? || op.MemExt? || op.SveMem? }

  function AllWith(rs: seq<Register>, access: OpAccess): (adds: seq<UsedRegister>)
    ensures |adds| == |rs|
  {
    if rs == [] then [] else [UsedRegister(rs[0], access)] + AllWith(rs[1..], access)
  }

  // The vector registers n, n + stride, ..., numbered modulo 32.
  function Group(n: bv32, count: nat, stride: bv32, access: OpAccess): (adds: seq<UsedRegister>)
    ensures |adds| == count
    decreases count
  {
    if count == 0 then [] else [UsedRegister(SveRegister(n), access)] + Group(n + stride, count - 1, stride, access)
  }

  // add_operand_regs.
  function DataAdds(op: Operand, access: OpAccess): seq<UsedRegister> {
    if op.Reg? || op.RegBang? || op.PredCounter? then [UsedRegister(op.reg, access)]
    else if op.MultiReg? then AllWith(op.regs, access)
    else if op.SveVecGroup? then Group(Number(op.first), op.groupCount, op.stride, access)
    else if op.RegPair? || op.IndexedElement? then PairAdds(op, access)
    else ZaAdds(op, access)
  }

  function PairAdds(op: Operand, access: OpAccess): seq<UsedRegister> {
    if op.RegPair? then [UsedRegister(op.first, access), UsedRegister(op.second, access)]
    else if op.IndexedElement? then [UsedRegister(op.reg, access), UsedRegister(op.index, Read)]
    else []
  }

  // The operands that name ZA or the lookup table, the former with a select register.
  function ZaAdds(op: Operand, access: OpAccess): seq<UsedRegister> {
    if op.SmeTileSlice? || op.SmeZaSlice? then [UsedRegister(op.sel, Read), UsedRegister(Za, access)]
    else if ZaRegister(op).NoRegister? then []
    else [UsedRegister(ZaRegister(op), access)]
  }

  function ZaRegister(op: Operand): Register {
    if op.SmeTile? then Za
    else if op.SmeZaMask? then (if op.zt0 then Zt0 else Za)
    else if op.SmeZt0Index? then Zt0
    else NoRegister
  }

  predicate IsWriteback(mode: MemIndexMode) { !mode.Offset? }

  // The registers add_memory_operand adds.
  function AddressAdds(op: Operand): seq<UsedRegister> {
    if op.MemImm? then [UsedRegister(op.base, if IsWriteback(op.mode) then ReadWrite else Read)]
    else if op.MemExt? || op.SveMem? then [UsedRegister(op.base, Read), UsedRegister(op.index, Read)]
    else []
  }

  function MemoryOf(op: Operand, access: OpAccess): Option<UsedMemory> {
    if op.MemImm? then Some(UsedMemory(op.base, NoRegister, op.disp, access))
    else if op.MemExt? then Some(UsedMemory(op.base, op.index, 0, access))
    else if op.SveMem? then Some(UsedMemory(op.base, op.index, op.disp32, access))
    else None
  }

  // How instruction_info uses an operand: for its data, or for the address it forms.
  datatype Use = DataUse(op: Operand, access: OpAccess) | AddressUse(op: Operand, access: OpAccess)

  function RegsOfUse(u: Use): seq<UsedRegister> {
    match u
    case DataUse(op, access) => DataAdds(op, access)
    case AddressUse(op, _) => AddressAdds(op)
  }

  function MemOfUse(u: Use): Option<UsedMemory> {
    match u
    case DataUse(_, _) => None
    case AddressUse(op, access) => MemoryOf(op, access)
  }

  // --- The forms. ---

  predicate IsMopsOperand(op: Operand) {
    op.RegBang? || (op.MemImm? && op.mode.PreNoOffset?)
  }

  function MopsUse(op: Operand): Use {
    if op.MemImm? && op.mode.PreNoOffset? then AddressUse(op, ReadWrite)
    else if op.RegBang? then DataUse(op, ReadWrite)
    else DataUse(op, Read)
  }

  function MemAccess(kind: MemKind): OpAccess {
    match kind
    case Load | Prefetch | NotMem => Read
    case Store | StoreExclusive => Write
    case AtomicRmw | AtomicStore | CompareSwap => ReadWrite
  }

  predicate IsPredicateOperand(op: Operand) {
    (op.Reg? && Class(op.reg) == RegClass.Predicate) || op.PredCounter?
  }

  // The data operand in slot i of a memory form whose address is in memSlot.
  function MemFormUse(op: Operand, kind: MemKind, memSlot: nat, i: nat): Use {
    if i > 0 && IsPredicateOperand(op) then DataUse(op, Read)
    else
      DataUse(op, match kind
                  case Load => Write
                  case Store | AtomicStore | Prefetch | NotMem => Read
                  case StoreExclusive => if i == 0 then Write else Read
                  case AtomicRmw => if i + 1 == memSlot then Write else Read
                  case CompareSwap => if i < memSlot / 2 then ReadWrite else Read)
  }

  predicate IsMerging(op: Operand) { op.Reg? && op.deco.pred == Some(Merging) }

  function DataFormUse(op: Operand, noDest: bool, accum: bool, i: nat): Use {
    if IsMemory(op) then AddressUse(op, Read)
    else if noDest || i > 0 then DataUse(op, Read)
    else DataUse(op, if accum then ReadWrite else Write)
  }

  predicate SomeMops(ops: seq<Operand>) { exists i :: 0 <= i < |ops| && IsMopsOperand(ops[i]) }

  predicate SomeMerging(ops: seq<Operand>) { exists i :: 0 <= i < |ops| && IsMerging(ops[i]) }

  // The first memory operand, or the number of operands.
  function MemSlot(ops: seq<Operand>): (i: nat)
    ensures i <= |ops| && (i < |ops| ==> IsMemory(ops[i]))
    ensures forall j | 0 <= j < i :: !IsMemory(ops[j])
  {
    if ops == [] || IsMemory(ops[0]) then 0 else 1 + MemSlot(ops[1..])
  }

  datatype Form = Mops | Memory(kind: MemKind, slot: nat) | Transfer | Data(noDest: bool, accum: bool)

  function FormOf(v: Insn, t: Tables): Form {
    var slot := MemSlot(v.ops);
    var kind := t.classify(v.mnemonic, slot < |v.ops|);
    if SomeMops(v.ops) then Mops
    else if slot < |v.ops| && kind != NotMem then Memory(kind, slot)
    else if v.FlowControlOf() != Next then Transfer
    else Data(t.noDest(v.mnemonic), t.accumulates(v.mnemonic) || SomeMerging(v.ops))
  }

  // What becomes of operand i; the address operand of a memory form was used already.
  function SlotUse(f: Form, op: Operand, i: nat): Option<Use> {
    match f
    case Mops => Some(MopsUse(op))
    case Memory(kind, slot) => if i == slot then None else Some(MemFormUse(op, kind, slot, i))
    case Transfer => Some(DataUse(op, Read))
    case Data(noDest, accum) => Some(DataFormUse(op, noDest, accum, i))
  }

  function UsesFrom(f: Form, ops: seq<Operand>, i: nat): seq<Use>
    requires i <= |ops|
    decreases |ops| - i
  {
    if i == |ops| then []
    else (match SlotUse(f, ops[i], i) case None => [] case Some(u) => [u]) + UsesFrom(f, ops, i + 1)
  }

  function Uses(v: Insn, t: Tables): seq<Use> {
    match FormOf(v, t)
    case Memory(kind, slot) =>
      (if slot < |v.ops| then [AddressUse(v.ops[slot], MemAccess(kind))] else [])
      + UsesFrom(Memory(kind, slot), v.ops, 0)
    case f => UsesFrom(f, v.ops, 0)
  }

  // --- The accumulator. ---

  datatype Lists = Lists(regs: seq<UsedRegister>, mem: seq<UsedMemory>)

  function AddMem(mem: seq<UsedMemory>, m: Option<UsedMemory>): seq<UsedMemory> {
    if m.Some? && |mem| < MAX_USED_MEM then mem + [m.value] else mem
  }

  function Took(l: Lists, u: Use): Lists {
    Lists(AddAll(l.regs, MAX_USED_REGS, RegsOfUse(u)), AddMem(l.mem, MemOfUse(u)))
  }

  function TookAll(l: Lists, uses: seq<Use>): Lists
    decreases |uses|
  {
    if uses == [] then l else TookAll(Took(l, uses[0]), uses[1..])
  }

  class InfoBuilder {
    const regs: AccessList
    const mem: array<UsedMemory>
    var memCount: nat

    ghost predicate Valid()
      reads this, regs
    {
      regs.Valid() && regs.regs.Length == MAX_USED_REGS && mem.Length == MAX_USED_MEM && memCount <= MAX_USED_MEM
    }

    ghost function State(): Lists
      requires Valid()
      reads this, regs, regs.regs, mem
    {
      Lists(regs.Entries(), mem[..memCount])
    }

    constructor ()
      ensures Valid() && State() == Lists([], [])
      ensures fresh(regs) && fresh(regs.regs) && fresh(mem)
    {
      regs := new AccessList(MAX_USED_REGS);
      mem := new UsedMemory[MAX_USED_MEM](_ => UsedMemory(NoRegister, NoRegister, 0, NoAccess));
      memCount := 0;
    }

    method AddMemory(m: UsedMemory)
      requires Valid()
      modifies this, mem
      ensures Valid()
      ensures State() == Lists(old(State()).regs, AddMem(old(State()).mem, Some(m)))
    {
      if memCount < MAX_USED_MEM {
        mem[memCount] := m;
        memCount := memCount + 1;
        assert mem[..memCount] == old(mem[..memCount]) + [m];
      }
    }

    // add_operand_regs.
    method AddOperandRegs(op: Operand, access: OpAccess)
      requires Valid()
      modifies regs, regs.regs
      ensures Valid()
      ensures State() == Lists(AddAll(old(State()).regs, MAX_USED_REGS, DataAdds(op, access)), old(State()).mem)
    {
      if op.MultiReg? {
        AddEach(op.regs, access);
      } else if op.SveVecGroup? {
        var first := Number(op.first);
        AddGroup(first, op.groupCount, op.stride, access);
      } else if op.Reg? || op.RegBang? || op.PredCounter? {
        AddOne(op.reg, access);
      } else if op.RegPair? || op.IndexedElement? {
        AddPairRegs(op, access);
      } else {
        AddSmeRegs(op, access);
      }
    }

    method AddPairRegs(op: Operand, access: OpAccess)
      requires Valid() && (op.RegPair? || op.IndexedElement?)
      modifies regs, regs.regs
      ensures Valid()
      ensures State() == Lists(AddAll(old(State()).regs, MAX_USED_REGS, PairAdds(op, access)), old(State()).mem)
    {
      if op.RegPair? {
        AddPair(op.first, access, op.second, access);
      } else {
        AddPair(op.reg, access, op.index, Read);
      }
    }

    method AddSmeRegs(op: Operand, access: OpAccess)
      requires Valid()
      modifies regs, regs.regs
      ensures Valid()
      ensures State() == Lists(AddAll(old(State()).regs, MAX_USED_REGS, ZaAdds(op, access)), old(State()).mem)
    {
      if op.SmeTileSlice? || op.SmeZaSlice? {
        AddPair(op.sel, Read, Za, access);
      } else if op.SmeTile? || op.SmeZaMask? || op.SmeZt0Index? {
        AddOne(ZaRegister(op), access);
      }
    }

    method AddOne(r: Register, a: OpAccess)
      requires Valid()
      modifies regs, regs.regs
      ensures Valid()
      ensures State() == Lists(AddAll(old(State()).regs, MAX_USED_REGS, [UsedRegister(r, a)]), old(State()).mem)
    {
      AddAllOne(regs.Entries(), MAX_USED_REGS, UsedRegister(r, a));
      regs.Add(r, a);
    }

    method AddPair(r: Register, a: OpAccess, s: Register, b: OpAccess)
      requires Valid()
      modifies regs, regs.regs
      ensures Valid()
      ensures State() == Lists(AddAll(old(State()).regs, MAX_USED_REGS, [UsedRegister(r, a), UsedRegister(s, b)]),
                               old(State()).mem)
    {
      AddAllTwo(regs.Entries(), MAX_USED_REGS, UsedRegister(r, a), UsedRegister(s, b));
      regs.Add(r, a);
      regs.Add(s, b);
    }

    method AddEach(rs: seq<Register>, access: OpAccess)
      requires Valid()
      modifies regs, regs.regs
      ensures Valid()
      ensures State() == Lists(AddAll(old(State()).regs, MAX_USED_REGS, AllWith(rs, access)), old(State()).mem)
    {
      for i := 0 to |rs|
        invariant Valid() && State().mem == old(State()).mem
        invariant AddAll(State().regs, MAX_USED_REGS, AllWith(rs[i..], access)) ==
                  AddAll(old(State()).regs, MAX_USED_REGS, AllWith(rs, access))
      {
        regs.Add(rs[i], access);
      }
    }

    // n runs through first, first + stride, ... as the source's product does.
    method AddGroup(first: bv32, count: nat, stride: bv32, access: OpAccess)
      requires Valid()
      modifies regs, regs.regs
      ensures Valid()
      ensures State() ==
              Lists(AddAll(old(State()).regs, MAX_USED_REGS, Group(first, count, stride, access)), old(State()).mem)
    {
      var n := first;
      for i := 0 to count
        invariant Valid() && State().mem == old(State()).mem
        invariant AddAll(State().regs, MAX_USED_REGS, Group(n, count - i, stride, access)) ==
                  AddAll(old(State()).regs, MAX_USED_REGS, Group(first, count, stride, access))
      {
        GroupStep(State().regs, n, count - i, stride, access);
        regs.Add(SveRegister(n), access);
        n := n + stride;
      }
    }

    // add_memory_operand.
    method AddMemoryOperand(op: Operand, access: OpAccess)
      requires Valid()
      modifies this, regs, regs.regs, mem
      ensures Valid()
      ensures State().regs == AddAll(old(State()).regs, MAX_USED_REGS, AddressAdds(op))
      ensures State().mem == AddMem(old(State()).mem, MemoryOf(op, access))
    {
      if op.MemImm? {
        AddOne(op.base, if IsWriteback(op.mode) then ReadWrite else Read);
        AddMemory(UsedMemory(op.base, NoRegister, op.disp, access));
      } else if op.MemExt? {
        AddPair(op.base, Read, op.index, Read);
        AddMemory(UsedMemory(op.base, op.index, 0, access));
      } else if op.SveMem? {
        AddPair(op.base, Read, op.index, Read);
        AddMemory(UsedMemory(op.base, op.index, op.disp32, access));
      }
    }

    method Take(u: Use)
      requires Valid()
      modifies this, regs, regs.regs, mem
      ensures Valid()
      ensures State() == Took(old(State()), u)
    {
      match u
      case DataUse(op, access) => AddOperandRegs(op, access);
      case AddressUse(op, access) => AddMemoryOperand(op, access);
    }

    // The loop over the operands that every form runs.
    method TakeOperands(f: Form, ops: seq<Operand>)
      requires Valid()
      modifies this, regs, regs.regs, mem
      ensures Valid()
      ensures State() == TookAll(old(State()), UsesFrom(f, ops, 0))
    {
      for i := 0 to |ops|
        invariant Valid()
        invariant TookAll(State(), UsesFrom(f, ops, i)) == TookAll(old(State()), UsesFrom(f, ops, 0))
      {
        TookStep(State(), f, ops, i);
        TakeSlot(f, ops[i], i);
      }
    }

    method TakeSlot(f: Form, op: Operand, i: nat)
      requires Valid()
      modifies this, regs, regs.regs, mem
      ensures Valid()
      ensures State() == AfterSlot(old(State()), f, op, i)
    {
      var u := SlotUse(f, op, i);
      if u.Some? {
        Take(u.value);
      }
    }
  }

  function AfterSlot(l: Lists, f: Form, op: Operand, i: nat): Lists {
    match SlotUse(f, op, i)
    case None => l
    case Some(u) => Took(l, u)
  }

  lemma GroupStep(es: seq<UsedRegister>, n: bv32, count: nat, stride: bv32, access: OpAccess)
    requires count > 0
    ensures AddAll(es, MAX_USED_REGS, Group(n, count, stride, access)) ==
            AddAll(AddTo(es, MAX_USED_REGS, UsedRegister(SveRegister(n), access)), MAX_USED_REGS,
                   Group(n + stride, count - 1, stride, access))
  {
    var u, rest := UsedRegister(SveRegister(n), access), Group(n + stride, count - 1, stride, access);
    assert ([u] + rest)[1..] == rest;
  }

  lemma TookStep(l: Lists, f: Form, ops: seq<Operand>, i: nat)
    requires i < |ops|
    ensures TookAll(l, UsesFrom(f, ops, i)) ==
            TookAll(AfterSlot(l, f, ops[i], i), UsesFrom(f, ops, i + 1))
  {
    var u, rest := SlotUse(f, ops[i], i), UsesFrom(f, ops, i + 1);
    if u.Some? {
      assert ([u.value] + rest)[1..] == rest;
    } else {
      assert [] + rest == rest;
    }
  }

  method FindMemory(ops: seq<Operand>) returns (slot: nat)
    ensures slot == MemSlot(ops)
  {
    slot := 0;
    while slot < |ops|
      invariant slot <= |ops| && forall j | 0 <= j < slot :: !IsMemory(ops[j])
    {
      if IsMemory(ops[slot]) {
        return;
      }
      slot := slot + 1;
    }
  }

  // is_mops_rmw.
  method IsMopsRmw(ops: seq<Operand>) returns (found: bool)
    ensures found == SomeMops(ops)
  {
    for i := 0 to |ops|
      invariant forall j | 0 <= j < i :: !IsMopsOperand(ops[j])
    {
      if IsMopsOperand(ops[i]) {
        return true;
      }
    }
    return false;
  }

  method Classify(v: Insn, t: Tables) returns (f: Form)
    ensures f == FormOf(v, t)
  {
    var slot := FindMemory(v.ops);
    var kind := t.classify(v.mnemonic, slot < |v.ops|);
    var mops := IsMopsRmw(v.ops);
    if mops {
      f := Mops;
    } else if slot < |v.ops| && kind != NotMem {
      f := Memory(kind, slot);
    } else if v.FlowControlOf() != Next {
      f := Transfer;
    } else {
      f := Data(t.noDest(v.mnemonic), t.accumulates(v.mnemonic) || SomeMerging(v.ops));
    }
  }

  datatype InstructionInfo = InstructionInfo(regs: seq<UsedRegister>, mem: seq<UsedMemory>, flow: FlowControl,
                                             flagsRead: bool, flagsWritten: bool)

  // What the operands contribute.
  function Explicit(v: Insn, t: Tables): Lists { TookAll(Lists([], []), Uses(v, t)) }

  function InfoOf(v: Insn, t: Tables): InstructionInfo {
    InstructionInfo(AddAll(Explicit(v, t).regs, MAX_USED_REGS, Listed(v)), Explicit(v, t).mem, v.FlowControlOf(),
                    ReadsNzcv(v), WritesFlags(v))
  }

  method Gather(v: Insn, t: Tables) returns (b: InfoBuilder)
    ensures fresh(b) && fresh(b.regs) && fresh(b.regs.regs) && fresh(b.mem)
    ensures b.Valid() && b.State() == Explicit(v, t)
  {
    b := new InfoBuilder();
    var f := Classify(v, t);
    if f.Memory? && f.slot < |v.ops| {
      var u := AddressUse(v.ops[f.slot], MemAccess(f.kind));
      ghost var rest := UsesFrom(f, v.ops, 0);
      assert ([u] + rest)[1..] == rest;
      b.Take(u);
    }
    b.TakeOperands(f, v.ops);
  }

  method FoldImplicit(b: InfoBuilder, implicit: AccessList)
    requires b.Valid() && implicit.Valid() && implicit != b.regs && implicit.regs != b.regs.regs
    modifies b.regs, b.regs.regs
    ensures b.Valid()
    ensures b.State() ==
            Lists(AddAll(old(b.State()).regs, MAX_USED_REGS, old(implicit.Entries())), old(b.State()).mem)
  {
    ghost var listed := implicit.Entries();
    for i := 0 to implicit.count
      invariant b.Valid() && b.State().mem == old(b.State()).mem
      invariant implicit.Valid() && implicit.Entries() == listed
      invariant AddAll(b.State().regs, MAX_USED_REGS, listed[i..]) == AddAll(old(b.State()).regs, MAX_USED_REGS, listed)
    {
      assert implicit.regs[i] == listed[i];
      assert listed[i..][1..] == listed[i + 1..];
      b.regs.Add(implicit.regs[i].register, implicit.regs[i].access);
    }
    assert listed[|listed|..] == [];
  }

  method ComputeInfo(v: Insn, t: Tables) returns (info: InstructionInfo)
    ensures info == InfoOf(v, t)
  {
    var b := Gather(v, t);
    var implicit := ImplicitRegisters(v);
    FoldImplicit(b, implicit);
    info := InstructionInfo(b.regs.regs[..b.regs.count], b.mem[..b.memCount], v.FlowControlOf(), ReadsNzcv(v),
                            WritesFlags(v));
  }
}
