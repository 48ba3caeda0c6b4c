/** What the report of `instruction_info` says about an instruction, over every
    instruction value and every mnemonic table. */
module InfoLaws {
  import opened Wrappers
  import opened Isa
  import opened Instructions
  import opened Access
  import opened Implicit
  import opened Info
  import opened BranchSpec

  function RegsOf(uses: seq<Use>): seq<UsedRegister> {
    if uses == [] then [] else RegsOfUse(uses[0]) + RegsOf(uses[1..])
  }

  lemma {:induction false} TookRegs(l: Lists, uses: seq<Use>)
    ensures TookAll(l, uses).regs == AddAll(l.regs, MAX_USED_REGS, RegsOf(uses))
    decreases |uses|
  {
    if uses != [] {
      TookRegs(Took(l, uses[0]), uses[1..]);
      AddAllInParts(l.regs, MAX_USED_REGS, RegsOfUse(uses[0]), RegsOf(uses[1..]));
    }
  }

  // Every access the analysis attributes to an instruction, explicit and implicit.
  function AllAdds(v: Insn, t: Tables): seq<UsedRegister> {
    RegsOf(Uses(v, t)) + ImplicitAdds(v)
  }

  function Folded(v: Insn, t: Tables): seq<UsedRegister> {
    RegsOf(Uses(v, t)) + Listed(v)
  }

  lemma InfoIsFolded(v: Insn, t: Tables)
    ensures InfoOf(v, t).regs == AddAll([], MAX_USED_REGS, Folded(v, t))
  {
    TookRegs(Lists([], []), Uses(v, t));
    AddAllInParts([], MAX_USED_REGS, RegsOf(Uses(v, t)), Listed(v));
  }

  // An entry list joins to what it says.
  lemma EntriesJoin(es: seq<UsedRegister>, r: Register)
    requires DuplicateFree(es)
    ensures JoinOf(es, r) == AccessOf(es, r)
  {
    var i := IndexOf(es, r);
    IndexOfIsFirst(es, r);
    if i < |es| {
      assert forall j | 0 <= j < |es| && es[j].register == r :: j == i;
      JoinIncludes(es, es[i]);
      JoinIsLeast(es, r, es[i].access);
      MergeIsJoin(JoinOf(es, r), es[i].access, NoAccess);
    } else {
      JoinIsLeast(es, r, NoAccess);
    }
  }

  lemma FoldedJoins(v: Insn, t: Tables, r: Register)
    requires !r.NoRegister?
    ensures JoinOf(Folded(v, t), r) == JoinOf(AllAdds(v, t), r)
    ensures JoinOf(AllAdds(v, t), r) == Merge(JoinOf(RegsOf(Uses(v, t)), r), JoinOf(ImplicitAdds(v), r))
  {
    ImplicitIsComplete(v, r);
    EntriesJoin(Listed(v), r);
    JoinOfConcat(RegsOf(Uses(v, t)), Listed(v), r);
    JoinOfConcat(RegsOf(Uses(v, t)), ImplicitAdds(v), r);
  }

  lemma FoldedNames(v: Insn, t: Tables)
    ensures Named(Folded(v, t)) == Named(AllAdds(v, t))
  {
    forall r
      ensures r in Named(Folded(v, t)) <==> r in Named(AllAdds(v, t))
    {
      NamedIsJoined(Folded(v, t), r);
      NamedIsJoined(AllAdds(v, t), r);
      if !r.NoRegister? { FoldedJoins(v, t, r); }
    }
  }

  // Nothing has to be dropped.
  ghost predicate Fits(v: Insn, t: Tables) { |Named(AllAdds(v, t))| <= MAX_USED_REGS }

  // The report is duplicate-free and within its capacity; it names every accessed
  // register exactly when they fit; and then it gives each the join of its explicit
  // and implicit accesses.
  lemma InfoIsMap(v: Insn, t: Tables, r: Register)
    requires !r.NoRegister?
    ensures var es := InfoOf(v, t).regs;
            && DuplicateFree(es) && |es| <= MAX_USED_REGS
            && (RegistersIn(es) == Named(AllAdds(v, t)) <==> Fits(v, t))
            && (Fits(v, t) ==>
                  AccessOf(es, r) == Merge(JoinOf(RegsOf(Uses(v, t)), r), JoinOf(ImplicitAdds(v), r)))
  {
    InfoIsFolded(v, t);
    FoldedNames(v, t);
    FoldedJoins(v, t, r);
    ListRefinesMap(Folded(v, t), MAX_USED_REGS, r);
    if Fits(v, t) { ListIsMap(Folded(v, t), MAX_USED_REGS, r); }
  }

  // Every implicit access is part of what is reported for its register.
  lemma ImplicitIsIncluded(v: Insn, t: Tables, r: Register)
    requires Fits(v, t) && !r.NoRegister?
    ensures Includes(AccessOf(InfoOf(v, t).regs, r), AccessOf(Listed(v), r))
  {
    InfoIsMap(v, t, r);
    ImplicitIsComplete(v, r);
    MergeIsJoin(JoinOf(RegsOf(Uses(v, t)), r), JoinOf(ImplicitAdds(v), r), NoAccess);
  }

  // --- When everything fits. ---

  // At most two registers, as of every operand but the vector lists of three or more.
  predicate Slim(op: Operand) {
    (op.MultiReg? ==> |op.regs| <= 2) && (op.SveVecGroup? ==> op.groupCount <= 2)
  }

  predicate AllSlim(uses: seq<Use>) { forall u | u in uses :: Slim(u.op) }

  lemma SlimUse(u: Use)
    requires Slim(u.op)
    ensures |RegsOfUse(u)| <= 2
  {
  }

  lemma {:induction false} SlimUses(uses: seq<Use>)
    requires AllSlim(uses)
    ensures |RegsOf(uses)| <= 2 * |uses|
  {
    if uses != [] {
      assert uses[0] in uses && forall u | u in uses[1..] :: u in uses;
      SlimUse(uses[0]);
      SlimUses(uses[1..]);
    }
  }

  lemma SlotUseOf(f: Form, op: Operand, i: nat)
    ensures var u := SlotUse(f, op, i);
            && (u.None? <==> f.Memory? && i == f.slot)
            && (u.Some? ==> u.value.op == op && Unconditional(u.value.access) && !u.value.access.NoAccess?)
  {
  }

  // What every use taken from the operands is.
  ghost predicate OfOperands(uses: seq<Use>, ops: seq<Operand>) {
    forall u | u in uses :: u.op in ops && Unconditional(u.access) && !u.access.NoAccess?
  }

  lemma {:induction false} UsesFromAre(f: Form, ops: seq<Operand>, i: nat)
    requires i <= |ops|
    ensures OfOperands(UsesFrom(f, ops, i), ops)
    ensures |UsesFrom(f, ops, i)| == |ops| - i - (if f.Memory? && i <= f.slot < |ops| then 1 else 0)
    decreases |ops| - i
  {
    if i < |ops| {
      UsesFromAre(f, ops, i + 1);
      SlotUseOf(f, ops[i], i);
    }
  }

  lemma {:induction false} UsesFromHas(f: Form, ops: seq<Operand>, i: nat, k: nat)
    requires i <= k < |ops| && !(f.Memory? && k == f.slot)
    ensures SlotUse(f, ops[k], k).Some? && SlotUse(f, ops[k], k).value in UsesFrom(f, ops, i)
    decreases |ops| - i
  {
    SlotUseOf(f, ops[k], k);
    if i < k { UsesFromHas(f, ops, i + 1, k); }
  }

  lemma UsesAre(v: Insn, t: Tables)
    ensures OfOperands(Uses(v, t), v.ops) && |Uses(v, t)| <= |v.ops|
  {
    var f := FormOf(v, t);
    UsesFromAre(f, v.ops, 0);
    if f.Memory? {
      MemoryFormSlot(v, t);
      var u := AddressUse(v.ops[f.slot], MemAccess(f.kind));
      assert Uses(v, t) == [u] + UsesFrom(f, v.ops, 0);
      assert u.op in v.ops && Unconditional(u.access) && !u.access.NoAccess?;
    } else {
      assert Uses(v, t) == UsesFrom(f, v.ops, 0);
    }
  }

  lemma MemoryFormSlot(v: Insn, t: Tables)
    ensures var f := FormOf(v, t);
            f.Memory? ==> f.slot == MemSlot(v.ops) < |v.ops| && f.kind == t.classify(v.mnemonic, true)
  {
  }

  // Five operands of at most two registers and nine implicit ones are at most nineteen.
  lemma SlimFits(v: Insn, t: Tables)
    requires v.WellFormed() && forall op | op in v.ops :: Slim(op)
    ensures Fits(v, t)
  {
    UsesAre(v, t);
    SlimUses(Uses(v, t));
    AtMostNine(v);
    NamedAtMost(AllAdds(v, t));
  }

  // --- The flags. ---

  predicate Plain(adds: seq<UsedRegister>) { forall u | u in adds :: Unconditional(u.access) }

  lemma {:induction false} PlainJoin(adds: seq<UsedRegister>, r: Register)
    requires Plain(adds)
    ensures Unconditional(JoinOf(adds, r))
  {
    if adds != [] {
      var n := |adds| - 1;
      assert adds[n] in adds && forall u | u in adds[..n] :: u in adds;
      PlainJoin(adds[..n], r);
    }
  }

  lemma PlainUse(u: Use)
    requires Unconditional(u.access)
    ensures Plain(RegsOfUse(u))
  {
    if u.DataUse? { PlainData(u.op, u.access); }
  }

  lemma PlainData(op: Operand, access: OpAccess)
    requires Unconditional(access)
    ensures Plain(DataAdds(op, access))
  {
    if op.MultiReg? {
      EachHas(op.regs, access);
    } else if op.SveVecGroup? {
      GroupHas(Number(op.first), op.groupCount, op.stride, access);
    } else {
    }
  }

  lemma {:induction false} EachHas(rs: seq<Register>, access: OpAccess)
    ensures forall u | u in AllWith(rs, access) :: u.access == access
  {
    if rs != [] { EachHas(rs[1..], access); }
  }

  lemma {:induction false} GroupHas(n: bv32, count: nat, stride: bv32, access: OpAccess)
    ensures forall u | u in Group(n, count, stride, access) :: u.access == access
    decreases count
  {
    if count > 0 { GroupHas(n + stride, count - 1, stride, access); }
  }

  lemma {:induction false} PlainUses(uses: seq<Use>)
    requires forall u | u in uses :: Unconditional(u.access)
    ensures Plain(RegsOf(uses))
  {
    if uses != [] {
      assert uses[0] in uses && forall u | u in uses[1..] :: u in uses;
      PlainUse(uses[0]);
      PlainUses(uses[1..]);
    }
  }

  lemma MergedFlags(a: OpAccess, b: OpAccess)
    requires Unconditional(a) && Unconditional(b)
    ensures Reads(Merge(a, b)) == (Reads(a) || Reads(b)) && Writes(Merge(a, b)) == (Writes(a) || Writes(b))
  {
  }

  lemma ExplicitUnconditional(v: Insn, t: Tables, r: Register)
    ensures Unconditional(JoinOf(RegsOf(Uses(v, t)), r))
  {
    UsesAre(v, t);
    PlainUses(Uses(v, t));
    PlainJoin(RegsOf(Uses(v, t)), r);
  }

  // --- No access is conditional. ---

  lemma {:induction false} PlainCompanions(n: bv32, i: bv32, access: OpAccess)
    requires i <= 8 && Unconditional(access)
    ensures Plain(Companions(n, i, access))
    decreases 8 - i as int
  {
    if i < 8 { PlainCompanions(n, i + 1, access); }
  }

  lemma PlainGroup(v: Insn)
    ensures Plain(Ls64Adds(v))
  {
    GroupAdds(v);
    var g := GroupOf(v);
    if g.Some? { PlainCompanions(Number(g.value.0), 1, g.value.1); }
  }

  lemma PlainFfr(m: Mnemonic)
    ensures Plain(FfrAdds(FfrAccess(m)))
  {
  }

  lemma PlainFlags(v: Insn)
    ensures Plain(NzcvAdds(v))
  {
  }

  lemma PlainLink(v: Insn)
    ensures Plain(LinkAdds(v))
  {
  }

  lemma PlainAuth(a: Auth)
    ensures Plain(AuthAdds(a))
  {
  }

  lemma PlainState(v: Insn)
    ensures Plain(SmeAdds(v)) && Plain(PcAdds(v))
  {
  }

  lemma PlainImplicit(v: Insn)
    ensures Plain(ImplicitAdds(v))
  {
    PlainFlags(v);
    PlainLink(v);
    PlainAuth(AuthOf(v.mnemonic));
    PlainGroup(v);
    PlainFfr(v.mnemonic);
    PlainState(v);
  }

  lemma {:induction false} PlainEntries(es: seq<UsedRegister>, cap: nat, adds: seq<UsedRegister>)
    requires Plain(es) && Plain(adds)
    ensures Plain(AddAll(es, cap, adds))
    decreases |adds|
  {
    if adds != [] {
      assert adds[0] in adds && forall u | u in adds[1..] :: u in adds;
      PlainAdd(es, cap, adds[0]);
      PlainEntries(AddTo(es, cap, adds[0]), cap, adds[1..]);
    }
  }

  lemma PlainAdd(es: seq<UsedRegister>, cap: nat, u: UsedRegister)
    requires Plain(es) && Unconditional(u.access)
    ensures Plain(AddTo(es, cap, u))
  {
    var i := IndexOf(es, u.register);
    if i < |es| { assert es[i] in es; }
  }

  lemma {:induction false} PlainMemory(l: Lists, uses: seq<Use>)
    requires forall m | m in l.mem :: Unconditional(m.access)
    requires forall u | u in uses :: Unconditional(u.access)
    ensures forall m | m in TookAll(l, uses).mem :: Unconditional(m.access)
    decreases |uses|
  {
    if uses != [] {
      assert uses[0] in uses && forall u | u in uses[1..] :: u in uses;
      PlainMemory(Took(l, uses[0]), uses[1..]);
    }
  }

  // CondRead and CondWrite are declared and merged, but no instruction, edited or decoded,
  // has an access of either kind: not among those attributed to it, and not in its report.
  lemma ConditionalNeverArises(v: Insn, t: Tables)
    ensures forall u | u in AllAdds(v, t) :: Unconditional(u.access)
    ensures forall u | u in InfoOf(v, t).regs :: Unconditional(u.access)
    ensures forall m | m in InfoOf(v, t).mem :: Unconditional(m.access)
  {
    UsesAre(v, t);
    PlainUses(Uses(v, t));
    PlainImplicit(v);
    PlainEntries([], MAX_IMPLICIT_REGS, ImplicitAdds(v));
    InfoIsFolded(v, t);
    PlainEntries([], MAX_USED_REGS, Folded(v, t));
    PlainMemory(Lists([], []), Uses(v, t));
  }

  // The scalar flags and the NZCV entry agree, but for what an operand that names NZCV
  // adds to the entry.
  lemma FlagsAgree(v: Insn, t: Tables)
    requires Fits(v, t)
    ensures var info, named := InfoOf(v, t), JoinOf(RegsOf(Uses(v, t)), Nzcv);
            && Reads(AccessOf(info.regs, Nzcv)) == (info.flagsRead || Reads(named))
            && Writes(AccessOf(info.regs, Nzcv)) == (info.flagsWritten || Writes(named))
  {
    InfoIsMap(v, t, Nzcv);
    NzcvJoin(v);
    NzcvPart(v);
    ExplicitUnconditional(v, t, Nzcv);
    MergedFlags(JoinOf(RegsOf(Uses(v, t)), Nzcv), JoinOf(ImplicitAdds(v), Nzcv));
  }

  // --- No operand is missed. ---

  lemma {:induction false} InRegsOf(uses: seq<Use>, u: Use, x: UsedRegister)
    requires u in uses && x in RegsOfUse(u)
    ensures x in RegsOf(uses)
  {
    if u != uses[0] {
      assert u in uses[1..];
      InRegsOf(uses[1..], u, x);
    }
  }

  lemma UseIsReported(v: Insn, t: Tables, u: Use, x: UsedRegister)
    requires Fits(v, t) && u in Uses(v, t) && x in RegsOfUse(u) && !x.register.NoRegister?
    ensures Includes(AccessOf(InfoOf(v, t).regs, x.register), x.access)
  {
    InRegsOf(Uses(v, t), u, x);
    JoinIncludes(RegsOf(Uses(v, t)), x);
    InfoIsMap(v, t, x.register);
    MergeIsJoin(JoinOf(RegsOf(Uses(v, t)), x.register), JoinOf(ImplicitAdds(v), x.register), x.access);
    MergeIsJoin(JoinOf(RegsOf(Uses(v, t)), x.register), x.access, JoinOf(ImplicitAdds(v), x.register));
  }

  lemma UseOfOperand(v: Insn, t: Tables, i: nat) returns (u: Use)
    requires i < |v.ops|
    ensures u in Uses(v, t) && u.op == v.ops[i] && !u.access.NoAccess?
    ensures FormOf(v, t).Memory? && FormOf(v, t).slot == i ==> u.AddressUse?
    ensures !IsMemory(v.ops[i]) ==> u.DataUse?
  {
    var f := FormOf(v, t);
    SlotUseOf(f, v.ops[i], i);
    if f.Memory? && f.slot == i {
      u := AddressUse(v.ops[i], MemAccess(f.kind));
    } else {
      UsesFromHas(f, v.ops, 0, i);
      u := SlotUse(f, v.ops[i], i).value;
    }
  }

  // The registers an operand carries as data.
  function DataRegisters(op: Operand): set<Register> { Named(DataAdds(op, Read)) }

  lemma DataAddsAny(op: Operand, access: OpAccess, r: Register) returns (x: UsedRegister)
    requires r in DataRegisters(op) && !access.NoAccess?
    ensures x in DataAdds(op, access) && x.register == r && !x.access.NoAccess? && !r.NoRegister?
  {
    if op.MultiReg? {
      x := AnyEach(op.regs, access, r);
    } else if op.SveVecGroup? {
      x := AnyGroup(Number(op.first), op.groupCount, op.stride, access, r);
    } else if op.IndexedElement? || op.Reg? || op.RegBang? || op.RegPair? || op.PredCounter? {
      x := AnyOfTwo(op, access, r);
    } else {
      x := AnyZa(op, access, r);
    }
  }

  lemma AnyOfTwo(op: Operand, access: OpAccess, r: Register) returns (x: UsedRegister)
    requires op.IndexedElement? || op.Reg? || op.RegBang? || op.RegPair? || op.PredCounter?
    requires r in DataRegisters(op) && !access.NoAccess?
    ensures x in DataAdds(op, access) && x.register == r && !x.access.NoAccess? && !r.NoRegister?
  {
    x := UsedRegister(r, if op.IndexedElement? && r != op.reg then Read else access);
  }

  lemma AnyZa(op: Operand, access: OpAccess, r: Register) returns (x: UsedRegister)
    requires r in Named(ZaAdds(op, Read)) && !access.NoAccess?
    ensures x in ZaAdds(op, access) && x.register == r && !x.access.NoAccess? && !r.NoRegister?
  {
    if op.SmeTileSlice? || op.SmeZaSlice? {
      x := UsedRegister(r, if r == op.sel then Read else access);
    } else {
      x := UsedRegister(r, access);
    }
  }

  lemma {:induction false} AnyEach(rs: seq<Register>, access: OpAccess, r: Register) returns (x: UsedRegister)
    requires r in Named(AllWith(rs, Read)) && !access.NoAccess?
    ensures x in AllWith(rs, access) && x.register == r && x.access == access && !r.NoRegister?
  {
    x := UsedRegister(r, access);
    if r != rs[0] {
      x := AnyEach(rs[1..], access, r);
    }
  }

  lemma {:induction false} AnyGroup(n: bv32, count: nat, stride: bv32, access: OpAccess, r: Register)
    returns (x: UsedRegister)
    requires r in Named(Group(n, count, stride, Read)) && !access.NoAccess?
    ensures x in Group(n, count, stride, access) && x.register == r && x.access == access && !r.NoRegister?
    decreases count
  {
    x := UsedRegister(r, access);
    if r != SveRegister(n) {
      NamedLater(n, count, stride, r);
      x := AnyGroup(n + stride, count - 1, stride, access, r);
    }
  }

  lemma NamedLater(n: bv32, count: nat, stride: bv32, r: Register)
    requires r in Named(Group(n, count, stride, Read)) && r != SveRegister(n)
    ensures count > 0 && r in Named(Group(n + stride, count - 1, stride, Read))
  {
    var u :| u in Group(n, count, stride, Read) && Counts(u) && u.register == r;
  }

  // Every register an operand carries as data is reported, whatever the form.
  lemma OperandIsReported(v: Insn, t: Tables, i: nat, r: Register)
    requires Fits(v, t) && i < |v.ops| && !IsMemory(v.ops[i]) && r in DataRegisters(v.ops[i])
    ensures !AccessOf(InfoOf(v, t).regs, r).NoAccess?
  {
    var u := UseOfOperand(v, t, i);
    var x := DataAddsAny(v.ops[i], u.access, r);
    UseIsReported(v, t, u, x);
  }

  // In a memory form the registers of the address are read, and its base is written
  // too when the mode writes it back.
  lemma AddressIsReported(v: Insn, t: Tables, x: UsedRegister)
    requires Fits(v, t) && FormOf(v, t).Memory? && FormOf(v, t).slot < |v.ops|
    requires x in AddressAdds(v.ops[FormOf(v, t).slot]) && !x.register.NoRegister?
    ensures var a := AccessOf(InfoOf(v, t).regs, x.register); Includes(a, x.access) && Reads(a)
  {
    var u := UseOfOperand(v, t, FormOf(v, t).slot);
    UseIsReported(v, t, u, x);
  }

  // --- Memory. ---

  function MemoriesOf(uses: seq<Use>): seq<UsedMemory> {
    if uses == [] then []
    else (match MemOfUse(uses[0]) case None => [] case Some(m) => [m]) + MemoriesOf(uses[1..])
  }

  function FirstTwo(mem: seq<UsedMemory>): seq<UsedMemory> {
    if |mem| <= MAX_USED_MEM then mem else mem[..MAX_USED_MEM]
  }

  lemma FirstTwoAgain(mem: seq<UsedMemory>, m: Option<UsedMemory>, rest: seq<UsedMemory>)
    requires |mem| <= MAX_USED_MEM
    ensures FirstTwo(AddMem(mem, m) + rest) == FirstTwo(mem + ((match m case None => [] case Some(x) => [x]) + rest))
  {
    if m.Some? && |mem| < MAX_USED_MEM { assert mem + ([m.value] + rest) == mem + [m.value] + rest; }
    if m.None? { assert [] + rest == rest; }
  }

  lemma {:induction false} TookMemory(l: Lists, uses: seq<Use>)
    requires |l.mem| <= MAX_USED_MEM
    ensures TookAll(l, uses).mem == FirstTwo(l.mem + MemoriesOf(uses))
    decreases |uses|
  {
    if uses == [] {
      assert l.mem + [] == l.mem;
    } else {
      TookMemory(Took(l, uses[0]), uses[1..]);
      FirstTwoAgain(l.mem, MemOfUse(uses[0]), MemoriesOf(uses[1..]));
    }
  }

  // The memory list is the first two addresses used, in operand order: complete exactly
  // when there are no more.
  lemma MemoryIsFirstTwo(v: Insn, t: Tables)
    ensures InfoOf(v, t).mem == FirstTwo(MemoriesOf(Uses(v, t)))
    ensures InfoOf(v, t).mem == MemoriesOf(Uses(v, t)) <==> |MemoriesOf(Uses(v, t))| <= MAX_USED_MEM
  {
    TookMemory(Lists([], []), Uses(v, t));
    assert [] + MemoriesOf(Uses(v, t)) == MemoriesOf(Uses(v, t));
  }

  lemma {:induction false} NoMemory(l: Lists, uses: seq<Use>)
    requires forall u | u in uses :: MemOfUse(u).None?
    ensures TookAll(l, uses).mem == l.mem
    decreases |uses|
  {
    if uses != [] {
      assert uses[0] in uses && forall u | u in uses[1..] :: u in uses;
      NoMemory(Took(l, uses[0]), uses[1..]);
    }
  }

  lemma {:induction false} NoMemoryFrom(f: Form, ops: seq<Operand>, i: nat)
    requires !f.Mops? && i <= |ops| && (f.Data? ==> forall op | op in ops :: !IsMemory(op))
    ensures forall u | u in UsesFrom(f, ops, i) :: MemOfUse(u).None?
    decreases |ops| - i
  {
    if i < |ops| {
      NoMemoryFrom(f, ops, i + 1);
    }
  }

  lemma OneAddress(l: Lists, u: Use, rest: seq<Use>)
    ensures TookAll(l, [u] + rest) == TookAll(Took(l, u), rest)
  {
    assert ([u] + rest)[1..] == rest;
  }

  // Outside the copy and set family an instruction reports one memory access, of its
  // first memory operand, if it has any.
  lemma MemoryIsReported(v: Insn, t: Tables)
    requires Total(t) && !SomeMops(v.ops)
    ensures InfoOf(v, t).mem == FirstMemory(v, t)
  {
    MemoryFormSlot(v, t);
    if MemSlot(v.ops) < |v.ops| {
      AddressFormMemory(v.ops, FormOf(v, t));
    } else {
      NoMemoryFrom(FormOf(v, t), v.ops, 0);
      NoMemory(Lists([], []), UsesFrom(FormOf(v, t), v.ops, 0));
    }
  }

  function FirstMemory(v: Insn, t: Tables): seq<UsedMemory> {
    var slot := MemSlot(v.ops);
    if slot == |v.ops| then []
    else [MemoryOf(v.ops[slot], MemAccess(t.classify(v.mnemonic, true))).value]
  }

  lemma AddressFormMemory(ops: seq<Operand>, f: Form)
    requires f.Memory? && f.slot < |ops| && IsMemory(ops[f.slot])
    ensures TookAll(Lists([], []), [AddressUse(ops[f.slot], MemAccess(f.kind))] + UsesFrom(f, ops, 0)).mem ==
            [MemoryOf(ops[f.slot], MemAccess(f.kind)).value]
  {
    var u := AddressUse(ops[f.slot], MemAccess(f.kind));
    OneAddress(Lists([], []), u, UsesFrom(f, ops, 0));
    NoMemoryFrom(f, ops, 0);
    NoMemory(Took(Lists([], []), u), UsesFrom(f, ops, 0));
  }

  // --- Control transfers. ---

  lemma OnlyRead(adds: seq<UsedRegister>, r: Register)
    requires forall u | u in adds :: u.access == Read
    ensures AtMostRead(JoinOf(adds, r))
  {
    JoinIsLeast(adds, r, Read);
  }

  predicate AtMostRead(a: OpAccess) { a == NoAccess || a == Read }

  lemma ReadData(op: Operand)
    ensures forall x | x in DataAdds(op, Read) :: x.access == Read
  {
    if op.MultiReg? {
      EachHas(op.regs, Read);
    } else if op.SveVecGroup? {
      GroupHas(Number(op.first), op.groupCount, op.stride, Read);
    } else {
    }
  }

  lemma {:induction false} ReadUses(uses: seq<Use>)
    requires forall u | u in uses :: u == DataUse(u.op, Read)
    ensures forall x | x in RegsOf(uses) :: x.access == Read
  {
    if uses != [] {
      assert uses[0] in uses && forall u | u in uses[1..] :: u in uses;
      ReadData(uses[0].op);
      ReadUses(uses[1..]);
    }
  }

  lemma {:induction false} TransferUses(ops: seq<Operand>, i: nat)
    requires i <= |ops|
    ensures forall u | u in UsesFrom(Transfer, ops, i) :: u == DataUse(u.op, Read)
    decreases |ops| - i
  {
    if i < |ops| { TransferUses(ops, i + 1); }
  }

  lemma TransferMnemonics(v: Insn)
    requires v.FlowControlOf() != Next
    ensures AuthOf(v.mnemonic) == UseSp || AuthOf(v.mnemonic) == NoAuth
    ensures !WritesFlags(v) && FfrAccess(v.mnemonic) == NoAccess && SmeAdds(v) == [] && GroupOf(v) == None
    ensures !AuthReadsPc(v.mnemonic)
  {
  }

  lemma SevenMerged(a: OpAccess, b: OpAccess, c: OpAccess, g: OpAccess)
    requires AtMostRead(a) && (b == Write || AtMostRead(b)) && AtMostRead(c) && AtMostRead(g)
    ensures var m := Merge(Merge(Merge(Merge(Merge(Merge(a, b), c), NoAccess), NoAccess), NoAccess), g);
            Writes(m) == Writes(b) && Unconditional(m)
  {
  }

  lemma AuthOnlyReads(a: Auth, r: Register)
    requires a == UseSp || a == NoAuth
    ensures AtMostRead(JoinOf(AuthAdds(a), r))
  {
    OnlyRead(AuthAdds(a), r);
  }

  lemma TransferImplicit(v: Insn, r: Register)
    requires v.FlowControlOf() != Next && !r.NoRegister?
    ensures Writes(JoinOf(ImplicitAdds(v), r)) <==>
            r == LINK && (v.FlowControlOf() == Call || v.FlowControlOf() == IndirectCall)
    ensures Unconditional(JoinOf(ImplicitAdds(v), r))
  {
    TransferMnemonics(v);
    JoinOfParts(v, r);
    NzcvOnlyRead(v, r);
    LinkWrites(v, r);
    AuthOnlyReads(AuthOf(v.mnemonic), r);
    Ls64GroupIs(v, r);
    OnlyRead(PcAdds(v), r);
    SevenMerged(JoinOf(NzcvAdds(v), r), JoinOf(LinkAdds(v), r), JoinOf(AuthAdds(AuthOf(v.mnemonic)), r),
                JoinOf(PcAdds(v), r));
  }

  lemma NzcvOnlyRead(v: Insn, r: Register)
    requires !WritesFlags(v)
    ensures AtMostRead(JoinOf(NzcvAdds(v), r))
  {
    OnlyRead(NzcvAdds(v), r);
  }

  lemma LinkWrites(v: Insn, r: Register)
    ensures var a := JoinOf(LinkAdds(v), r);
            if r == LINK && (v.FlowControlOf() == Call || v.FlowControlOf() == IndirectCall) then a == Write
            else AtMostRead(a)
  {
    JoinOfOne(UsedRegister(LINK, Write), r);
    JoinOfOne(UsedRegister(LINK, Read), r);
  }

  lemma TransferExplicit(v: Insn, t: Tables, r: Register)
    requires FormOf(v, t) == Transfer
    ensures v.FlowControlOf() != Next && AtMostRead(JoinOf(RegsOf(Uses(v, t)), r))
  {
    TransferUses(v.ops, 0);
    ReadUses(Uses(v, t));
    OnlyRead(RegsOf(Uses(v, t)), r);
  }

  // A control transfer without a memory operand writes no register but the link
  // register, and that exactly when it is a call.
  lemma TransferWritesOnlyLink(v: Insn, t: Tables, r: Register)
    requires Fits(v, t) && FormOf(v, t) == Transfer && !r.NoRegister?
    ensures Writes(AccessOf(InfoOf(v, t).regs, r)) <==>
            r == LINK && (v.FlowControlOf() == Call || v.FlowControlOf() == IndirectCall)
  {
    InfoIsMap(v, t, r);
    TransferExplicit(v, t, r);
    TransferImplicit(v, r);
  }

  // --- The destination of a data-processing form. ---

  lemma {:induction false} LaterSlotsAreRead(f: Form, ops: seq<Operand>, i: nat)
    requires f.Data? && 0 < i <= |ops| && forall op | op in ops :: !IsMemory(op)
    ensures forall u | u in UsesFrom(f, ops, i) :: u == DataUse(u.op, Read)
    decreases |ops| - i
  {
    if i < |ops| { LaterSlotsAreRead(f, ops, i + 1); }
  }

  lemma WritesSplit(u: Use, rest: seq<Use>, r: Register)
    requires Unconditional(u.access) && forall x | x in RegsOf(rest) :: x.access == Read
    ensures Writes(JoinOf(RegsOf([u] + rest), r)) == Writes(JoinOf(RegsOfUse(u), r))
  {
    assert ([u] + rest)[1..] == rest;
    JoinOfConcat(RegsOfUse(u), RegsOf(rest), r);
    OnlyRead(RegsOf(rest), r);
    PlainUse(u);
    PlainJoin(RegsOfUse(u), r);
  }

  // Of the operands of a data-processing form, only slot 0 is written, and nothing is
  // when the mnemonic has no destination.
  lemma DataFormWrites(v: Insn, t: Tables, r: Register)
    requires Total(t) && FormOf(v, t).Data? && v.ops != []
    ensures Writes(JoinOf(RegsOf(Uses(v, t)), r)) <==>
            !FormOf(v, t).noDest &&
            Writes(JoinOf(DataAdds(v.ops[0], if FormOf(v, t).accum then ReadWrite else Write), r))
  {
    var f := FormOf(v, t);
    LaterSlotsAreRead(f, v.ops, 1);
    ReadUses(UsesFrom(f, v.ops, 1));
    var u := SlotUse(f, v.ops[0], 0).value;
    assert Uses(v, t) == [u] + UsesFrom(f, v.ops, 1);
    WritesSplit(u, UsesFrom(f, v.ops, 1), r);
    if f.noDest {
      ReadData(v.ops[0]);
      OnlyRead(DataAdds(v.ops[0], Read), r);
    }
  }

  // --- Where the report falls short. ---

  lemma {:induction false} GroupNames(n: bv32, count: nat, access: OpAccess)
    requires n as int + count <= 32 && !access.NoAccess?
    ensures |Named(Group(n, count, 1, access))| == count
    ensures forall r | r in Named(Group(n, count, 1, access)) :: r.Z? && n <= r.z
    decreases count
  {
    if count > 0 {
      NextVector(n);
      GroupNames(n + 1, count - 1, access);
      NamedCons(UsedRegister(Z(n), access), Group(n + 1, count - 1, 1, access));
    }
  }

  lemma NamedCons(u: UsedRegister, rest: seq<UsedRegister>)
    requires Counts(u)
    ensures Named([u] + rest) == {u.register} + Named(rest)
    ensures u.register !in Named(rest) ==> |Named([u] + rest)| == 1 + |Named(rest)|
  {
  }

  lemma NextVector(n: bv32)
    requires n as int < 32
    ensures n < 32 && SveRegister(n) == Z(n) && (n + 1) as int == n as int + 1 && n < n + 1
  {
  }

  lemma AddsGrowNames(a: seq<UsedRegister>, b: seq<UsedRegister>)
    ensures |Named(a)| <= |Named(a + b)|
  {
    SubsetsCount(Named(a), Named(a + b));
  }

  lemma UseOfGroup(f: Form, op: Operand)
    requires op.SveVecGroup? && !f.Memory?
    ensures var u := SlotUse(f, op, 0);
            u.Some? && !u.value.access.NoAccess?
            && RegsOf([u.value]) == Group(Number(op.first), op.groupCount, op.stride, u.value.access)
  {
    SlotUseOf(f, op, 0);
    var u := SlotUse(f, op, 0).value;
    assert RegsOf([u]) == RegsOfUse(u) + RegsOf([]);
  }

  lemma OneUse(v: Insn, t: Tables)
    requires |v.ops| == 1 && !FormOf(v, t).Memory?
    ensures Uses(v, t) == if SlotUse(FormOf(v, t), v.ops[0], 0).None? then []
                          else [SlotUse(FormOf(v, t), v.ops[0], 0).value]
  {
    assert UsesFrom(FormOf(v, t), v.ops, 1) == [];
  }

  lemma GroupIsNoAddress(v: Insn, t: Tables)
    requires |v.ops| == 1 && v.ops[0].SveVecGroup?
    ensures !FormOf(v, t).Memory?
  {
    MemoryFormSlot(v, t);
  }

  // One edited operand can name more registers than the report holds: a group of more
  // than twenty consecutive vectors. Then some register it names is missing.
  lemma WideGroupIsCutShort(v: Insn, t: Tables, op: Operand)
    requires v.ops == [op] && op.SveVecGroup? && op.stride == 1
    requires Number(op.first) as int + op.groupCount <= 32 && op.groupCount > MAX_USED_REGS
    ensures !Fits(v, t) && RegistersIn(InfoOf(v, t).regs) != Named(AllAdds(v, t))
  {
    GroupIsNoAddress(v, t);
    UseOfGroup(FormOf(v, t), op);
    OneUse(v, t);
    GroupNames(Number(op.first), op.groupCount, SlotUse(FormOf(v, t), op, 0).value.access);
    AddsGrowNames(RegsOf(Uses(v, t)), ImplicitAdds(v));
    InfoIsMap(v, t, Pc);
  }

  // Z0 and the twenty vectors after it, under any encoding, are such a group.
  lemma TwentyOneVectors(v: Insn, t: Tables)
    requires v.ops == [SveVecGroup(Z(0), 21, 1)]
    ensures !Fits(v, t) && RegistersIn(InfoOf(v, t).regs) != Named(AllAdds(v, t))
  {
    WideGroupIsCutShort(v, t, SveVecGroup(Z(0), 21, 1));
  }

  // --- Decoded branches. ---

  lemma ReturnValue(rn: bv32, v: Insn)
    requires rn < 32 && v.ops == []
    ensures var d := PlainBranch(2, rn, v);
            d.mnemonic == Own(Code.Ret) && d.ops == (if rn == 30 then [] else [XReg(false, rn)])
  {
  }

  // Every decoded RET reports a read of the register it returns through, spelt out or
  // left out.
  lemma ReturnTargetIsRead(rn: bv32, v: Insn, t: Tables)
    requires rn < 32 && v.ops == []
    ensures Reads(AccessOf(InfoOf(PlainBranch(2, rn, v), t).regs, GpRegister(false, X64, rn)))
  {
    ReturnValue(rn, v);
    ReturnIsRead(PlainBranch(2, rn, v), t, rn);
  }

  lemma ReturnIsRead(d: Insn, t: Tables, rn: bv32)
    requires rn < 32 && d.mnemonic == Own(Code.Ret) && d.ops == if rn == 30 then [] else [XReg(false, rn)]
    ensures Reads(AccessOf(InfoOf(d, t).regs, GpRegister(false, X64, rn)))
  {
    ReturnFits(d, t, rn);
    if rn == 30 {
      BareReturn(d, t);
    } else {
      NamedReturn(d, t, GpRegister(false, X64, rn));
    }
  }

  lemma ReturnFits(d: Insn, t: Tables, rn: bv32)
    requires d.ops == if rn == 30 then [] else [XReg(false, rn)]
    ensures Fits(d, t)
  {
    SlimFits(d, t);
  }

  lemma BareFlow(d: Insn)
    requires d.mnemonic == Own(Code.Ret) && d.ops == []
    ensures d.FlowControlOf() == Return && ReturnsThroughLink(d)
  {
  }

  lemma BareLink(d: Insn)
    requires d.mnemonic == Own(Code.Ret) && d.ops == []
    ensures AccessOf(Listed(d), LINK) == Read
  {
    BareFlow(d);
    LinkEntry(d);
  }

  lemma BareReturn(d: Insn, t: Tables)
    requires Fits(d, t) && d.mnemonic == Own(Code.Ret) && d.ops == []
    ensures Reads(AccessOf(InfoOf(d, t).regs, LINK))
  {
    BareLink(d);
    ImplicitIsIncluded(d, t, LINK);
  }

  lemma NamedReturn(d: Insn, t: Tables, r: Register)
    requires Fits(d, t) && d.mnemonic == Own(Code.Ret) && d.ops == [Reg(r, PLAIN)] && !r.NoRegister?
    ensures Reads(AccessOf(InfoOf(d, t).regs, r))
  {
    ReturnUses(d, t, Reg(r, PLAIN));
    UseIsReported(d, t, DataUse(Reg(r, PLAIN), Read), UsedRegister(r, Read));
  }

  lemma ReturnUses(d: Insn, t: Tables, op: Operand)
    requires d.mnemonic == Own(Code.Ret) && d.ops == [op] && op.Reg?
    ensures Uses(d, t) == [DataUse(op, Read)]
  {
    assert !IsMemory(op);
    assert UsesFrom(Transfer, d.ops, 1) == [];
    assert UsesFrom(Transfer, d.ops, 0) == [DataUse(op, Read)];
  }
}
