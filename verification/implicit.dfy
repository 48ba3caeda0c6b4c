/** `src/implicit.rs`: the registers an instruction touches without naming them. The
    analysis only reads the instruction, so it takes its value. */
module Implicit {
  import opened Wrappers
  import opened Isa
  import opened Instructions
  import opened Access

  const MAX_IMPLICIT_REGS := 10

  // --- The rules, each as the adds it makes. ---

  predicate MnemonicReadsFlags(m: Mnemonic) {
    var n := ForeignNumber(m);
    n == ADC || n == ADCS || n == SBC || n == SBCS || n == NGC || n == NGCS || n == CSEL || n == CSINC
    || n == CSINV || n == CSNEG || n == CINC || n == CINV || n == CNEG || n == CSET || n == CSETM || n == CCMP
    || n == CCMN || n == FCSEL || n == RMIF || n == SETF8 || n == SETF16 || IsFlagOp(OwnerOf(m))
  }

  predicate ReadsNzcv(v: Insn) { v.ConditionOf().Some? || MnemonicReadsFlags(v.mnemonic) }

  predicate WritesFlags(v: Insn) { !v.FlagEffectOf().NoFlags? }

  function NzcvAdds(v: Insn): seq<UsedRegister> {
    var read, written := ReadsNzcv(v), WritesFlags(v);
    if read && written then [UsedRegister(Nzcv, ReadWrite)]
    else if read then [UsedRegister(Nzcv, Read)]
    else if written then [UsedRegister(Nzcv, Write)]
    else []
  }

  const LINK := X(30)

  function LinkAdds(v: Insn): seq<UsedRegister> {
    match v.FlowControlOf()
    case Call | IndirectCall => [UsedRegister(LINK, Write)]
    case Return => if ReturnsThroughLink(v) then [UsedRegister(LINK, Read)] else []
    case _ => []
  }

  predicate ReturnsThroughLink(v: Insn) {
    var c := OwnerOf(v.mnemonic);
    || (c.Ret? && v.ops == [])
    || c.Retaa? || c.Retab? || c.Retaasppc? || c.Retabsppc? || c.Retaasppcr? || c.Retabsppcr?
  }

  // What a pointer-authentication form uses without naming it.
  datatype Auth = SignLinkBySp | SignLink | Sign1716 | UseSp | NoAuth

  function AuthOf(m: Mnemonic): Auth {
    var c, n := OwnerOf(m), ForeignNumber(m);
    if m.Paciasp? || m.Pacibsp? || m.Autiasp? || m.Autibsp? || n == PACIASPPC || n == PACIBSPPC
       || n == PACNBIASPPC || n == PACNBIBSPPC || n == AUTIASPPC || n == AUTIBSPPC || n == AUTIASPPCR
       || n == AUTIBSPPCR then SignLinkBySp
    else if m.Paciaz? || m.Pacibz? || m.Autiaz? || m.Autibz? || m.Xpaclri? then SignLink
    else if m.Pacia1716? || m.Pacib1716? || m.Autia1716? || m.Autib1716? then Sign1716
    else if c.Retaasppc? || c.Retabsppc? || c.Retaasppcr? || c.Retabsppcr? || c.Retaa? || c.Retab? || c.Eretaa?
            || c.Eretab? then UseSp
    else NoAuth
  }

  function AuthAdds(a: Auth): seq<UsedRegister> {
    match a
    case SignLinkBySp => [UsedRegister(LINK, ReadWrite), UsedRegister(Sp, Read)]
    case SignLink => [UsedRegister(LINK, ReadWrite)]
    case Sign1716 => [UsedRegister(X(17), ReadWrite), UsedRegister(X(16), Read)]
    case UseSp => [UsedRegister(Sp, Read)]
    case NoAuth => []
  }

  // Where the 64-byte transfers put their data register, and how they use the group.
  function Ls64Slot(m: Mnemonic): Option<(nat, OpAccess)> {
    var n := ForeignNumber(m);
    if n == LD64B then Some((0, Write))
    else if n == ST64B then Some((0, Read))
    else if n == ST64BV || n == ST64BV0 then Some((1, Read))
    else None
  }

  // The base of a group: a 64-bit register with an even number of at most 22.
  predicate IsGroupBase(r: Register) {
    Class(r) == Gp && WidthBits(r) == 64 && Number(r) & 1 == 0 && Number(r) <= 22
  }

  function Companions(n: bv32, i: bv32, access: OpAccess): seq<UsedRegister>
    requires i <= 8
    decreases 8 - i as int
  {
    if i == 8 then [] else [UsedRegister(GpRegister(false, X64, n + i), access)] + Companions(n, i + 1, access)
  }

  function Ls64Adds(v: Insn): seq<UsedRegister> {
    match Ls64Slot(v.mnemonic)
    case None => []
    case Some((slot, access)) =>
      if v.Op(slot).Reg? && IsGroupBase(v.Op(slot).reg) then Companions(Number(v.Op(slot).reg), 1, access) else []
  }

  function FfrAccess(m: Mnemonic): OpAccess {
    var n := ForeignNumber(m);
    if n == LDFF1B || n == LDFF1H || n == LDFF1W || n == LDFF1D || n == LDFF1SB || n == LDFF1SH
       || n == LDFF1SW then ReadWrite
    else if n == LDNF1B || n == LDNF1H || n == LDNF1W || n == LDNF1D || n == LDNF1SB || n == LDNF1SH
            || n == LDNF1SW then Read
    else if n == SETFFR || n == WRFFR then Write
    else if n == RDFFR || n == RDFFRS then Read
    else NoAccess
  }

  function FfrAdds(access: OpAccess): seq<UsedRegister> {
    if access.NoAccess? then [] else [UsedRegister(Ffr, access)]
  }

  predicate SwitchesState(m: Mnemonic) { OwnerOf(m).Smstart? || OwnerOf(m).Smstop? }

  function SmeAdds(v: Insn): seq<UsedRegister> {
    if SwitchesState(v.mnemonic) && v.Op(0) != SysOp(Sm) then [UsedRegister(Za, Write)] else []
  }

  predicate AuthReadsPc(m: Mnemonic) {
    var n := ForeignNumber(m);
    n == PACIASPPC || n == PACIBSPPC || n == PACNBIASPPC || n == PACNBIBSPPC || n == AUTIASPPC || n == AUTIBSPPC
  }

  predicate ReadsPc(v: Insn) {
    AuthReadsPc(v.mnemonic) || (v.FlowControlOf() == Next && LabelBelow(v.ops, |v.ops|))
  }

  function PcAdds(v: Insn): seq<UsedRegister> {
    if ReadsPc(v) then [UsedRegister(Pc, Read)] else []
  }

  function ImplicitAdds(v: Insn): seq<UsedRegister> {
    NzcvAdds(v) + LinkAdds(v) + AuthAdds(AuthOf(v.mnemonic)) + Ls64Adds(v) + FfrAdds(FfrAccess(v.mnemonic))
    + SmeAdds(v) + PcAdds(v)
  }

  // --- The rules at work. ---

  method AddNzcv(out: AccessList, v: Insn)
    requires out.Valid()
    modifies out, out.regs
    ensures out.Valid()
    ensures out.Entries() == AddAll(old(out.Entries()), out.regs.Length, NzcvAdds(v))
  {
    var written, read := WritesFlags(v), ReadsNzcv(v);
    if !read && !written {
      return;
    }
    out.Add(Nzcv, if read && written then ReadWrite else if read then Read else Write);
  }

  method AddLinkRegister(out: AccessList, v: Insn)
    requires out.Valid()
    modifies out, out.regs
    ensures out.Valid()
    ensures out.Entries() == AddAll(old(out.Entries()), out.regs.Length, LinkAdds(v))
  {
    match v.FlowControlOf()
    case Call | IndirectCall => out.Add(LINK, Write);
    case Return =>
      if ReturnsThroughLink(v) {
        out.Add(LINK, Read);
      }
    case _ =>
  }

  method AddPointerAuth(out: AccessList, m: Mnemonic)
    requires out.Valid()
    modifies out, out.regs
    ensures out.Valid()
    ensures out.Entries() == AddAll(old(out.Entries()), out.regs.Length, AuthAdds(AuthOf(m)))
  {
    ghost var es, cap := out.Entries(), out.regs.Length;
    match AuthOf(m)
    case SignLinkBySp =>
      AddAllTwo(es, cap, UsedRegister(LINK, ReadWrite), UsedRegister(Sp, Read));
      out.Add(LINK, ReadWrite);
      out.Add(Sp, Read);
    case SignLink => out.Add(LINK, ReadWrite);
    case Sign1716 =>
      AddAllTwo(es, cap, UsedRegister(X(17), ReadWrite), UsedRegister(X(16), Read));
      out.Add(X(17), ReadWrite);
      out.Add(X(16), Read);
    case UseSp => out.Add(Sp, Read);
    case NoAuth =>
  }

  method AddLs64Group(out: AccessList, v: Insn)
    requires out.Valid()
    modifies out, out.regs
    ensures out.Valid()
    ensures out.Entries() == AddAll(old(out.Entries()), out.regs.Length, Ls64Adds(v))
  {
    var slot := Ls64Slot(v.mnemonic);
    if slot.None? || !v.Op(slot.value.0).Reg? {
      return;
    }
    var base, access := v.Op(slot.value.0).reg, slot.value.1;
    if !IsGroupBase(base) {
      return;
    }
    var n, i: bv32 := Number(base), 1;
    while i < 8
      invariant 1 <= i <= 8 && out.Valid()
      invariant AddAll(out.Entries(), out.regs.Length, Companions(n, i, access)) ==
                AddAll(old(out.Entries()), out.regs.Length, Companions(n, 1, access))
      decreases 8 - i as int
    {
      out.Add(GpRegister(false, X64, n + i), access);
      i := i + 1;
    }
  }

  method AddFfr(out: AccessList, m: Mnemonic)
    requires out.Valid()
    modifies out, out.regs
    ensures out.Valid()
    ensures out.Entries() == AddAll(old(out.Entries()), out.regs.Length, FfrAdds(FfrAccess(m)))
  {
    var access := FfrAccess(m);
    if !access.NoAccess? {
      out.Add(Ffr, access);
    }
  }

  method AddSmeState(out: AccessList, v: Insn)
    requires out.Valid()
    modifies out, out.regs
    ensures out.Valid()
    ensures out.Entries() == AddAll(old(out.Entries()), out.regs.Length, SmeAdds(v))
  {
    if !SwitchesState(v.mnemonic) {
      return;
    }
    if v.Op(0) == SysOp(Sm) {
      return;
    }
    out.Add(Za, Write);
  }

  method AddPc(out: AccessList, v: Insn)
    requires out.Valid()
    modifies out, out.regs
    ensures out.Valid()
    ensures out.Entries() == AddAll(old(out.Entries()), out.regs.Length, PcAdds(v))
  {
    if AuthReadsPc(v.mnemonic) {
      out.Add(Pc, Read);
      return;
    }
    if v.FlowControlOf() != Next {
      return;
    }
    for i := 0 to |v.ops|
      invariant !LabelBelow(v.ops, i)
      invariant out.Valid() && out.Entries() == old(out.Entries())
    {
      if v.ops[i].Label? {
        LabelBelowMeans(v.ops, |v.ops|);
        out.Add(Pc, Read);
        return;
      }
    }
  }

  lemma SevenParts(es: seq<UsedRegister>, cap: nat, v: Insn)
    ensures AddAll(AddAll(AddAll(AddAll(AddAll(AddAll(AddAll(es, cap, NzcvAdds(v)), cap, LinkAdds(v)), cap,
              AuthAdds(AuthOf(v.mnemonic))), cap, Ls64Adds(v)), cap, FfrAdds(FfrAccess(v.mnemonic))), cap, SmeAdds(v)),
              cap, PcAdds(v))
            == AddAll(es, cap, ImplicitAdds(v))
  {
    var a := NzcvAdds(v);
    var b := a + LinkAdds(v);
    var c := b + AuthAdds(AuthOf(v.mnemonic));
    var d := c + Ls64Adds(v);
    var e := d + FfrAdds(FfrAccess(v.mnemonic));
    var f := e + SmeAdds(v);
    AddAllInParts(es, cap, a, LinkAdds(v));
    AddAllInParts(es, cap, b, AuthAdds(AuthOf(v.mnemonic)));
    AddAllInParts(es, cap, c, Ls64Adds(v));
    AddAllInParts(es, cap, d, FfrAdds(FfrAccess(v.mnemonic)));
    AddAllInParts(es, cap, e, SmeAdds(v));
    AddAllInParts(es, cap, f, PcAdds(v));
  }

  method ImplicitRegisters(v: Insn) returns (out: AccessList)
    ensures fresh(out) && fresh(out.regs) && out.regs.Length == MAX_IMPLICIT_REGS && out.Valid()
    ensures out.Entries() == Listed(v)
  {
    out := new AccessList(MAX_IMPLICIT_REGS);
    AddNzcv(out, v);
    AddLinkRegister(out, v);
    AddPointerAuth(out, v.mnemonic);
    AddLs64Group(out, v);
    AddFfr(out, v.mnemonic);
    AddSmeState(out, v);
    AddPc(out, v);
    SevenParts([], MAX_IMPLICIT_REGS, v);
  }

  // The list implicit_registers returns.
  function Listed(v: Insn): seq<UsedRegister> {
    AddAll([], MAX_IMPLICIT_REGS, ImplicitAdds(v))
  }

  // --- Nothing is dropped. ---

  lemma Ls64Count(v: Insn)
    ensures |Ls64Adds(v)| <= 7 && (Ls64Slot(v.mnemonic).None? ==> Ls64Adds(v) == [])
  {
  }

  lemma Ls64Alone(v: Insn)
    ensures Ls64Slot(v.mnemonic).Some? ==>
              && LinkAdds(v) == [] && AuthAdds(AuthOf(v.mnemonic)) == []
              && FfrAdds(FfrAccess(v.mnemonic)) == [] && SmeAdds(v) == []
  {
  }

  lemma FewOfEach(v: Insn)
    ensures |NzcvAdds(v)| <= 1 && |LinkAdds(v)| <= 1 && |PcAdds(v)| <= 1 && |SmeAdds(v)| <= 1
    ensures |AuthAdds(AuthOf(v.mnemonic))| <= 2 && |FfrAdds(FfrAccess(v.mnemonic))| <= 1
  {
  }

  // For every mnemonic and every operand list, edited ones included, at most nine
  // accesses are added: the guard on the capacity never refuses one.
  lemma AtMostNine(v: Insn)
    ensures |ImplicitAdds(v)| <= 9
  {
    FewOfEach(v);
    Ls64Count(v);
    Ls64Alone(v);
  }

  lemma {:induction false} NamedAtMost(adds: seq<UsedRegister>)
    ensures |Named(adds)| <= |adds|
  {
    if adds == [] {
      assert Named(adds) == {};
    } else {
      var n := |adds| - 1;
      NamedAtMost(adds[..n]);
      NamedSnoc(adds[..n], adds[n]);
      assert adds == adds[..n] + [adds[n]];
    }
  }

  // So the list is the map: duplicate-free, and for every register the join of all its
  // implicit accesses.
  lemma ImplicitIsComplete(v: Insn, r: Register)
    requires !r.NoRegister?
    ensures DuplicateFree(Listed(v)) && |Listed(v)| <= 9 && RegistersIn(Listed(v)) == Named(ImplicitAdds(v))
    ensures AccessOf(Listed(v), r) == JoinOf(ImplicitAdds(v), r)
  {
    AtMostNine(v);
    NamedAtMost(ImplicitAdds(v));
    ListRefinesMap(ImplicitAdds(v), MAX_IMPLICIT_REGS, r);
    ListIsMap(ImplicitAdds(v), MAX_IMPLICIT_REGS, r);
  }

  // --- What is reported, register by register. ---

  lemma {:induction false} JoinOfConcat(a: seq<UsedRegister>, b: seq<UsedRegister>, r: Register)
    ensures JoinOf(a + b, r) == Merge(JoinOf(a, r), JoinOf(b, r))
    decreases |b|
  {
    if b == [] {
      assert a + b == a;
    } else {
      var n := |b| - 1;
      JoinOfConcat(a, b[..n], r);
      JoinOfSnoc(a + b[..n], b[n], r);
      assert a + b == a + b[..n] + [b[n]];
      MergeIsJoin(JoinOf(a, r), JoinOf(b[..n], r), Touch(b[n], r));
    }
  }

  lemma JoinOfOne(u: UsedRegister, r: Register)
    ensures JoinOf([u], r) == Touch(u, r)
  {
    JoinOfSnoc([], u, r);
    assert [] + [u] == [u];
  }

  lemma JoinOfParts(v: Insn, r: Register)
    ensures JoinOf(ImplicitAdds(v), r) ==
            Merge(Merge(Merge(Merge(Merge(Merge(JoinOf(NzcvAdds(v), r), JoinOf(LinkAdds(v), r)),
              JoinOf(AuthAdds(AuthOf(v.mnemonic)), r)), JoinOf(Ls64Adds(v), r)),
              JoinOf(FfrAdds(FfrAccess(v.mnemonic)), r)), JoinOf(SmeAdds(v), r)), JoinOf(PcAdds(v), r))
  {
    var a := NzcvAdds(v);
    var b := a + LinkAdds(v);
    var c := b + AuthAdds(AuthOf(v.mnemonic));
    var d := c + Ls64Adds(v);
    var e := d + FfrAdds(FfrAccess(v.mnemonic));
    var f := e + SmeAdds(v);
    JoinOfConcat(a, LinkAdds(v), r);
    JoinOfConcat(b, AuthAdds(AuthOf(v.mnemonic)), r);
    JoinOfConcat(c, Ls64Adds(v), r);
    JoinOfConcat(d, FfrAdds(FfrAccess(v.mnemonic)), r);
    JoinOfConcat(e, SmeAdds(v), r);
    JoinOfConcat(f, PcAdds(v), r);
  }

  // The group is exactly the registers after its base.
  lemma {:induction false} CompanionsAre(n: Num31, i: bv32, access: OpAccess, r: Register)
    requires n <= 22 && 1 <= i <= 8
    ensures JoinOf(Companions(n, i, access), r) == if r.X? && n + i <= r.x <= n + 7 then access else NoAccess
    decreases 8 - i as int
  {
    if i < 8 {
      NextCompanion(n, i);
      CompanionsAre(n, i + 1, access, r);
      CompanionsJoin(n, i, access, r);
      if r.X? { FirstOrLater(n, i, r.x); }
    }
  }

  lemma CompanionsJoin(n: bv32, i: bv32, access: OpAccess, r: Register)
    requires i < 8
    ensures JoinOf(Companions(n, i, access), r) ==
            Merge(if GpRegister(false, X64, n + i) == r then access else NoAccess,
                  JoinOf(Companions(n, i + 1, access), r))
  {
    var u := UsedRegister(GpRegister(false, X64, n + i), access);
    JoinOfOne(u, r);
    JoinOfConcat([u], Companions(n, i + 1, access), r);
  }

  lemma FirstOrLater(n: Num31, i: bv32, x: Num31)
    requires n <= 22 && 1 <= i <= 7
    ensures n + i <= x <= n + 7 <==> x == n + i || n + (i + 1) <= x <= n + 7
    ensures x == n + i ==> !(n + (i + 1) <= x)
  {
  }

  lemma NextCompanion(n: Num31, i: bv32)
    requires n <= 22 && 1 <= i <= 7
    ensures n + i < 31 && GpRegister(false, X64, n + i) == X(n + i) && n + i <= n + 7 <= 29
    ensures n + (i + 1) == (n + i) + 1
  {
  }

  // The data register of a 64-byte transfer, and how its group is used.
  function GroupOf(v: Insn): Option<(Register, OpAccess)> {
    match Ls64Slot(v.mnemonic)
    case None => None
    case Some((slot, access)) =>
      if v.Op(slot).Reg? && IsGroupBase(v.Op(slot).reg) then Some((v.Op(slot).reg, access)) else None
  }

  lemma GroupAdds(v: Insn)
    ensures Ls64Adds(v) ==
            if GroupOf(v).None? then [] else Companions(Number(GroupOf(v).value.0), 1, GroupOf(v).value.1)
    ensures GroupOf(v).Some? ==> GroupOf(v).value.0.X? && GroupOf(v).value.0.x <= 22
  {
  }

  // Every companion of a 64-byte transfer is one of the seven registers after its
  // data register, all within X1..X29.
  lemma Ls64GroupIs(v: Insn, r: Register)
    ensures var g := GroupOf(v);
            JoinOf(Ls64Adds(v), r) ==
            if g.Some? && r.X? && Number(g.value.0) < r.x <= Number(g.value.0) + 7 then g.value.1 else NoAccess
    ensures !JoinOf(Ls64Adds(v), r).NoAccess? ==> r.X? && 1 <= r.x <= 29
  {
    GroupAdds(v);
    var g := GroupOf(v);
    if g.Some? {
      CompanionsAre(g.value.0.x, 1, g.value.1, r);
    }
  }

  // A list that does not name r says nothing of it.
  lemma Unnamed(adds: seq<UsedRegister>, r: Register)
    requires forall u | u in adds :: u.register != r
    ensures JoinOf(adds, r) == NoAccess
  {
    JoinIsLeast(adds, r, NoAccess);
  }

  lemma NzcvSilent(v: Insn, r: Register)
    requires r != Nzcv
    ensures JoinOf(NzcvAdds(v), r) == NoAccess
  {
    Unnamed(NzcvAdds(v), r);
  }

  lemma LinkSilent(v: Insn, r: Register)
    requires r != LINK
    ensures JoinOf(LinkAdds(v), r) == NoAccess
  {
    Unnamed(LinkAdds(v), r);
  }

  lemma AuthSilent(a: Auth, r: Register)
    requires !r.X? && !r.Sp?
    ensures JoinOf(AuthAdds(a), r) == NoAccess
  {
    Unnamed(AuthAdds(a), r);
  }

  lemma FfrSilent(access: OpAccess, r: Register)
    requires !r.Ffr?
    ensures JoinOf(FfrAdds(access), r) == NoAccess
  {
    Unnamed(FfrAdds(access), r);
  }

  lemma SmeSilent(v: Insn, r: Register)
    requires !r.Za?
    ensures JoinOf(SmeAdds(v), r) == NoAccess
  {
    Unnamed(SmeAdds(v), r);
  }

  lemma PcSilent(v: Insn, r: Register)
    requires !r.Pc?
    ensures JoinOf(PcAdds(v), r) == NoAccess
  {
    Unnamed(PcAdds(v), r);
  }

  // The NZCV entry is the scalar flags: it reads when a condition or a carry is
  // consumed, and writes when the flags are set.
  lemma NzcvEntryIsTheFlags(v: Insn)
    ensures Reads(AccessOf(Listed(v), Nzcv)) == ReadsNzcv(v)
    ensures Writes(AccessOf(Listed(v), Nzcv)) == WritesFlags(v)
  {
    ImplicitIsComplete(v, Nzcv);
    NzcvJoin(v);
    NzcvPart(v);
  }

  predicate Unconditional(a: OpAccess) { !a.CondRead? && !a.CondWrite? }

  lemma NzcvPart(v: Insn)
    ensures var a := JoinOf(NzcvAdds(v), Nzcv);
            Reads(a) == ReadsNzcv(v) && Writes(a) == WritesFlags(v) && Unconditional(a)
  {
    forall u { JoinOfOne(u, Nzcv); }
  }

  lemma NzcvJoin(v: Insn)
    ensures JoinOf(ImplicitAdds(v), Nzcv) == JoinOf(NzcvAdds(v), Nzcv)
  {
    JoinOfParts(v, Nzcv);
    LinkSilent(v, Nzcv);
    AuthSilent(AuthOf(v.mnemonic), Nzcv);
    Ls64GroupIs(v, Nzcv);
    FfrSilent(FfrAccess(v.mnemonic), Nzcv);
    SmeSilent(v, Nzcv);
    PcSilent(v, Nzcv);
  }

  lemma PcJoin(v: Insn)
    ensures JoinOf(ImplicitAdds(v), Pc) == JoinOf(PcAdds(v), Pc)
  {
    JoinOfParts(v, Pc);
    NzcvSilent(v, Pc);
    LinkSilent(v, Pc);
    AuthSilent(AuthOf(v.mnemonic), Pc);
    Ls64GroupIs(v, Pc);
    FfrSilent(FfrAccess(v.mnemonic), Pc);
    SmeSilent(v, Pc);
  }

  lemma PcPart(v: Insn)
    ensures JoinOf(PcAdds(v), Pc) == if ReadsPc(v) then Read else NoAccess
  {
    JoinOfOne(UsedRegister(Pc, Read), Pc);
  }

  // The program counter is an input exactly of the authentications that fold it in and
  // of the instructions that carry a label without transferring control.
  lemma PcEntry(v: Insn)
    ensures AccessOf(Listed(v), Pc) ==
            if AuthReadsPc(v.mnemonic) || (v.FlowControlOf() == Next && v.HasLabel()) then Read else NoAccess
  {
    ImplicitIsComplete(v, Pc);
    PcJoin(v);
    PcPart(v);
    LabelBelowAll(v);
  }

  // The returns that authenticate with PC are not among them.
  lemma SppcReturnSkipsPc(v: Insn)
    requires v.mnemonic == Own(Code.Retaasppc) || v.mnemonic == Own(Code.Retabsppc)
    ensures AccessOf(Listed(v), Pc) == NoAccess
  {
    SppcReturns(v);
    PcEntry(v);
  }

  lemma SppcReturns(v: Insn)
    requires v.mnemonic == Own(Code.Retaasppc) || v.mnemonic == Own(Code.Retabsppc)
    ensures v.FlowControlOf() == Return && !AuthReadsPc(v.mnemonic)
  {
  }

  predicate Transfers(c: FlowControl) { c.Call? || c.IndirectCall? || c.Return? }

  lemma TransfersAuthenticateNothing(v: Insn)
    requires Transfers(v.FlowControlOf())
    ensures AuthOf(v.mnemonic) == UseSp || AuthOf(v.mnemonic) == NoAuth
  {
  }

  lemma LinkJoin(v: Insn)
    requires AuthOf(v.mnemonic) == UseSp || AuthOf(v.mnemonic) == NoAuth
    ensures JoinOf(ImplicitAdds(v), LINK) == JoinOf(LinkAdds(v), LINK)
  {
    JoinOfParts(v, LINK);
    NzcvSilent(v, LINK);
    JoinOfOne(UsedRegister(Sp, Read), LINK);
    Ls64GroupIs(v, LINK);
    FfrSilent(FfrAccess(v.mnemonic), LINK);
    SmeSilent(v, LINK);
    PcSilent(v, LINK);
  }

  // Every call writes the link register; every return that goes through it without
  // naming it reads it; neither does anything else to it.
  lemma LinkEntry(v: Insn)
    requires Transfers(v.FlowControlOf())
    ensures AccessOf(Listed(v), LINK) ==
            if !v.FlowControlOf().Return? then Write else if ReturnsThroughLink(v) then Read else NoAccess
  {
    ImplicitIsComplete(v, LINK);
    TransfersAuthenticateNothing(v);
    LinkJoin(v);
    LinkPart(v);
  }

  lemma LinkPart(v: Insn)
    requires Transfers(v.FlowControlOf())
    ensures JoinOf(LinkAdds(v), LINK) ==
            if !v.FlowControlOf().Return? then Write else if ReturnsThroughLink(v) then Read else NoAccess
  {
    JoinOfOne(UsedRegister(LINK, Read), LINK);
    JoinOfOne(UsedRegister(LINK, Write), LINK);
  }
}
