/** Exactly what the implicit list says, register by register, by the name of the
    instruction. */
module ImplicitLaws {
  import opened Isa
  import opened Instructions
  import opened Access
  import opened Implicit

  // --- Names. ---

  predicate Is1716(m: Mnemonic) { m.Pacia1716? || m.Pacib1716? || m.Autia1716? || m.Autib1716? }

  predicate SignsLinkBySp(m: Mnemonic) {
    || m.Paciasp? || m.Pacibsp? || m.Autiasp? || m.Autibsp?
    || (m.OtherMnemonic? && m.id in {PACIASPPC, PACIBSPPC, PACNBIASPPC, PACNBIBSPPC, AUTIASPPC, AUTIBSPPC,
                                     AUTIASPPCR, AUTIBSPPCR})
  }

  // By zero, or stripping the signature.
  predicate SignsLinkByZero(m: Mnemonic) {
    m.Paciaz? || m.Pacibz? || m.Autiaz? || m.Autibz? || m.Xpaclri?
  }

  predicate IsSignedLinkReturn(m: Mnemonic) {
    || m == Own(Code.Retaa) || m == Own(Code.Retab) || m == Own(Code.Retaasppc) || m == Own(Code.Retabsppc)
    || m == Own(Code.Retaasppcr) || m == Own(Code.Retabsppcr)
  }

  predicate IsSignedReturn(m: Mnemonic) {
    IsSignedLinkReturn(m) || m == Own(Code.Eretaa) || m == Own(Code.Eretab)
  }

  // BL, and BLR with or without authentication.
  predicate IsCall(m: Mnemonic) {
    || m == Own(Code.BlImm) || m == Own(Code.Blr) || m == Own(Code.Blraa) || m == Own(Code.Blraaz)
    || m == Own(Code.Blrab) || m == Own(Code.Blrabz)
  }

  predicate LoadsFirstFault(m: Mnemonic) {
    m.OtherMnemonic? && m.id in {LDFF1B, LDFF1H, LDFF1W, LDFF1D, LDFF1SB, LDFF1SH, LDFF1SW}
  }

  predicate LoadsNonFault(m: Mnemonic) {
    m.OtherMnemonic? && m.id in {LDNF1B, LDNF1H, LDNF1W, LDNF1D, LDNF1SB, LDNF1SH, LDNF1SW}
  }

  predicate FoldsPc(m: Mnemonic) {
    m.OtherMnemonic? && m.id in {PACIASPPC, PACIBSPPC, PACNBIASPPC, PACNBIBSPPC, AUTIASPPC, AUTIBSPPC}
  }

  predicate ConsumesCarry(m: Mnemonic) {
    || (m.OtherMnemonic? && m.id in {ADC, ADCS, SBC, SBCS, NGC, NGCS, CSEL, CSINC, CSINV, CSNEG, CINC, CINV, CNEG,
                                     CSET, CSETM, CCMP, CCMN, FCSEL, RMIF, SETF8, SETF16})
    || m == Own(Code.Cfinv) || m == Own(Code.Xaflag) || m == Own(Code.Axflag)
  }

  predicate LeavesFlags(m: Mnemonic) {
    || (m.OtherMnemonic? && m.id in {ADDS, SUBS, ADCS, SBCS, ANDS, BICS, NEGS, NGCS, CMP, CMN, TST, CCMP, CCMN, FCMP,
                                     FCMPE, FCCMP, FCCMPE, RMIF, SETF8, SETF16, RDFFRS})
    || m == Own(Code.Cfinv) || m == Own(Code.Xaflag) || m == Own(Code.Axflag)
  }

  // Whether Xx is one of the seven registers after the base that a slot holds.
  predicate InGroup(op: Operand, x: Num31) {
    op.Reg? && op.reg.X? && op.reg.x & 1 == 0 && op.reg.x <= 22 && op.reg.x < x <= op.reg.x + 7
  }

  // --- One rule at a time. ---

  lemma AuthIs(m: Mnemonic)
    ensures AuthOf(m) == if SignsLinkBySp(m) then SignLinkBySp
                         else if SignsLinkByZero(m) then SignLink
                         else if Is1716(m) then Sign1716
                         else if IsSignedReturn(m) then UseSp
                         else NoAuth
  {
  }

  lemma AuthTells(m: Mnemonic, r: Register)
    ensures JoinOf(AuthAdds(AuthOf(m)), r) ==
            if (SignsLinkBySp(m) || SignsLinkByZero(m)) && r == X(30) then ReadWrite
            else if (SignsLinkBySp(m) || IsSignedReturn(m)) && r == Sp then Read
            else if Is1716(m) && r == X(17) then ReadWrite
            else if Is1716(m) && r == X(16) then Read
            else NoAccess
  {
    AuthIs(m);
    AuthAddsTell(AuthOf(m), r);
  }

  lemma AuthAddsTell(a: Auth, r: Register)
    ensures JoinOf(AuthAdds(a), r) ==
            if (a.SignLinkBySp? || a.SignLink?) && r == X(30) then ReadWrite
            else if (a.SignLinkBySp? || a.UseSp?) && r == Sp then Read
            else if a.Sign1716? && r == X(17) then ReadWrite
            else if a.Sign1716? && r == X(16) then Read
            else NoAccess
  {
    if a.SignLinkBySp? {
      JoinOfTwo(UsedRegister(X(30), ReadWrite), UsedRegister(Sp, Read), r);
    } else if a.Sign1716? {
      JoinOfTwo(UsedRegister(X(17), ReadWrite), UsedRegister(X(16), Read), r);
    } else {
      JoinOfOne(UsedRegister(X(30), ReadWrite), r);
      JoinOfOne(UsedRegister(Sp, Read), r);
    }
  }

  lemma JoinOfTwo(a: UsedRegister, b: UsedRegister, r: Register)
    ensures JoinOf([a, b], r) == Merge(Touch(a, r), Touch(b, r))
  {
    JoinOfOne(a, r);
    JoinOfSnoc([a], b, r);
    assert [a] + [b] == [a, b];
  }

  lemma CallsAre(v: Insn)
    ensures v.FlowControlOf().Call? || v.FlowControlOf().IndirectCall? <==> IsCall(v.mnemonic)
  {
  }

  lemma LinkReturnsAre(v: Insn)
    ensures v.FlowControlOf().Return? && ReturnsThroughLink(v) <==>
            (v.mnemonic == Own(Code.Ret) && v.ops == []) || IsSignedLinkReturn(v.mnemonic)
  {
  }

  lemma LinkTells(v: Insn)
    ensures JoinOf(LinkAdds(v), X(30)) ==
            if IsCall(v.mnemonic) then Write
            else if (v.mnemonic == Own(Code.Ret) && v.ops == []) || IsSignedLinkReturn(v.mnemonic) then Read
            else NoAccess
  {
    CallsAre(v);
    LinkReturnsAre(v);
    forall u { JoinOfOne(u, LINK); }
  }

  lemma GroupSlot(v: Insn, slot: nat, x: Num31)
    requires Ls64Slot(v.mnemonic).Some? && Ls64Slot(v.mnemonic).value.0 == slot
    ensures GroupOf(v).Some? && Number(GroupOf(v).value.0) < x <= Number(GroupOf(v).value.0) + 7 <==>
            InGroup(v.Op(slot), x)
    ensures GroupOf(v).Some? ==> GroupOf(v).value.1 == Ls64Slot(v.mnemonic).value.1
  {
  }

  lemma GroupTells(v: Insn, x: Num31)
    ensures JoinOf(Ls64Adds(v), X(x)) ==
            if v.mnemonic == OtherMnemonic(LD64B) && InGroup(v.Op(0), x) then Write
            else if v.mnemonic == OtherMnemonic(ST64B) && InGroup(v.Op(0), x) then Read
            else if (v.mnemonic == OtherMnemonic(ST64BV) || v.mnemonic == OtherMnemonic(ST64BV0))
                    && InGroup(v.Op(1), x) then Read
            else NoAccess
  {
    Ls64GroupIs(v, X(x));
    var slot := Ls64Slot(v.mnemonic);
    if slot.Some? { GroupSlot(v, slot.value.0, x); }
  }

  // Only these rules speak of a general register.
  lemma GeneralJoin(v: Insn, r: Register)
    requires r.X? || r.Sp?
    ensures JoinOf(ImplicitAdds(v), r) ==
            Merge(Merge(JoinOf(LinkAdds(v), r), JoinOf(AuthAdds(AuthOf(v.mnemonic)), r)), JoinOf(Ls64Adds(v), r))
  {
    JoinOfParts(v, r);
    NzcvSilent(v, r);
    FfrSilent(FfrAccess(v.mnemonic), r);
    SmeSilent(v, r);
    PcSilent(v, r);
  }

  // --- The entry of every register. ---

  // The stack pointer: the modifier of the signing forms and of the signed returns.
  lemma SpEntry(v: Insn)
    ensures AccessOf(Listed(v), Sp) ==
            if SignsLinkBySp(v.mnemonic) || IsSignedReturn(v.mnemonic) then Read else NoAccess
  {
    ImplicitIsComplete(v, Sp);
    GeneralJoin(v, Sp);
    LinkSilent(v, Sp);
    AuthTells(v.mnemonic, Sp);
    Ls64GroupIs(v, Sp);
  }

  // X30: signed, stripped or authenticated in place, written by a call, and read by a
  // return that does not name it.
  lemma LinkRegisterEntry(v: Insn)
    ensures AccessOf(Listed(v), X(30)) ==
            if SignsLinkBySp(v.mnemonic) || SignsLinkByZero(v.mnemonic) then ReadWrite
            else if IsCall(v.mnemonic) then Write
            else if (v.mnemonic == Own(Code.Ret) && v.ops == []) || IsSignedLinkReturn(v.mnemonic) then Read
            else NoAccess
  {
    ImplicitIsComplete(v, X(30));
    GeneralJoin(v, X(30));
    LinkTells(v);
    AuthTells(v.mnemonic, X(30));
    Ls64GroupIs(v, X(30));
  }

  // Every other general register: X17 and its modifier X16, and the groups of eight.
  lemma GeneralEntry(v: Insn, x: Num31)
    requires x != 30
    ensures AccessOf(Listed(v), X(x)) ==
            if Is1716(v.mnemonic) && x == 17 then ReadWrite
            else if Is1716(v.mnemonic) && x == 16 then Read
            else if v.mnemonic == OtherMnemonic(LD64B) && InGroup(v.Op(0), x) then Write
            else if v.mnemonic == OtherMnemonic(ST64B) && InGroup(v.Op(0), x) then Read
            else if (v.mnemonic == OtherMnemonic(ST64BV) || v.mnemonic == OtherMnemonic(ST64BV0))
                    && InGroup(v.Op(1), x) then Read
            else NoAccess
  {
    ImplicitIsComplete(v, X(x));
    GeneralJoin(v, X(x));
    LinkSilent(v, X(x));
    AuthTells(v.mnemonic, X(x));
    GroupTells(v, x);
  }

  lemma FfrTells(m: Mnemonic)
    ensures FfrAccess(m) ==
            if LoadsFirstFault(m) then ReadWrite
            else if LoadsNonFault(m) || m == OtherMnemonic(RDFFR) || m == OtherMnemonic(RDFFRS) then Read
            else if m == OtherMnemonic(SETFFR) || m == OtherMnemonic(WRFFR) then Write
            else NoAccess
  {
  }

  // The first-fault register.
  lemma FfrEntry(v: Insn)
    ensures AccessOf(Listed(v), Ffr) ==
            if LoadsFirstFault(v.mnemonic) then ReadWrite
            else if LoadsNonFault(v.mnemonic) || v.mnemonic == OtherMnemonic(RDFFR)
                    || v.mnemonic == OtherMnemonic(RDFFRS) then Read
            else if v.mnemonic == OtherMnemonic(SETFFR) || v.mnemonic == OtherMnemonic(WRFFR) then Write
            else NoAccess
  {
    FfrTells(v.mnemonic);
    ImplicitIsComplete(v, Ffr);
    JoinOfParts(v, Ffr);
    NzcvSilent(v, Ffr);
    LinkSilent(v, Ffr);
    AuthSilent(AuthOf(v.mnemonic), Ffr);
    Ls64GroupIs(v, Ffr);
    JoinOfOne(UsedRegister(Ffr, FfrAccess(v.mnemonic)), Ffr);
    SmeSilent(v, Ffr);
    PcSilent(v, Ffr);
  }

  lemma ZaTells(v: Insn)
    ensures JoinOf(SmeAdds(v), Za) ==
            if (v.mnemonic == Own(Code.Smstart) || v.mnemonic == Own(Code.Smstop)) && v.Op(0) != SysOp(Sm) then Write
            else NoAccess
  {
    JoinOfOne(UsedRegister(Za, Write), Za);
  }

  // The ZA array: entering or leaving streaming mode alone does not touch it.
  lemma ZaEntry(v: Insn)
    ensures AccessOf(Listed(v), Za) ==
            if (v.mnemonic == Own(Code.Smstart) || v.mnemonic == Own(Code.Smstop)) && v.Op(0) != SysOp(Sm) then Write
            else NoAccess
  {
    ImplicitIsComplete(v, Za);
    JoinOfParts(v, Za);
    NzcvSilent(v, Za);
    LinkSilent(v, Za);
    AuthSilent(AuthOf(v.mnemonic), Za);
    Ls64GroupIs(v, Za);
    FfrSilent(FfrAccess(v.mnemonic), Za);
    ZaTells(v);
    PcSilent(v, Za);
  }

  // The program counter, by name.
  lemma PcEntryByName(v: Insn)
    ensures AccessOf(Listed(v), Pc) ==
            if FoldsPc(v.mnemonic) || (v.FlowControlOf() == Next && v.HasLabel()) then Read else NoAccess
  {
    PcEntry(v);
  }

  lemma FlagsRead(v: Insn)
    ensures ReadsNzcv(v) <==> v.ConditionOf().Some? || ConsumesCarry(v.mnemonic)
  {
  }

  lemma FlagsWritten(v: Insn)
    ensures WritesFlags(v) <==> LeavesFlags(v.mnemonic)
  {
  }

  // What an instruction does to the flags, by name.
  lemma EffectByName(m: Mnemonic)
    ensures FlagEffectFor(m).SetsNormal? <==>
            m.OtherMnemonic? && m.id in {ADDS, SUBS, ADCS, SBCS, ANDS, BICS, NEGS, NGCS, CMP, CMN, TST, CCMP, CCMN}
    ensures FlagEffectFor(m).SetsFloat? <==> m.OtherMnemonic? && m.id in {FCMP, FCMPE, FCCMP, FCCMPE}
    ensures FlagEffectFor(m).Sets? <==>
            || (m.OtherMnemonic? && m.id in {RMIF, SETF8, SETF16, RDFFRS})
            || m == Own(Code.Cfinv) || m == Own(Code.Xaflag) || m == Own(Code.Axflag)
  {
  }

  // The flags, by name.
  lemma NzcvEntry(v: Insn)
    ensures var read := v.ConditionOf().Some? || ConsumesCarry(v.mnemonic);
            AccessOf(Listed(v), Nzcv) ==
            if LeavesFlags(v.mnemonic) then (if read then ReadWrite else Write) else if read then Read else NoAccess
  {
    ImplicitIsComplete(v, Nzcv);
    NzcvJoin(v);
    FlagsRead(v);
    FlagsWritten(v);
    forall u { JoinOfOne(u, Nzcv); }
  }

  // And no register besides.
  lemma NothingElse(v: Insn, r: Register)
    requires !r.X? && !r.Sp? && !r.Nzcv? && !r.Ffr? && !r.Za? && !r.Pc? && !r.NoRegister?
    ensures AccessOf(Listed(v), r) == NoAccess
  {
    ImplicitIsComplete(v, r);
    JoinOfParts(v, r);
    NzcvSilent(v, r);
    LinkSilent(v, r);
    AuthSilent(AuthOf(v.mnemonic), r);
    Ls64GroupIs(v, r);
    FfrSilent(FfrAccess(v.mnemonic), r);
    SmeSilent(v, r);
    PcSilent(v, r);
  }
}
