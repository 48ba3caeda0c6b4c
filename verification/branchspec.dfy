/** The branch, exception and system group (section C4.1 of the Arm ARM, DDI 0487): the
    instruction each word denotes, class by class, as functions of the fields and of the
    accepted extensions. Encodings are grouped by meaning (plain and signed branches, hints
    by what names them, moves by direction); `branchdecode.dfy` has the decode tree of
    `src/decode/branch_sys.rs` in its own order of tests and arms, and proves that it
    computes these functions. */
module BranchSpec {
  import opened Wrappers
  import opened Ints
  import opened Fields
  import opened Features
  import opened Isa
  import opened Instructions

  // The SYS/SYSL alias directory, by (read, op1, CRn, CRm, op2).
  datatype SysEntry = SysEntry(mnem: Mnemonic, name: Option<Keyword>, needsRt: bool, kwFirst: bool)
  type SysTable = (bool, bv32, bv32, bv32, bv32) -> Option<SysEntry>

  // Which extensions are accepted: FeatureSet.has, or any other predicate on them.
  type Gate = Feature -> bool

  // --- Immediate branches. ---

  function CondBranch(word: bv32, f: Gate, v: Insn): Insn {
    if Bit(word, 24) != 0 then RetSppc(word, f, v)
    else if Bit(word, 4) == 0 then CondTarget(word, v.Set(Code.BCond))
    else if f(Feature.Hbc) then CondTarget(word, v.Set(Code.BcCond))
    else v
  }

  function RetSppc(word: bv32, f: Gate, v: Insn): Insn {
    if !f(Feature.PauthLr) || Bits(word, 22, 2) != 0 || Bits(word, 0, 5) != 31 then v
    else SppcTarget(word, v.Set(if Bit(word, 21) == 1 then Code.Retabsppc else Code.Retaasppc))
  }

  function CondTarget(word: bv32, v: Insn): Insn {
    v.Push(Operand.Cond(ConditionFromU4(Bits(word, 0, 4)))).Push(LabelAt(v.ip, word, Imm19))
  }

  // The backward target ip - (imm16:00).
  function SppcTarget(word: bv32, v: Insn): Insn {
    v.Push(Label(Sub(v.ip, 4 * (Field16(word) as int))))
  }

  // The immediate field of each span, and the label it resolves to.
  function Field16(word: bv32): bv16 { Bits(word, 5, 16) as bv16 }
  function Field26(word: bv32): bv26 { Bits(word, 0, 26) as bv26 }
  function Field19(word: bv32): bv19 { Bits(word, 5, 19) as bv19 }
  function Field14(word: bv32): bv14 { Bits(word, 5, 14) as bv14 }
  function Field9(word: bv32): bv9 { Bits(word, 5, 9) as bv9 }

  function ImmField(word: bv32, s: Span): (imm: nat)
    ensures imm < 2 * Half(s)
  {
    match s
    case Imm26 => Field26(word) as int
    case Imm19 => Field19(word) as int
    case Imm14 => Field14(word) as int
    case Imm9 => Field9(word) as int
  }

  // The same field as bits of the word.
  function ImmBits(word: bv32, s: Span): bv32 {
    match s
    case Imm26 => Bits(word, 0, 26)
    case Imm19 => Bits(word, 5, 19)
    case Imm14 => Bits(word, 5, 14)
    case Imm9 => Bits(word, 5, 9)
  }

  function LabelAt(ip: U64, word: bv32, s: Span): Operand {
    Label(Target(ip, ImmField(word, s), s))
  }

  function WidthOf(sf: bv32): RegWidth {
    if sf == 1 then X64 else W32
  }

  function CompareBranchCode(op: bv32, sf: bv32): Code {
    if op == 0 then (if sf == 0 then Code.Cbz32 else Code.Cbz64)
    else (if sf == 0 then Code.Cbnz32 else Code.Cbnz64)
  }

  function CompareBranch(word: bv32, v: Insn): Insn {
    v.Set(CompareBranchCode(Bit(word, 24), Bit(word, 31)))
     .Push(PlainReg(false, WidthOf(Bit(word, 31)), Bits(word, 0, 5)))
     .Push(LabelAt(v.ip, word, Imm19))
  }

  // b5:b40, the bit a TBZ or TBNZ tests.
  function BitPosition(word: bv32): bv32 {
    (Bit(word, 31) << 5) | Bits(word, 19, 5)
  }

  function TestBranch(word: bv32, v: Insn): Insn {
    v.Set(if Bit(word, 24) == 1 then Code.Tbnz else Code.Tbz)
     .Push(PlainReg(false, WidthOf(Bit(word, 31)), Bits(word, 0, 5)))
     .Push(ImmUnsigned(BitPosition(word) as int))
     .Push(LabelAt(v.ip, word, Imm14))
  }

  // FEAT_CMPBR: the encoding a size and condition field name, if any.
  function CmpbrRegCode(size: bv32, cc: bv32): Option<Code> {
    if size == 0 then
      if cc == 0 then Some(Code.Cbgt)
      else if cc == 1 then Some(Code.Cbge)
      else if cc == 2 then Some(Code.Cbhi)
      else if cc == 3 then Some(Code.Cbhs)
      else if cc == 6 then Some(Code.Cbeq)
      else if cc == 7 then Some(Code.Cbne)
      else None
    else if size == 2 then
      if cc == 0 then Some(Code.Cbbgt)
      else if cc == 1 then Some(Code.Cbbge)
      else if cc == 2 then Some(Code.Cbbhi)
      else if cc == 3 then Some(Code.Cbbhs)
      else if cc == 6 then Some(Code.Cbbeq)
      else if cc == 7 then Some(Code.Cbbne)
      else None
    else if size == 3 then
      if cc == 0 then Some(Code.Cbhgt)
      else if cc == 1 then Some(Code.Cbhge)
      else if cc == 2 then Some(Code.Cbhhi)
      else if cc == 3 then Some(Code.Cbhhs)
      else if cc == 6 then Some(Code.Cbheq)
      else if cc == 7 then Some(Code.Cbhne)
      else None
    else None
  }

  function CmpbrImmCode(cc: bv32): Option<Code> {
    if cc == 0 then Some(Code.Cbgt)
    else if cc == 1 then Some(Code.Cblt)
    else if cc == 2 then Some(Code.Cbhi)
    else if cc == 3 then Some(Code.Cblo)
    else if cc == 6 then Some(Code.Cbeq)
    else if cc == 7 then Some(Code.Cbne)
    else None
  }

  function CmpbrOf(word: bv32, f: Gate, v: Insn): Insn {
    if !f(Feature.Cmpbr) then v
    else if Bit(word, 24) == 0 then CmpbrReg(word, v)
    else CmpbrImm(word, v)
  }

  // Byte and halfword compares are W-only.
  function CmpbrReg(word: bv32, v: Insn): Insn {
    var sf, size := Bit(word, 31), Bits(word, 14, 2);
    var code := CmpbrRegCode(size, Bits(word, 21, 3));
    if code.None? || (size != 0 && sf == 1) then v
    else v.Set(code.value)
          .Push(PlainReg(false, WidthOf(sf), Bits(word, 0, 5)))
          .Push(PlainReg(false, WidthOf(sf), Bits(word, 16, 5)))
          .Push(LabelAt(v.ip, word, Imm9))
  }

  function CmpbrImm(word: bv32, v: Insn): Insn {
    var code := CmpbrImmCode(Bits(word, 21, 3));
    if Bit(word, 14) != 0 || code.None? then v
    else v.Set(code.value)
          .Push(PlainReg(false, WidthOf(Bit(word, 31)), Bits(word, 0, 5)))
          .Push(ImmUnsigned(Bits(word, 15, 6) as int))
          .Push(LabelAt(v.ip, word, Imm9))
  }

  function UncondBranchImm(word: bv32, v: Insn): Insn {
    v.Set(if Bit(word, 31) == 1 then Code.BlImm else Code.BUncond).Push(LabelAt(v.ip, word, Imm26))
  }

  // --- Register branches. ---

  // The plain forms. RET leaves X30 out.
  function PlainBranch(opc: bv32, rn: bv32, v: Insn): Insn {
    if opc == 0 then v.Set(Code.Br).Push(XReg(false, rn))
    else if opc == 1 then v.Set(Code.Blr).Push(XReg(false, rn))
    else if opc == 2 && rn == 30 then v.Set(Code.Ret)
    else if opc == 2 then v.Set(Code.Ret).Push(XReg(false, rn))
    else if opc == 4 && rn == 31 then v.Set(Code.Eret)
    else if opc == 5 && rn == 31 then v.Set(Code.Drps)
    else v
  }

  // The signed forms of one key, with a zero modifier (op4 == 31) or a register.
  function SignedBranch(opc: bv32, keyA: bool, rn: bv32, op4: bv32, f: Gate, v: Insn): Insn {
    if opc == 2 then SignedReturn(keyA, rn, op4, f, v)
    else if !f(Feature.PAuth) then v
    else if opc == 0 && op4 == 31 then v.Set(if keyA then Code.Braaz else Code.Brabz).Push(XReg(false, rn))
    else if opc == 1 && op4 == 31 then v.Set(if keyA then Code.Blraaz else Code.Blrabz).Push(XReg(false, rn))
    else if opc == 4 && op4 == 31 && rn == 31 then v.Set(if keyA then Code.Eretaa else Code.Eretab)
    else if opc == 8 then v.Set(if keyA then Code.Braa else Code.Brab).Push(XReg(false, rn)).Push(XReg(true, op4))
    else if opc == 9 then v.Set(if keyA then Code.Blraa else Code.Blrab).Push(XReg(false, rn)).Push(XReg(true, op4))
    else v
  }

  function SignedReturn(keyA: bool, rn: bv32, op4: bv32, f: Gate, v: Insn): Insn {
    if rn != 31 then v
    else if op4 == 31 then
      if f(Feature.PAuth) then v.Set(if keyA then Code.Retaa else Code.Retab) else v
    else if f(Feature.PauthLr) then
      v.Set(if keyA then Code.Retaasppcr else Code.Retabsppcr).Push(XReg(false, op4))
    else v
  }

  function RegBranchBy(opc: bv32, op3: bv32, rn: bv32, op4: bv32, f: Gate, v: Insn): Insn {
    if op3 == 0 && op4 == 0 then PlainBranch(opc, rn, v)
    else if op3 == 2 || op3 == 3 then SignedBranch(opc, op3 == 2, rn, op4, f, v)
    else v
  }

  function UncondBranchReg(word: bv32, f: Gate, v: Insn): Insn {
    if Bits(word, 16, 5) != 31 then v
    else RegBranchBy(Bits(word, 21, 4), Bits(word, 10, 6), Bits(word, 5, 5), Bits(word, 0, 5), f, v)
  }

  // --- Exceptions. ---

  function ExceptionGen(word: bv32, f: Gate, v: Insn): Insn {
    if Bits(word, 2, 3) != 0 then v
    else ExceptionBy(Bits(word, 21, 3), Bits(word, 0, 2), Bits(word, 5, 16), f, v)
  }

  function ExceptionBy(opc: bv32, ll: bv32, imm16: bv32, f: Gate, v: Insn): Insn {
    var imm := ImmUnsigned(imm16 as int);
    if opc == 0 && ll == 1 then v.Set(Code.Svc).Push(imm)
    else if opc == 0 && ll == 2 then v.Set(Code.Hvc).Push(imm)
    else if opc == 0 && ll == 3 then v.Set(Code.Smc).Push(imm)
    else if opc == 1 && ll == 0 then v.Set(Code.Brk).Push(imm)
    else if opc == 2 && ll == 0 then v.Set(Code.Hlt).Push(imm)
    else if opc == 3 && ll == 0 && f(Feature.Tme) then v.Set(Code.Tcancel).Push(imm)
    else if opc == 7 && ll == 0 && f(Feature.Tev) then TenterOf(imm16, v)
    else if opc == 5 && ll == 1 then OptionalImm(v.Set(Code.Dcps1), imm16)
    else if opc == 5 && ll == 2 then OptionalImm(v.Set(Code.Dcps2), imm16)
    else if opc == 5 && ll == 3 then OptionalImm(v.Set(Code.Dcps3), imm16)
    else v
  }

  // Only imm16<6:0> and the nb bit imm16<12> are defined.
  function TenterOf(imm16: bv32, v: Insn): Insn {
    if imm16 & 0xef80 != 0 then v
    else WithNb(v.Set(Code.Tenter).Push(ImmUnsigned((imm16 & 0x7f) as int)), imm16 & 0x1000 != 0)
  }

  function OptionalImm(v: Insn, imm16: bv32): Insn {
    if imm16 == 0 then v else v.Push(ImmUnsigned(imm16 as int))
  }

  function TchangeOf(word: bv32, f: Gate, v: Insn): Insn {
    var rt, backward, nb := XReg(false, Bits(word, 0, 5)), Bit(word, 18) == 1, Bit(word, 17) == 1;
    if !f(Feature.Tchange) || Bit(word, 21) != 0 || Bit(word, 16) != 0 || Bits(word, 12, 4) != 0 then v
    else if Bits(word, 19, 2) == 0 && Bits(word, 10, 2) == 0 then
      WithNb(v.Set(if backward then Code.TchangebReg else Code.TchangefReg)
              .Push(rt).Push(XReg(false, Bits(word, 5, 5))), nb)
    else if Bits(word, 19, 2) == 2 then
      WithNb(v.Set(if backward then Code.TchangebImm else Code.TchangefImm)
              .Push(rt).Push(ImmUnsigned(Bits(word, 5, 7) as int)), nb)
    else v
  }

  function WithNb(v: Insn, nb: bool): Insn {
    if nb then v.Push(SysOp(Keyword.Nb)) else v
  }

  // --- System instructions, by their fields. ---

  datatype SysFields = SysFields(read: bool, op0: bv32, op1: bv32, crn: bv32, crm: bv32, op2: bv32, rt: bv32)

  function FieldsOf(word: bv32): SysFields {
    SysFields(Bit(word, 21) == 1, Bits(word, 19, 2), Bits(word, 16, 3), Bits(word, 12, 4),
              Bits(word, 8, 4), Bits(word, 5, 3), Bits(word, 0, 5))
  }

  // SystemReg::from_fields.
  function SysRegOf(op0: bv32, op1: bv32, crn: bv32, crm: bv32, op2: bv32): bv32 {
    ((op0 & 3) << 14) | ((op1 & 7) << 11) | ((crn & 15) << 7) | ((crm & 15) << 3) | (op2 & 7)
  }

  function SysRegMove(s: SysFields, v: Insn): Insn {
    var sr := SysReg(SysRegOf(s.op0, s.op1, s.crn, s.crm, s.op2));
    if s.read then v.Set(Code.Mrs).Push(XReg(false, s.rt)).Push(sr)
    else v.Set(Code.MsrReg).Push(sr).Push(XReg(false, s.rt))
  }

  // MSR (immediate) field names, by (op1, op2).
  function PstateField(op1: bv32, op2: bv32, crm: bv32): Option<Keyword> {
    if op1 == 0 && op2 == 3 then Some(Keyword.Uao)
    else if op1 == 0 && op2 == 5 then Some(Keyword.Spsel)
    else if op1 == 3 && op2 == 1 && crm <= 1 then Some(Keyword.Ssbs)
    else if op1 == 3 && op2 == 2 then Some(Keyword.Dit)
    else if op1 == 3 && op2 == 4 then Some(Keyword.Tco)
    else if op1 == 3 && op2 == 6 then Some(Keyword.DaifSet)
    else if op1 == 3 && op2 == 7 then Some(Keyword.DaifClr)
    else if op1 == 1 && op2 == 0 then Some(Keyword.Allint)
    else None
  }

  // CRm is -:ZA:SM:start; naming both of ZA and SM, or neither, leaves the option out.
  function SmstartOf(crm: bv32, v: Insn): Insn {
    var start := v.Set(if crm & 1 != 0 then Code.Smstart else Code.Smstop);
    if crm & 6 == 2 then start.Push(SysOp(Keyword.Sm))
    else if crm & 6 == 4 then start.Push(SysOp(Keyword.ZaOption))
    else start
  }

  function MsrImmediate(s: SysFields, v: Insn): Insn {
    if s.rt != 31 then v
    else if s.op1 == 3 && s.op2 == 3 then
      SmstartOf(s.crm, v)
    else if s.op1 == 0 && s.op2 == 0 then v.Set(Code.Cfinv)
    else if s.op1 == 0 && s.op2 == 1 then v.Set(Code.Xaflag)
    else if s.op1 == 0 && s.op2 == 2 then v.Set(Code.Axflag)
    else
      match PstateField(s.op1, s.op2, s.crm)
      case Some(field) =>
        v.Set(Code.MsrImm).SetAlias(Mnemonic.Msr).Push(SysOp(field)).Push(ImmUnsigned(s.crm as int))
      case None =>
        v.Set(Code.MsrReg).Push(SysReg(SysRegOf(0, s.op1, 4, s.crm, s.op2))).Push(XReg(false, 31))
  }

  // The PAuth hints, and the alias each is written as.
  predicate IsPauthHint(sel: bv32) {
    sel == 7 || sel == 8 || sel == 10 || sel == 12 || sel == 14 || 24 <= sel <= 31 || sel == 39
  }

  function PauthHint(sel: bv32): Mnemonic {
    if sel == 7 then Mnemonic.Xpaclri
    else if sel == 8 then Mnemonic.Pacia1716
    else if sel == 10 then Mnemonic.Pacib1716
    else if sel == 12 then Mnemonic.Autia1716
    else if sel == 14 then Mnemonic.Autib1716
    else if sel == 24 then Mnemonic.Paciaz
    else if sel == 25 then Mnemonic.Paciasp
    else if sel == 26 then Mnemonic.Pacibz
    else if sel == 27 then Mnemonic.Pacibsp
    else if sel == 28 then Mnemonic.Autiaz
    else if sel == 29 then Mnemonic.Autiasp
    else if sel == 30 then Mnemonic.Autibz
    else if sel == 31 then Mnemonic.Autibsp
    else Mnemonic.Pacm
  }

  // The hints that are always named and take no operand.
  predicate IsPlainHint(sel: bv32) {
    sel <= 5 || sel == 16 || sel == 20
  }

  function PlainHint(sel: bv32, v: Insn): Insn
    requires IsPlainHint(sel)
  {
    if sel == 0 then v.Set(Code.Nop)
    else if sel == 1 then v.Set(Code.Yield)
    else if sel == 2 then v.Set(Code.Wfe)
    else if sel == 3 then v.Set(Code.Wfi)
    else if sel == 4 then v.Set(Code.Sev)
    else if sel == 5 then v.Set(Code.Sevl)
    else if sel == 16 then v.Set(Code.Esb)
    else v.Set(Code.Csdb)
  }

  function HintOf(s: SysFields, f: Gate, v: Insn): Insn {
    if s.rt != 31 then v else HintBy((s.crm << 3) | s.op2, s.crm, s.op2, f, v)
  }

  function HintBy(sel: bv32, crm: bv32, op2: bv32, f: Gate, v: Insn): Insn {
    if IsPlainHint(sel) then PlainHint(sel, v)
    else if f(Feature.PAuth) && IsPauthHint(sel) then
      v.Set(Code.HintGeneric).SetAlias(PauthHint(sel))
    else GatedHint(sel, crm, op2, f, v)
  }

  // Hints named by one extension, the two clusters of CRm, and HINT #imm.
  function GatedHint(sel: bv32, crm: bv32, op2: bv32, f: Gate, v: Insn): Insn {
    if sel == 6 && f(Feature.Dgh) then v.Set(Code.Dgh)
    else if sel == 17 then v.Set(Code.Psb).Push(SysOp(Keyword.Csync))
    else if sel == 18 && f(Feature.Trf) then v.Set(Code.Tsb).Push(SysOp(Keyword.Csync))
    else if sel == 19 && f(Feature.Gcs) then v.Set(Code.Gcsb).Push(SysOp(Keyword.Dsync))
    else if sel == 22 && f(Feature.Clrbhb) then v.Set(Code.Clrbhb)
    else if sel == 40 && f(Feature.Chk) then v.Set(Code.Chkfeat).Push(XReg(false, 16))
    else if crm == 6 && f(Feature.Pcdphint) then StashHint(op2, v)
    else if crm == 4 && op2 & 1 == 0 then BtiHint(op2, v)
    else v.Set(Code.HintGeneric).Push(ImmUnsigned(sel as int))
  }

  function StashHint(op2: bv32, v: Insn): Insn {
    if op2 == 0 then v.Set(Code.Stshh).Push(SysOp(Keyword.Keep))
    else if op2 == 1 then v.Set(Code.Stshh).Push(SysOp(Keyword.Strm))
    else if op2 == 2 then v.Set(Code.Shuh)
    else if op2 == 3 then v.Set(Code.Shuh).Push(SysOp(Keyword.Ph))
    else if op2 == 4 then v.Set(Code.Stcph)
    else v.Set(Code.Stshh).Push(ImmUnsigned(op2 as int))
  }

  function BtiHint(op2: bv32, v: Insn): Insn {
    if op2 == 2 then v.Set(Code.Bti).Push(SysOp(Keyword.TargetC))
    else if op2 == 4 then v.Set(Code.Bti).Push(SysOp(Keyword.TargetJ))
    else if op2 == 6 then v.Set(Code.Bti).Push(SysOp(Keyword.TargetJc))
    else v.Set(Code.Bti)
  }

  function WfxtOf(s: SysFields, f: Gate, v: Insn): Insn {
    if s.crm == 0 && s.op2 == 0 && f(Feature.Wfxt) then v.Set(Code.Wfet).Push(XReg(false, s.rt))
    else if s.crm == 0 && s.op2 == 1 && f(Feature.Wfxt) then v.Set(Code.Wfit).Push(XReg(false, s.rt))
    else v
  }

  function BarrierOption(crm: bv32): Operand {
    if crm == 1 then SysOp(Keyword.Oshld)
    else if crm == 2 then SysOp(Keyword.Oshst)
    else if crm == 3 then SysOp(Keyword.Osh)
    else if crm == 5 then SysOp(Keyword.Nshld)
    else if crm == 6 then SysOp(Keyword.Nshst)
    else if crm == 7 then SysOp(Keyword.Nsh)
    else if crm == 9 then SysOp(Keyword.Ishld)
    else if crm == 10 then SysOp(Keyword.Ishst)
    else if crm == 11 then SysOp(Keyword.Ish)
    else if crm == 13 then SysOp(Keyword.Ld)
    else if crm == 14 then SysOp(Keyword.St)
    else if crm == 15 then SysOp(Keyword.Sy)
    else ImmUnsigned(crm as int)
  }

  function NxsOption(crm: bv32): Keyword {
    if crm == 2 then Keyword.OshNxs
    else if crm == 6 then Keyword.NshNxs
    else if crm == 10 then Keyword.IshNxs
    else Keyword.SyNxs
  }

  // CLREX and ISB leave out the default option 15.
  function UnlessDefault(v: Insn, crm: bv32): Insn {
    if crm == 15 then v else v.Push(ImmUnsigned(crm as int))
  }

  function DsbOf(crm: bv32, v: Insn): Insn {
    if crm == 0 then v.Set(Code.Dsb).SetAlias(Mnemonic.Ssbb)
    else if crm == 4 then v.Set(Code.Dsb).SetAlias(Mnemonic.Pssbb)
    else v.Set(Code.Dsb).Push(BarrierOption(crm))
  }

  function BarrierOf(s: SysFields, f: Gate, v: Insn): Insn {
    if s.rt != 31 then v
    else if s.op2 == 1 && s.crm & 3 == 2 && f(Feature.Xs) then v.Set(Code.Dsb).Push(SysOp(NxsOption(s.crm)))
    else if s.op2 == 2 then UnlessDefault(v.Set(Code.Clrex), s.crm)
    else if s.op2 == 3 && s.crm == 0 && f(Feature.Tme) then v.Set(Code.Tcommit)
    else if s.op2 == 4 then DsbOf(s.crm, v)
    else if s.op2 == 5 then v.Set(Code.Dmb).Push(BarrierOption(s.crm))
    else if s.op2 == 6 then UnlessDefault(v.Set(Code.Isb), s.crm)
    else if s.op2 == 7 then v.Set(Code.Sb)
    else v
  }

  function SystemResult(s: SysFields, f: Gate, v: Insn): Insn {
    if !f(Feature.Tme) || s.op1 != 3 || s.crn != 3 || s.op2 != 3 then v
    else if s.crm == 0 then v.Set(Code.Tstart).Push(XReg(false, s.rt))
    else if s.crm == 1 then v.Set(Code.Ttest).Push(XReg(false, s.rt))
    else v
  }

  // The named encodings with op0 == 00.
  function Op0Named(s: SysFields, f: Gate, v: Insn): Insn {
    if s.read then SystemResult(s, f, v)
    else if s.crn == 4 then MsrImmediate(s, v)
    else if s.crn == 2 then HintOf(s, f, v)
    else if s.crn == 3 then BarrierOf(s, f, v)
    else if s.crn == 1 then WfxtOf(s, f, v)
    else v
  }

  // No feature set names the selector.
  ghost predicate Unallocated(s: SysFields) {
    forall f: Gate, word, ip :: Op0Named(s, f, NewInvalid(word, ip)).IsInvalid()
  }

  function GcsCode(s: SysFields): Option<Code> {
    if s.crn != 7 || s.crm != 7 then None
    else if !s.read && s.op1 == 0 && s.op2 == 4 then Some(Code.Gcspushx)
    else if !s.read && s.op1 == 0 && s.op2 == 5 then Some(Code.Gcspopcx)
    else if !s.read && s.op1 == 0 && s.op2 == 6 then Some(Code.Gcspopx)
    else if !s.read && s.op1 == 3 && s.op2 == 0 then Some(Code.Gcspushm)
    else if !s.read && s.op1 == 3 && s.op2 == 2 then Some(Code.Gcsss1)
    else if s.read && s.op1 == 3 && s.op2 == 1 then Some(Code.Gcspopm)
    else if s.read && s.op1 == 3 && s.op2 == 3 then Some(Code.Gcsss2)
    else None
  }

  function GcsOf(s: SysFields, code: Code, v: Insn): Insn {
    if code.Gcspushx? || code.Gcspopcx? || code.Gcspopx? || (code.Gcspopm? && s.rt == 31) then v.Set(code)
    else v.Set(code).Push(XReg(false, s.rt))
  }

  // CFP, DVP and CPP RCTX.
  function RctxAlias(s: SysFields): Option<Mnemonic> {
    if s.read || s.crn != 7 || s.crm != 3 || s.op1 != 3 then None
    else if s.op2 == 4 then Some(Mnemonic.Cfp)
    else if s.op2 == 5 then Some(Mnemonic.Dvp)
    else if s.op2 == 7 then Some(Mnemonic.Cpp)
    else None
  }

  function SysAlias(s: SysFields, t: SysEntry, v: Insn): Insn {
    var named := v.Set(if s.read then Code.Sysl else Code.Sys).SetAlias(t.mnem);
    var first := if t.name.Some? && t.kwFirst then named.Push(SysOp(t.name.value)) else named;
    var withRt := if t.needsRt then first.Push(XReg(false, s.rt)) else first;
    if t.name.Some? && !t.kwFirst then withRt.Push(SysOp(t.name.value)) else withRt
  }

  // #op1, Cn, Cm, #op2.
  function WithSysFields(s: SysFields, v: Insn): Insn {
    v.Push(ImmUnsigned(s.op1 as int)).Push(SysOp(Keyword.Cr(s.crn & 15)))
     .Push(SysOp(Keyword.Cr(s.crm & 15))).Push(ImmUnsigned(s.op2 as int))
  }

  function SysCanonical(s: SysFields, v: Insn): Insn {
    if s.read then WithSysFields(s, v.Set(Code.Sysl).Push(XReg(false, s.rt)))
    else WithSysFields(s, v.Set(Code.Sys)).Push(XReg(false, s.rt))
  }

  function SysOf(s: SysFields, f: Gate, table: SysTable, v: Insn): Insn {
    if RctxAlias(s).Some? then
      v.Set(Code.Sys).SetAlias(RctxAlias(s).value).Push(SysOp(Keyword.Rctx)).Push(XReg(false, s.rt))
    else if GcsCode(s).Some? && f(Feature.Gcs) then GcsOf(s, GcsCode(s).value, v)
    else
      match table(s.read, s.op1, s.crn, s.crm, s.op2)
      case Some(t) => SysAlias(s, t, v)
      case None => SysCanonical(s, v)
  }

  // op0 == 00 holds named encodings; what none of them claims is a generic move.
  ghost function Op0(s: SysFields, f: Gate, v: Insn): Insn {
    if Unallocated(s) then SysRegMove(s, v) else Op0Named(s, f, v)
  }

  ghost function System(word: bv32, f: Gate, table: SysTable, v: Insn): Insn {
    var s := FieldsOf(word);
    if s.op0 == 0 then Op0(s, f, v)
    else if s.op0 == 1 then SysOf(s, f, table, v)
    else SysRegMove(s, v)
  }

  function RegPairOf(rt: bv32): Operand {
    RegPair(GpRegister(false, X64, rt), GpRegister(false, X64, rt + 1))
  }

  function SyspOf(s: SysFields, table: SysTable, v: Insn): Insn {
    var entry := table(false, s.op1, s.crn, s.crm, s.op2);
    if s.rt & 1 != 0 && s.rt != 31 then v
    else if entry.Some? && entry.value.mnem == Mnemonic.Tlbi then TlbipOf(s, entry.value, v)
    else
      var base := WithSysFields(s, v.Set(Code.Sysp));
      if s.rt == 31 then base else base.Push(RegPairOf(s.rt))
  }

  function TlbipOf(s: SysFields, t: SysEntry, v: Insn): Insn {
    v.Set(Code.Sysp).SetAlias(Mnemonic.Tlbip)
     .Push(if t.name.Some? then SysOp(t.name.value) else NoOperand)
     .Push(if s.rt == 31 then RegPair(Xzr, Xzr) else RegPairOf(s.rt))
  }

  function PairMove(s: SysFields, v: Insn): Insn {
    var sr := SysReg(SysRegOf(s.op0, s.op1, s.crn, s.crm, s.op2));
    if s.rt & 1 != 0 then v
    else if s.read then v.Set(Code.Mrrs).Push(RegPairOf(s.rt)).Push(sr)
    else v.Set(Code.Msrr).Push(sr).Push(RegPairOf(s.rt))
  }

  function SystemPair(word: bv32, f: Gate, table: SysTable, v: Insn): Insn {
    var s := FieldsOf(word);
    if !f(Feature.D128) then v
    else if !s.read && s.op0 == 1 then SyspOf(s, table, v)
    else PairMove(s, v)
  }

  // --- The group. ---

  // The classes of the group, by their fixed bits. No word is in two of them.
  datatype Class = RegBranch | Exceptions | SystemBlock | PairBlock | TchangeBlock
                 | CondBlock | CompareBlock | TestBlock | CmpbrBlock | ImmBranch | Outside

  function ClassOf(word: bv32): Class {
    if word & 0xfe00_0000 == 0xd600_0000 then RegBranch
    else if word & 0xff00_0000 == 0xd400_0000 then Exceptions
    else if word & 0xffc0_0000 == 0xd500_0000 then SystemBlock
    else if word & 0xffc0_0000 == 0xd540_0000 then PairBlock
    else if word & 0xffc0_0000 == 0xd580_0000 then TchangeBlock
    else if word & 0xfe00_0000 == 0x5400_0000 then CondBlock
    else if word & 0x7e00_0000 == 0x3400_0000 then CompareBlock
    else if word & 0x7e00_0000 == 0x3600_0000 then TestBlock
    else if word & 0x7e00_0000 == 0x7400_0000 then CmpbrBlock
    else if word & 0x7c00_0000 == 0x1400_0000 then ImmBranch
    else Outside
  }

  ghost function Branch(word: bv32, f: Gate, table: SysTable, v: Insn): Insn {
    BranchIn(ClassOf(word), word, f, table, v)
  }

  ghost function BranchIn(c: Class, word: bv32, f: Gate, table: SysTable, v: Insn): Insn {
    match c
    case Exceptions => ExceptionGen(word, f, v)
    case SystemBlock => System(word, f, table, v)
    case PairBlock => SystemPair(word, f, table, v)
    case TchangeBlock => TchangeOf(word, f, v)
    case Outside => v
    case _ => Jump(c, word, f, v)
  }

  // The branches proper.
  function Jump(c: Class, word: bv32, f: Gate, v: Insn): Insn {
    match c
    case RegBranch => UncondBranchReg(word, f, v)
    case CondBlock => CondBranch(word, f, v)
    case CompareBlock => CompareBranch(word, v)
    case TestBlock => TestBranch(word, v)
    case CmpbrBlock => CmpbrOf(word, f, v)
    case ImmBranch => UncondBranchImm(word, v)
    case _ => v
  }
}
