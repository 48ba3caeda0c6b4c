/** The encoder of `src/encode/branch_sys.rs`: pure functions from an instruction to
    the word that denotes it, by encoding, mnemonic and operands. */
module BranchEncode {
  import opened Wrappers
  import opened Ints
  import opened Fields
  import opened Isa
  import opened Instructions
  import opened Encoding

  // The entry of the SYS alias directory a mnemonic and operation name select.
  datatype NamedEntry = NamedEntry(op1: bv32, crn: bv32, crm: bv32, op2: bv32, needsRt: bool, kwFirst: bool)
  type SysNames = (Mnemonic, Option<Keyword>) -> Option<NamedEntry>

  // --- Branches. ---

  function CondWord(imm19: bv32, o0: bv32, cond: bv32): bv32 {
    0x5400_0000 | (imm19 << 5) | (o0 << 4) | cond
  }

  function EncCondBranch(v: Insn): Encoded {
    if !v.Op(0).Cond? then Err(InvalidOperand)
    else
      var imm19 :- RelField(v, 1, Imm19);
      Ok(CondWord(Low32(imm19), if v.code.BcCond? then 1 else 0, ConditionAsU4(v.Op(0).cond)))
  }

  function SppcWord(m: bv32, imm16: bv32): bv32 {
    0x5500_001f | (m << 21) | (imm16 << 5)
  }

  // The backward distance ip - target is imm16:00.
  function EncSppc(v: Insn): Encoded {
    var target :- LabelOf(v, 0);
    var dist := Sub(v.ip, target);
    if dist % 4 != 0 || dist / 4 > 0xffff then Err(InvalidImmediate)
    else Ok(SppcWord(if v.code.Retabsppc? then 1 else 0, Low32(dist / 4)))
  }

  function UncondWord(op: bv32, imm26: bv32): bv32 {
    (op << 31) | 0x1400_0000 | imm26
  }

  function EncUncondBranchImm(v: Insn): Encoded {
    var imm26 :- RelField(v, 0, Imm26);
    Ok(UncondWord(if v.code.BlImm? then 1 else 0, Low32(imm26)))
  }

  function CompareWord(sf: bv32, op: bv32, imm19: bv32, rt: bv32): bv32 {
    (sf << 31) | 0x3400_0000 | (op << 24) | (imm19 << 5) | rt
  }

  function EncCompareBranch(v: Insn): Encoded {
    var rt :- RegNum(v, 0);
    var imm19 :- RelField(v, 1, Imm19);
    Ok(CompareWord(if v.code.Cbz64? || v.code.Cbnz64? then 1 else 0,
                   if v.code.Cbnz32? || v.code.Cbnz64? then 1 else 0, Low32(imm19), rt))
  }

  // The bit position is split as b5 (word<31>) and b40 (word<23:19>).
  function TestWord(op: bv32, bitpos: bv32, imm14: bv32, rt: bv32): bv32 {
    (((bitpos >> 5) & 1) << 31) | 0x3600_0000 | (op << 24) | ((bitpos & 0x1f) << 19) | (imm14 << 5) | rt
  }

  function EncTestBranch(v: Insn): Encoded {
    var rt :- RegNum(v, 0);
    var bitpos :- ImmU32(v, 1);
    if bitpos > 63 then Err(InvalidImmediate)
    else
      var imm14 :- RelField(v, 2, Imm14);
      Ok(TestWord(if v.code.Tbnz? then 1 else 0, bitpos, Low32(imm14), rt))
  }

  // (size, register condition, immediate condition).
  function CmpbrFacets(c: Code): (bv32, Option<bv32>, Option<bv32>) {
    if c.Cbgt? then (0, Some(0), Some(0))
    else if c.Cbge? then (0, Some(1), None)
    else if c.Cbhi? then (0, Some(2), Some(2))
    else if c.Cbhs? then (0, Some(3), None)
    else if c.Cbeq? then (0, Some(6), Some(6))
    else if c.Cbne? then (0, Some(7), Some(7))
    else if c.Cblt? then (0, None, Some(1))
    else if c.Cblo? then (0, None, Some(3))
    else if c.Cbbgt? then (2, Some(0), None)
    else if c.Cbbge? then (2, Some(1), None)
    else if c.Cbbhi? then (2, Some(2), None)
    else if c.Cbbhs? then (2, Some(3), None)
    else if c.Cbbeq? then (2, Some(6), None)
    else if c.Cbbne? then (2, Some(7), None)
    else if c.Cbhgt? then (3, Some(0), None)
    else if c.Cbhge? then (3, Some(1), None)
    else if c.Cbhhi? then (3, Some(2), None)
    else if c.Cbhhs? then (3, Some(3), None)
    else if c.Cbheq? then (3, Some(6), None)
    else if c.Cbhne? then (3, Some(7), None)
    else (0, None, None)
  }

  function EncCmpbr(v: Insn): Encoded {
    var facets := CmpbrFacets(v.code);
    var imm9 :- RelField(v, 2, Imm9);
    var o := v.Op(1);
    if o.Reg? then EncCmpbrReg(v, facets.0, facets.1, Low32(imm9))
    else if o.ImmUnsigned? then EncCmpbrImm(v, facets.2, Low32(imm9))
    else if o.ImmSigned? then EncCmpbrImm(v, facets.2, Low32(imm9))
    else if o.ImmLogical? then EncCmpbrImm(v, facets.2, Low32(imm9))
    else Err(InvalidOperand)
  }

  function CmpbrRegWord(sf: bv32, cc: bv32, rm: bv32, size: bv32, imm9: bv32, rt: bv32): bv32 {
    (sf << 31) | 0x7400_0000 | (cc << 21) | (rm << 16) | (size << 14) | (imm9 << 5) | rt
  }

  // Byte and halfword forms are W-only; the word form follows operand 0.
  function EncCmpbrReg(v: Insn, size: bv32, cc: Option<bv32>, imm9: bv32): Encoded {
    if cc.None? then Err(InvalidOperand)
    else
      var x0 :- IsXReg(v, 0);
      var x1 :- IsXReg(v, 1);
      var rt :- RegNum(v, 0);
      var rm :- RegNum(v, 1);
      if size != 0 && (x0 || x1) then Err(InvalidOperand)
      else Ok(CmpbrRegWord(if size == 0 && x0 then 1 else 0, cc.value, rm, size, imm9, rt))
  }

  function CmpbrImmWord(sf: bv32, cc: bv32, imm6: bv32, imm9: bv32, rt: bv32): bv32 {
    (sf << 31) | 0x7500_0000 | (cc << 21) | (imm6 << 15) | (imm9 << 5) | rt
  }

  function EncCmpbrImm(v: Insn, cc: Option<bv32>, imm9: bv32): Encoded {
    if cc.None? then Err(InvalidOperand)
    else
      var x0 :- IsXReg(v, 0);
      var rt :- RegNum(v, 0);
      var imm6 :- ImmU(v, 1);
      if imm6 > 0x3f then Err(InvalidImmediate)
      else Ok(CmpbrImmWord(if x0 then 1 else 0, cc.value, Low32(imm6), imm9, rt))
  }

  function RegBranchWord(opc: bv32, op3: bv32, rn: bv32, op4: bv32): bv32 {
    0xd600_0000 | (opc << 21) | (31 << 16) | (op3 << 10) | (rn << 5) | op4
  }

  function EncBranchReg(v: Insn): Encoded {
    if v.code.Br? then EncOneReg(v, 0, 0, 0)
    else if v.code.Blr? then EncOneReg(v, 1, 0, 0)
    else if v.code.Ret? && v.ops == [] then Ok(RegBranchWord(2, 0, 30, 0))
    else if v.code.Ret? then EncOneReg(v, 2, 0, 0)
    else if v.code.Eret? then Ok(RegBranchWord(4, 0, 31, 0))
    else if v.code.Drps? then Ok(RegBranchWord(5, 0, 31, 0))
    else if v.code.Braaz? then EncOneReg(v, 0, 2, 31)
    else if v.code.Brabz? then EncOneReg(v, 0, 3, 31)
    else if v.code.Blraaz? then EncOneReg(v, 1, 2, 31)
    else if v.code.Blrabz? then EncOneReg(v, 1, 3, 31)
    else if v.code.Retaa? then Ok(RegBranchWord(2, 2, 31, 31))
    else if v.code.Retab? then Ok(RegBranchWord(2, 3, 31, 31))
    else if v.code.Retaasppcr? then EncModifier(v, 2)
    else if v.code.Retabsppcr? then EncModifier(v, 3)
    else if v.code.Eretaa? then Ok(RegBranchWord(4, 2, 31, 31))
    else if v.code.Eretab? then Ok(RegBranchWord(4, 3, 31, 31))
    else if v.code.Braa? then EncTwoRegs(v, 8, 2)
    else if v.code.Brab? then EncTwoRegs(v, 8, 3)
    else if v.code.Blraa? then EncTwoRegs(v, 9, 2)
    else if v.code.Blrab? then EncTwoRegs(v, 9, 3)
    else Err(Unsupported)
  }

  function EncOneReg(v: Insn, opc: bv32, op3: bv32, op4: bv32): Encoded {
    var rn :- RegNum(v, 0);
    Ok(RegBranchWord(opc, op3, rn, op4))
  }

  function EncModifier(v: Insn, op3: bv32): Encoded {
    var op4 :- RegNum(v, 0);
    Ok(RegBranchWord(2, op3, 31, op4))
  }

  function EncTwoRegs(v: Insn, opc: bv32, op3: bv32): Encoded {
    var rn :- RegNum(v, 0);
    var op4 :- RegNum(v, 1);
    Ok(RegBranchWord(opc, op3, rn, op4))
  }

  // --- Exceptions and TCHANGE. ---

  function ExceptionWord(opc: bv32, ll: bv32, imm16: bv32): bv32 {
    0xd400_0000 | (opc << 21) | (imm16 << 5) | ll
  }

  function ExceptionSelector(c: Code): (bv32, bv32) {
    if c.Svc? then (0, 1)
    else if c.Hvc? then (0, 2)
    else if c.Smc? then (0, 3)
    else if c.Brk? then (1, 0)
    else if c.Hlt? then (2, 0)
    else if c.Tcancel? then (3, 0)
    else if c.Tenter? then (7, 0)
    else if c.Dcps1? then (5, 1)
    else if c.Dcps2? then (5, 2)
    else (5, 3)
  }

  function EncException(v: Insn): Encoded {
    var s := ExceptionSelector(v.code);
    if v.code.Tenter? then EncTenter(v)
    else if v.code.Dcps1? || v.code.Dcps2? || v.code.Dcps3? then EncDcps(v, s.1)
    else EncImm16(v, s.0, s.1)
  }

  function EncImm16(v: Insn, opc: bv32, ll: bv32): Encoded {
    var imm16 :- ImmU(v, 0);
    if imm16 > 0xffff then Err(InvalidImmediate) else Ok(ExceptionWord(opc, ll, Low32(imm16)))
  }

  // The elided immediate is zero.
  function EncDcps(v: Insn, ll: bv32): Encoded {
    if v.ops == [] then Ok(ExceptionWord(5, ll, 0)) else EncImm16(v, 5, ll)
  }

  function EncTenter(v: Insn): Encoded {
    var imm :- ImmU32(v, 0);
    Ok(ExceptionWord(7, 0, (imm & 0x7f) | (if |v.ops| > 1 then 0x1000 else 0)))
  }

  function WithNbBit(word: bv32, b17: bv32): bv32 { word | (b17 << 17) }

  // The trailing nb modifier is checked last.
  function EncTchange(v: Insn): Encoded {
    var word :- TchangeWord(v);
    if v.Op(2) == SysOp(Keyword.Nb) then Ok(WithNbBit(word, 1))
    else if v.Op(2).SysOp? then Err(InvalidOperand)
    else Ok(word)
  }

  function TchangeRegWord(b18: bv32, xn: bv32, rt: bv32): bv32 {
    0xd580_0000 | (b18 << 18) | (xn << 5) | rt
  }

  function TchangeImmWord(b18: bv32, imm7: bv32, rt: bv32): bv32 {
    0xd590_0000 | (b18 << 18) | (imm7 << 5) | rt
  }

  function TchangeWord(v: Insn): Encoded {
    var rt :- RegNum(v, 0);
    var b18: bv32 := if v.code.TchangebReg? || v.code.TchangebImm? then 1 else 0;
    if v.code.TchangefReg? || v.code.TchangebReg? then
      var xn :- RegNum(v, 1);
      Ok(TchangeRegWord(b18, xn, rt))
    else
      var imm :- ImmU(v, 1);
      if imm > 0x7f then Err(InvalidImmediate)
      else Ok(TchangeImmWord(b18, Low32(imm), rt))
  }

  // --- The system block. ---

  function SystemWord(l: bv32, op0: bv32, op1: bv32, crn: bv32, crm: bv32, op2: bv32, rt: bv32): bv32 {
    0xd500_0000 | ((l & 1) << 21) | ((op0 & 3) << 19) | ((op1 & 7) << 16) | ((crn & 15) << 12)
    | ((crm & 15) << 8) | ((op2 & 7) << 5) | (rt & 31)
  }

  // The pair block differs in word<22>.
  function AsPair(word: bv32): bv32 { word | 0x0040_0000 }

  function SystemPairWord(l: bv32, op0: bv32, op1: bv32, crn: bv32, crm: bv32, op2: bv32, rt: bv32): bv32 {
    AsPair(SystemWord(l, op0, op1, crn, crm, op2, rt))
  }

  function HintWord(sel: bv32): bv32 {
    SystemWord(0, 0, 3, 2, (sel >> 3) & 15, sel & 7, 31)
  }

  function EncHint(v: Insn): Encoded {
    var sel :- HintSelector(v);
    if sel > 0x7f then Err(InvalidImmediate) else Ok(HintWord(sel))
  }

  function HintSelector(v: Insn): Encoded {
    if v.code.Nop? then Ok(0)
    else if v.code.Yield? then Ok(1)
    else if v.code.Wfe? then Ok(2)
    else if v.code.Wfi? then Ok(3)
    else if v.code.Sev? then Ok(4)
    else if v.code.Sevl? then Ok(5)
    else if v.code.Dgh? then Ok(6)
    else if v.code.Esb? then Ok(16)
    else if v.code.Psb? then Ok(17)
    else if v.code.Tsb? then Ok(18)
    else if v.code.Gcsb? then Ok(19)
    else if v.code.Csdb? then Ok(20)
    else if v.code.Clrbhb? then Ok(22)
    else if v.code.Chkfeat? then Ok(40)
    else if v.code.Shuh? then
      if v.Op(0).NoOperand? then Ok(50)
      else if v.Op(0) == SysOp(Keyword.Ph) then Ok(51)
      else Err(InvalidOperand)
    else if v.code.Stcph? then Ok(52)
    else if v.code.Stshh? then
      if v.Op(0) == SysOp(Keyword.Keep) then Ok(48)
      else if v.Op(0) == SysOp(Keyword.Strm) then Ok(49)
      else if v.Op(0).ImmUnsigned? then Ok(48 | (Low32(v.Op(0).value) & 7))
      else Err(InvalidOperand)
    else if v.code.Bti? then
      if v.Op(0).NoOperand? then Ok(32)
      else if v.Op(0) == SysOp(Keyword.TargetC) then Ok(34)
      else if v.Op(0) == SysOp(Keyword.TargetJ) then Ok(36)
      else if v.Op(0) == SysOp(Keyword.TargetJc) then Ok(38)
      else Err(InvalidOperand)
    else if v.code.HintGeneric? then GenericSelector(v)
    else Err(Unsupported)
  }

  function GenericSelector(v: Insn): Encoded {
    if v.mnemonic.Xpaclri? then Ok(7)
    else if v.mnemonic.Pacia1716? then Ok(8)
    else if v.mnemonic.Pacib1716? then Ok(10)
    else if v.mnemonic.Autia1716? then Ok(12)
    else if v.mnemonic.Autib1716? then Ok(14)
    else if v.mnemonic.Paciaz? then Ok(24)
    else if v.mnemonic.Paciasp? then Ok(25)
    else if v.mnemonic.Pacibz? then Ok(26)
    else if v.mnemonic.Pacibsp? then Ok(27)
    else if v.mnemonic.Autiaz? then Ok(28)
    else if v.mnemonic.Autiasp? then Ok(29)
    else if v.mnemonic.Autibz? then Ok(30)
    else if v.mnemonic.Autibsp? then Ok(31)
    else if v.mnemonic.Pacm? then Ok(39)
    else if v.mnemonic == Own(Code.HintGeneric) then ImmU32(v, 0)
    else Err(InvalidOperand)
  }

  function EncWfxt(v: Insn): Encoded {
    var rt :- RegNum(v, 0);
    Ok(SystemWord(0, 0, 3, 1, 0, if v.code.Wfit? then 1 else 0, rt))
  }

  function BarrierWord(crm: bv32, op2: bv32): bv32 {
    SystemWord(0, 0, 3, 3, crm, op2, 31)
  }

  function EncBarrier(v: Insn): Encoded {
    if v.code.Clrex? then EncDefaulted(v, 2)
    else if v.code.Tcommit? then Ok(BarrierWord(0, 3))
    else if v.code.Dsb? then EncDsb(v)
    else if v.code.Dmb? then
      var crm :- BarrierCrm(v);
      Ok(BarrierWord(crm, 5))
    else if v.code.Isb? then EncDefaulted(v, 6)
    else if v.code.Sb? then Ok(BarrierWord(0, 7))
    else Err(Unsupported)
  }

  // CLREX and ISB: the elided option is 15.
  function EncDefaulted(v: Insn, op2: bv32): Encoded {
    if v.ops == [] then Ok(BarrierWord(15, op2))
    else
      var crm :- ImmU32(v, 0);
      Ok(BarrierWord(crm & 15, op2))
  }

  function EncDsb(v: Insn): Encoded {
    if v.Op(0).SysOp? && NxsField(v.Op(0).keyword).Some? then
      Ok(BarrierWord((NxsField(v.Op(0).keyword).value << 2) | 2, 1))
    else if v.mnemonic == Mnemonic.Ssbb then Ok(BarrierWord(0, 4))
    else if v.mnemonic == Mnemonic.Pssbb then Ok(BarrierWord(4, 4))
    else
      var crm :- BarrierCrm(v);
      Ok(BarrierWord(crm, 4))
  }

  function NxsField(k: Keyword): Option<bv32> {
    if k.OshNxs? then Some(0)
    else if k.NshNxs? then Some(1)
    else if k.IshNxs? then Some(2)
    else if k.SyNxs? then Some(3)
    else None
  }

  function BarrierCrm(v: Insn): Encoded {
    var o := v.Op(0);
    if o.SysOp? then OptionCrm(o.keyword)
    else if o.ImmUnsigned? then Ok(Low32(o.value) & 15)
    else if o.ImmLogical? then Ok(Low32(o.value) & 15)
    else if o.ImmSigned? then Ok(Low32(Unsigned(o.signed)) & 15)
    else Err(InvalidOperand)
  }

  function OptionCrm(k: Keyword): Encoded {
    if k.Oshld? then Ok(1)
    else if k.Oshst? then Ok(2)
    else if k.Osh? then Ok(3)
    else if k.Nshld? then Ok(5)
    else if k.Nshst? then Ok(6)
    else if k.Nsh? then Ok(7)
    else if k.Ishld? then Ok(9)
    else if k.Ishst? then Ok(10)
    else if k.Ish? then Ok(11)
    else if k.Ld? then Ok(13)
    else if k.St? then Ok(14)
    else if k.Sy? then Ok(15)
    else Err(InvalidOperand)
  }

  function PstateWord(op1: bv32, op2: bv32, crm: bv32): bv32 {
    SystemWord(0, 0, op1, 4, crm, op2, 31)
  }

  function EncMsrImm(v: Insn): Encoded {
    if v.code.Cfinv? then Ok(PstateWord(0, 0, 0))
    else if v.code.Xaflag? then Ok(PstateWord(0, 1, 0))
    else if v.code.Axflag? then Ok(PstateWord(0, 2, 0))
    else if v.code.Smstart? then EncSmstart(v, 1)
    else if v.code.Smstop? then EncSmstart(v, 0)
    else if v.code.MsrImm? then EncPstateField(v)
    else Err(Unsupported)
  }

  function EncPstateField(v: Insn): Encoded {
    var k :- KeywordOf(v, 0);
    var crm :- ImmU32(v, 1);
    if PstateSelector(k).None? then Err(InvalidOperand)
    else if crm > 15 then Err(InvalidImmediate)
    else Ok(PstateWord(PstateSelector(k).value.0, PstateSelector(k).value.1, crm))
  }

  // The bare form sets both SM and ZA.
  function EncSmstart(v: Insn, start: bv32): Encoded {
    if v.Op(0).NoOperand? then Ok(PstateWord(3, 3, 6 | start))
    else if v.Op(0) == SysOp(Keyword.Sm) then Ok(PstateWord(3, 3, 2 | start))
    else if v.Op(0) == SysOp(Keyword.ZaOption) then Ok(PstateWord(3, 3, 4 | start))
    else Err(InvalidOperand)
  }

  function PstateSelector(k: Keyword): Option<(bv32, bv32)> {
    if k.Uao? then Some((0, 3))
    else if k.Spsel? then Some((0, 5))
    else if k.Ssbs? then Some((3, 1))
    else if k.Dit? then Some((3, 2))
    else if k.Tco? then Some((3, 4))
    else if k.DaifSet? then Some((3, 6))
    else if k.DaifClr? then Some((3, 7))
    else if k.Allint? then Some((1, 0))
    else None
  }

  // The word of a system register move: the SystemReg packs op0:op1:CRn:CRm:op2.
  function MoveWord(l: bv32, sr: bv32, rt: bv32): bv32 {
    SystemWord(l, sr >> 14, sr >> 11, sr >> 7, sr >> 3, sr, rt)
  }

  function EncSysRegMove(v: Insn): Encoded {
    if v.code.Mrs? then
      var rt :- RegNum(v, 0);
      var sr :- SysRegAt(v, 1);
      Ok(MoveWord(1, sr, rt))
    else
      var sr :- SysRegAt(v, 0);
      var rt :- RegNum(v, 1);
      Ok(MoveWord(0, sr, rt))
  }

  function EncSystemResult(v: Insn): Encoded {
    var rt :- RegNum(v, 0);
    Ok(SystemWord(1, 0, 3, 3, if v.code.Ttest? then 1 else 0, 3, rt))
  }

  function EncGcs(v: Insn): Encoded {
    if v.code.Gcspushx? then Ok(SystemWord(0, 1, 0, 7, 7, 4, 31))
    else if v.code.Gcspopcx? then Ok(SystemWord(0, 1, 0, 7, 7, 5, 31))
    else if v.code.Gcspopx? then Ok(SystemWord(0, 1, 0, 7, 7, 6, 31))
    else if v.code.Gcspushm? then
      var rt :- RegNum(v, 0);
      Ok(SystemWord(0, 1, 3, 7, 7, 0, rt))
    else if v.code.Gcsss1? then
      var rt :- RegNum(v, 0);
      Ok(SystemWord(0, 1, 3, 7, 7, 2, rt))
    else if v.code.Gcspopm? then
      if v.ops == [] then Ok(SystemWord(1, 1, 3, 7, 7, 1, 31))
      else
        var rt :- RegNum(v, 0);
        Ok(SystemWord(1, 1, 3, 7, 7, 1, rt))
    else if v.code.Gcsss2? then
      var rt :- RegNum(v, 0);
      Ok(SystemWord(1, 1, 3, 7, 7, 3, rt))
    else Err(Unsupported)
  }

  // --- SYS, SYSL and SYSP. ---

  // The n of a cN keyword.
  function CrNum(v: Insn, n: nat): Encoded {
    if v.Op(n).SysOp? && v.Op(n).keyword.Cr? then Ok(v.Op(n).keyword.n) else Err(InvalidOperand)
  }

  function EncSys(v: Insn, names: SysNames): Encoded {
    if v.code.Sysl? && v.mnemonic == Own(Code.Sysl) then EncSysl(v)
    else if v.mnemonic == Own(Code.Sys) then EncSysCanonical(v)
    else if v.mnemonic.Cfp? then EncRctx(v, 4)
    else if v.mnemonic.Dvp? then EncRctx(v, 5)
    else if v.mnemonic.Cpp? then EncRctx(v, 7)
    else EncSysAlias(v, names)
  }

  function EncSysl(v: Insn): Encoded {
    var rt :- RegNum(v, 0);
    var op1 :- ImmU32(v, 1);
    var crn :- CrNum(v, 2);
    var crm :- CrNum(v, 3);
    var op2 :- ImmU32(v, 4);
    Ok(SystemWord(1, 1, op1, crn, crm, op2, rt))
  }

  function EncSysCanonical(v: Insn): Encoded {
    var op1 :- ImmU32(v, 0);
    var crn :- CrNum(v, 1);
    var crm :- CrNum(v, 2);
    var op2 :- ImmU32(v, 3);
    if |v.ops| >= 5 then
      var rt :- RegNum(v, 4);
      Ok(SystemWord(0, 1, op1, crn, crm, op2, rt))
    else Ok(SystemWord(0, 1, op1, crn, crm, op2, 31))
  }

  function EncRctx(v: Insn, op2: bv32): Encoded {
    var rt :- RegNum(v, 1);
    Ok(SystemWord(0, 1, 3, 7, 3, op2, rt))
  }

  // gicr names its operation last; apas and trcit have none.
  function EncSysAlias(v: Insn, names: SysNames): Encoded {
    if v.mnemonic == Mnemonic.Apas || v.mnemonic == Mnemonic.Trcit then EncNamedAlias(v, None, names)
    else
      var k :- KeywordOf(v, if v.mnemonic == Mnemonic.Gicr then 1 else 0);
      EncNamedAlias(v, Some(k), names)
  }

  function EncNamedAlias(v: Insn, name: Option<Keyword>, names: SysNames): Encoded {
    match names(v.mnemonic, name)
    case None => Err(InvalidOperand)
    case Some(t) =>
      var l: bv32 := if v.code.Sysl? then 1 else 0;
      if !t.needsRt then Ok(SystemWord(l, 1, t.op1, t.crn, t.crm, t.op2, 31))
      else
        var rt :- RegNum(v, if t.kwFirst && name.Some? then 1 else 0);
        Ok(SystemWord(l, 1, t.op1, t.crn, t.crm, t.op2, rt))
  }

  // (Xt, Xt+1) with Xt even, or (xzr, xzr) for no transfer.
  function RegPairBase(v: Insn, n: nat): Encoded {
    var o := v.Op(n);
    if o.RegPair? then
      var lo, hi := Number(o.first), Number(o.second);
      if lo == 31 && hi == 31 then Ok(31)
      else if lo & 1 != 0 || hi != (lo + 1) & 31 then Err(InvalidOperand)
      else Ok(lo)
    else Err(InvalidOperand)
  }

  function PairMoveWord(l: bv32, sr: bv32, rt: bv32): bv32 {
    AsPair(MoveWord(l, sr, rt))
  }

  function EncSysRegPair(v: Insn): Encoded {
    if v.code.Mrrs? then
      var rt :- RegPairBase(v, 0);
      var sr :- SysRegAt(v, 1);
      Ok(PairMoveWord(1, sr, rt))
    else
      var sr :- SysRegAt(v, 0);
      var rt :- RegPairBase(v, 1);
      Ok(PairMoveWord(0, sr, rt))
  }

  function EncSysp(v: Insn, names: SysNames): Encoded {
    if v.mnemonic == Mnemonic.Tlbip then EncTlbip(v, names) else EncSyspFields(v)
  }

  function EncTlbip(v: Insn, names: SysNames): Encoded {
    var k :- KeywordOf(v, 0);
    match names(Mnemonic.Tlbi, Some(k))
    case None => Err(InvalidOperand)
    case Some(t) =>
      var rt :- RegPairBase(v, 1);
      Ok(SystemPairWord(0, 1, t.op1, t.crn, t.crm, t.op2, rt))
  }

  function EncSyspFields(v: Insn): Encoded {
    var op1 :- ImmU32(v, 0);
    var crn :- CrNum(v, 1);
    var crm :- CrNum(v, 2);
    var op2 :- ImmU32(v, 3);
    if |v.ops| >= 5 then
      var rt :- RegPairBase(v, 4);
      Ok(SystemPairWord(0, 1, op1, crn, crm, op2, rt))
    else Ok(SystemPairWord(0, 1, op1, crn, crm, op2, 31))
  }

  function EncUdf(v: Insn): Encoded {
    var imm16 :- ImmU(v, 0);
    if imm16 > 0xffff then Err(InvalidImmediate) else Ok(Low32(imm16))
  }

  // --- Dispatch. ---

  // The encodings of each encoder.
  predicate IsCondCode(c: Code) { c.BCond? || c.BcCond? }

  predicate IsSppcCode(c: Code) { c.Retaasppc? || c.Retabsppc? }

  predicate IsUncondCode(c: Code) { c.BUncond? || c.BlImm? }

  predicate IsCompareCode(c: Code) { c.Cbz32? || c.Cbz64? || c.Cbnz32? || c.Cbnz64? }

  predicate IsTestCode(c: Code) { c.Tbz? || c.Tbnz? }

  predicate IsRegCode(c: Code) {
    || c.Br? || c.Blr? || c.Ret? || c.Eret? || c.Drps? || c.Braaz? || c.Brabz? || c.Blraaz? || c.Blrabz?
    || c.Braa? || c.Brab? || c.Blraa? || c.Blrab? || c.Retaa? || c.Retab? || c.Eretaa? || c.Eretab?
    || c.Retaasppcr? || c.Retabsppcr?
  }

  predicate IsExceptionCode(c: Code) {
    || c.Svc? || c.Hvc? || c.Smc? || c.Brk? || c.Hlt? || c.Tcancel? || c.Tenter?
    || c.Dcps1? || c.Dcps2? || c.Dcps3?
  }

  predicate IsTchange(c: Code) { c.TchangefReg? || c.TchangebReg? || c.TchangefImm? || c.TchangebImm? }

  predicate IsHintCode(c: Code) {
    || c.Nop? || c.Yield? || c.Wfe? || c.Wfi? || c.Sev? || c.Sevl? || c.Esb? || c.Psb? || c.Csdb? || c.Bti?
    || c.Tsb? || c.HintGeneric? || c.Gcsb? || c.Shuh? || c.Stshh? || c.Stcph? || c.Chkfeat? || c.Dgh?
    || c.Clrbhb?
  }

  predicate IsGcsCode(c: Code) {
    c.Gcspushm? || c.Gcspopm? || c.Gcsss1? || c.Gcsss2? || c.Gcspushx? || c.Gcspopx? || c.Gcspopcx?
  }

  predicate IsWfxtCode(c: Code) { c.Wfet? || c.Wfit? }

  predicate IsBarrierCode(c: Code) { c.Clrex? || c.Dmb? || c.Dsb? || c.Isb? || c.Sb? || c.Tcommit? }

  predicate IsMsrImmCode(c: Code) {
    c.MsrImm? || c.Cfinv? || c.Xaflag? || c.Axflag? || c.Smstart? || c.Smstop?
  }

  predicate IsMoveCode(c: Code) { c.MsrReg? || c.Mrs? }

  predicate IsSysCode(c: Code) { c.Sys? || c.Sysl? }

  predicate IsResultCode(c: Code) { c.Tstart? || c.Ttest? }

  predicate IsPairCode(c: Code) { c.Mrrs? || c.Msrr? }

  datatype Encoder =
    | ForCond | ForSppc | ForUncond | ForCompare | ForTest | ForReg | ForException | ForHint | ForGcs
    | ForWfxt | ForBarrier | ForMsrImm | ForMove | ForSys | ForResult | ForPairMove | ForSysp
    | ForTchange | ForUdf | ForCmpbr | NoEncoder

  // The families are apart, so their order does not matter; the large ones come first.
  function EncoderOf(c: Code): Encoder {
    if IsCmpbr(c) then ForCmpbr
    else if IsHintCode(c) then ForHint
    else if IsRegCode(c) then ForReg
    else if IsExceptionCode(c) then ForException
    else if IsGcsCode(c) then ForGcs
    else if IsBarrierCode(c) then ForBarrier
    else if IsMsrImmCode(c) then ForMsrImm
    else if IsCompareCode(c) then ForCompare
    else if IsTchange(c) then ForTchange
    else if IsCondCode(c) then ForCond
    else if IsSppcCode(c) then ForSppc
    else if IsUncondCode(c) then ForUncond
    else if IsTestCode(c) then ForTest
    else if IsWfxtCode(c) then ForWfxt
    else if IsMoveCode(c) then ForMove
    else if IsSysCode(c) then ForSys
    else if IsResultCode(c) then ForResult
    else if IsPairCode(c) then ForPairMove
    else if c.Sysp? then ForSysp
    else if c.Udf? then ForUdf
    else NoEncoder
  }

  function EncodeAs(e: Encoder, v: Insn, names: SysNames): Encoded {
    match e
    case ForCond => EncCondBranch(v)
    case ForSppc => EncSppc(v)
    case ForUncond => EncUncondBranchImm(v)
    case ForCompare => EncCompareBranch(v)
    case ForTest => EncTestBranch(v)
    case ForReg => EncBranchReg(v)
    case ForException => EncException(v)
    case ForHint => EncHint(v)
    case ForGcs => EncGcs(v)
    case ForWfxt => EncWfxt(v)
    case ForBarrier => EncBarrier(v)
    case ForMsrImm => EncMsrImm(v)
    case ForMove => EncSysRegMove(v)
    case ForSys => EncSys(v, names)
    case ForResult => EncSystemResult(v)
    case ForPairMove => EncSysRegPair(v)
    case ForSysp => EncSysp(v, names)
    case ForTchange => EncTchange(v)
    case ForUdf => EncUdf(v)
    case ForCmpbr => EncCmpbr(v)
    case NoEncoder => Err(Unsupported)
  }

  function Encode(v: Insn, names: SysNames): Encoded {
    if v.code.Invalid? then Err(InvalidCode) else EncodeAs(EncoderOf(v.code), v, names)
  }

  // The families are apart.
  lemma CondFamily(c: Code)
    requires IsCondCode(c)
    ensures EncoderOf(c) == ForCond
  {
  }

  lemma SppcFamily(c: Code)
    requires IsSppcCode(c)
    ensures EncoderOf(c) == ForSppc
  {
  }

  lemma UncondFamily(c: Code)
    requires IsUncondCode(c)
    ensures EncoderOf(c) == ForUncond
  {
  }

  lemma CompareFamily(c: Code)
    requires IsCompareCode(c)
    ensures EncoderOf(c) == ForCompare
  {
  }

  lemma TestFamily(c: Code)
    requires IsTestCode(c)
    ensures EncoderOf(c) == ForTest
  {
  }

  lemma RegFamily(c: Code)
    requires IsRegCode(c)
    ensures EncoderOf(c) == ForReg
  {
  }

  lemma ExceptionFamily(c: Code)
    requires IsExceptionCode(c)
    ensures EncoderOf(c) == ForException
  {
  }

  lemma HintFamily(c: Code)
    requires IsHintCode(c)
    ensures EncoderOf(c) == ForHint
  {
  }

  lemma GcsFamily(c: Code)
    requires IsGcsCode(c)
    ensures EncoderOf(c) == ForGcs
  {
  }

  lemma WfxtFamily(c: Code)
    requires IsWfxtCode(c)
    ensures EncoderOf(c) == ForWfxt
  {
  }

  lemma BarrierFamily(c: Code)
    requires IsBarrierCode(c)
    ensures EncoderOf(c) == ForBarrier
  {
  }

  lemma MsrImmFamily(c: Code)
    requires IsMsrImmCode(c)
    ensures EncoderOf(c) == ForMsrImm
  {
  }

  lemma MoveFamily(c: Code)
    requires IsMoveCode(c)
    ensures EncoderOf(c) == ForMove
  {
  }

  lemma SysFamily(c: Code)
    requires IsSysCode(c)
    ensures EncoderOf(c) == ForSys
  {
  }

  lemma ResultFamily(c: Code)
    requires IsResultCode(c)
    ensures EncoderOf(c) == ForResult
  {
  }

  lemma PairMoveFamily(c: Code)
    requires IsPairCode(c)
    ensures EncoderOf(c) == ForPairMove
  {
  }

  lemma SyspFamily(c: Code)
    requires c.Sysp?
    ensures EncoderOf(c) == ForSysp
  {
  }

  lemma TchangeFamily(c: Code)
    requires IsTchange(c)
    ensures EncoderOf(c) == ForTchange
  {
  }

  lemma CmpbrFamily(c: Code)
    requires IsCmpbr(c)
    ensures EncoderOf(c) == ForCmpbr
  {
  }


  // The encoders with arms of their own refuse every encoding that is not theirs.
  lemma HintEncodesHints(d: Insn)
    requires HintSelector(d) != Err(Unsupported)
    ensures IsHintCode(d.code)
  {
  }

  lemma RegEncodesRegs(d: Insn)
    requires EncBranchReg(d) != Err(Unsupported)
    ensures IsRegCode(d.code)
  {
  }

  lemma BarrierEncodesBarriers(d: Insn)
    requires EncBarrier(d) != Err(Unsupported)
    ensures IsBarrierCode(d.code)
  {
  }

  lemma MsrImmEncodesMsrImm(d: Insn)
    requires EncMsrImm(d) != Err(Unsupported)
    ensures IsMsrImmCode(d.code)
  {
  }

  lemma GcsEncodesGcs(d: Insn)
    requires EncGcs(d) != Err(Unsupported)
    ensures IsGcsCode(d.code)
  {
  }
}
