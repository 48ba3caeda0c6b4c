/** The encodings of the branch and system group and of the reserved words, as one flat
    table: a row for each, picked by the word under a literal mask, with its encoding, its
    mnemonic, its operands, its flow of control and its extension all written out.
    `tablelaws.dfy` proves that the decoder computes this table. */
module EncodingTable {
  import opened Wrappers
  import opened Ints
  import opened Features
  import opened Isa
  import opened BranchSpec

  datatype Row = Row(code: Code, mnemonic: Mnemonic, ops: seq<Operand>, flow: FlowControl, feature: Feature)

  // A row that bears its own name and passes control to the next instruction.
  function Plain(c: Code, ops: seq<Operand>, feature: Feature): Row { Row(c, Own(c), ops, Next, feature) }

  // A row that bears its own name and transfers control.
  function Moves(c: Code, ops: seq<Operand>, flow: FlowControl, feature: Feature): Row {
    Row(c, Own(c), ops, flow, feature)
  }

  // The row, where the extension is accepted.
  function If(enabled: bool, row: Row): Option<Row> { if enabled then Some(row) else None }

  // --- Operands. ---

  // Number 31 is the zero register, or the stack pointer.
  function Xzr31(n: bv32): Register { if n & 31 == 31 then Xzr else X(n & 31) }

  function Sp31(n: bv32): Register { if n & 31 == 31 then Sp else X(n & 31) }

  function Wzr31(n: bv32): Register { if n & 31 == 31 then Wzr else W(n & 31) }

  function Xn(n: bv32): Operand { Reg(Xzr31(n), PLAIN) }

  function XnSp(n: bv32): Operand { Reg(Sp31(n), PLAIN) }

  function Wn(n: bv32): Operand { Reg(Wzr31(n), PLAIN) }

  function Rn(is64: bool, n: bv32): Operand { if is64 then Xn(n) else Wn(n) }

  function Pair(n: bv32): Operand { RegPair(Xzr31(n), Xzr31(n + 1)) }

  function Imm(n: bv32): Operand { ImmUnsigned(n as int) }

  // The label n words on, for a signed count of so many values.
  function Near(ip: U64, n: bv32, values: nat): Operand {
    var words := if 2 * (n as int) < values then n as int else n as int - values;
    Label((ip + 4 * words) % 0x1_0000_0000_0000_0000)
  }

  // The label n words back.
  function Back(ip: U64, n: bv32): Operand { Label((ip - 4 * (n as int)) % 0x1_0000_0000_0000_0000) }

  function Condition16(n: bv32): Operand { Operand.Cond(ConditionFromU4(n)) }

  // op0:op1:CRn:CRm:op2.
  function SysRegister(word: bv32): Operand { SysReg((word >> 5) & 0xffff) }

  // --- Branches to a target. ---

  function ConditionalRows(word: bv32, ip: U64, f: Gate): Option<Row> {
    var cond, target := Condition16(word & 15), Near(ip, (word >> 5) & 0x7_ffff, 0x8_0000);
    var back := Back(ip, (word >> 5) & 0xffff);
    if word & 0xff00_0010 == 0x5400_0000 then
      Some(Row(Code.BCond, Mnemonic.B, [cond, target], ConditionalBranch, Feature.Base))
    else if word & 0xff00_0010 == 0x5400_0010 then
      If(f(Feature.Hbc), Moves(Code.BcCond, [cond, target], ConditionalBranch, Feature.Hbc))
    else if word & 0xffe0_001f == 0x5500_001f then
      If(f(Feature.PauthLr), Moves(Code.Retaasppc, [back], Return, Feature.PauthLr))
    else if word & 0xffe0_001f == 0x5520_001f then
      If(f(Feature.PauthLr), Moves(Code.Retabsppc, [back], Return, Feature.PauthLr))
    else None
  }

  function CompareRows(word: bv32, ip: U64): Option<Row> {
    var target := Near(ip, (word >> 5) & 0x7_ffff, 0x8_0000);
    if word & 0xff00_0000 == 0x3400_0000 then
      Some(Row(Code.Cbz32, Mnemonic.Cbz, [Wn(word), target], ConditionalBranch, Feature.Base))
    else if word & 0xff00_0000 == 0xb400_0000 then
      Some(Row(Code.Cbz64, Mnemonic.Cbz, [Xn(word), target], ConditionalBranch, Feature.Base))
    else if word & 0xff00_0000 == 0x3500_0000 then
      Some(Row(Code.Cbnz32, Mnemonic.Cbnz, [Wn(word), target], ConditionalBranch, Feature.Base))
    else if word & 0xff00_0000 == 0xb500_0000 then
      Some(Row(Code.Cbnz64, Mnemonic.Cbnz, [Xn(word), target], ConditionalBranch, Feature.Base))
    else None
  }

  function TestRows(word: bv32, ip: U64): Option<Row> {
    var target := Near(ip, (word >> 5) & 0x3fff, 0x4000);
    var low, high := Imm((word >> 19) & 31), Imm(32 | ((word >> 19) & 31));
    if word & 0xff00_0000 == 0x3600_0000 then
      Some(Moves(Code.Tbz, [Wn(word), low, target], ConditionalBranch, Feature.Base))
    else if word & 0xff00_0000 == 0xb600_0000 then
      Some(Moves(Code.Tbz, [Xn(word), high, target], ConditionalBranch, Feature.Base))
    else if word & 0xff00_0000 == 0x3700_0000 then
      Some(Moves(Code.Tbnz, [Wn(word), low, target], ConditionalBranch, Feature.Base))
    else if word & 0xff00_0000 == 0xb700_0000 then
      Some(Moves(Code.Tbnz, [Xn(word), high, target], ConditionalBranch, Feature.Base))
    else None
  }

  function JumpRows(word: bv32, ip: U64): Option<Row> {
    var target := Near(ip, word & 0x3ff_ffff, 0x400_0000);
    if word & 0xfc00_0000 == 0x1400_0000 then
      Some(Row(Code.BUncond, Mnemonic.B, [target], UnconditionalBranch, Feature.Base))
    else if word & 0xfc00_0000 == 0x9400_0000 then
      Some(Moves(Code.BlImm, [target], Call, Feature.Base))
    else None
  }

  function Fused(c: Code, ops: seq<Operand>): Row { Moves(c, ops, ConditionalBranch, Feature.Cmpbr) }

  // The encoding of a register comparison; bytes and halfwords are compared in W.
  function FusedRegister(word: bv32): Option<Code> {
    if word & 0x7fe0_c000 == 0x7400_0000 then Some(Code.Cbgt)
    else if word & 0x7fe0_c000 == 0x7420_0000 then Some(Code.Cbge)
    else if word & 0x7fe0_c000 == 0x7440_0000 then Some(Code.Cbhi)
    else if word & 0x7fe0_c000 == 0x7460_0000 then Some(Code.Cbhs)
    else if word & 0x7fe0_c000 == 0x74c0_0000 then Some(Code.Cbeq)
    else if word & 0x7fe0_c000 == 0x74e0_0000 then Some(Code.Cbne)
    else if word & 0xffe0_c000 == 0x7400_8000 then Some(Code.Cbbgt)
    else if word & 0xffe0_c000 == 0x7420_8000 then Some(Code.Cbbge)
    else if word & 0xffe0_c000 == 0x7440_8000 then Some(Code.Cbbhi)
    else if word & 0xffe0_c000 == 0x7460_8000 then Some(Code.Cbbhs)
    else if word & 0xffe0_c000 == 0x74c0_8000 then Some(Code.Cbbeq)
    else if word & 0xffe0_c000 == 0x74e0_8000 then Some(Code.Cbbne)
    else if word & 0xffe0_c000 == 0x7400_c000 then Some(Code.Cbhgt)
    else if word & 0xffe0_c000 == 0x7420_c000 then Some(Code.Cbhge)
    else if word & 0xffe0_c000 == 0x7440_c000 then Some(Code.Cbhhi)
    else if word & 0xffe0_c000 == 0x7460_c000 then Some(Code.Cbhhs)
    else if word & 0xffe0_c000 == 0x74c0_c000 then Some(Code.Cbheq)
    else if word & 0xffe0_c000 == 0x74e0_c000 then Some(Code.Cbhne)
    else None
  }

  function FusedImmediate(word: bv32): Option<Code> {
    if word & 0x7fe0_4000 == 0x7500_0000 then Some(Code.Cbgt)
    else if word & 0x7fe0_4000 == 0x7520_0000 then Some(Code.Cblt)
    else if word & 0x7fe0_4000 == 0x7540_0000 then Some(Code.Cbhi)
    else if word & 0x7fe0_4000 == 0x7560_0000 then Some(Code.Cblo)
    else if word & 0x7fe0_4000 == 0x75c0_0000 then Some(Code.Cbeq)
    else if word & 0x7fe0_4000 == 0x75e0_0000 then Some(Code.Cbne)
    else None
  }

  function FusedRows(word: bv32, ip: U64, f: Gate): Option<Row> {
    var target, is64 := Near(ip, (word >> 5) & 0x1ff, 0x200), word & 0x8000_0000 != 0;
    if !f(Feature.Cmpbr) then None
    else if FusedRegister(word).Some? then
      Some(Fused(FusedRegister(word).value, [Rn(is64, word), Rn(is64, word >> 16), target]))
    else if FusedImmediate(word).Some? then
      Some(Fused(FusedImmediate(word).value, [Rn(is64, word), Imm((word >> 15) & 0x3f), target]))
    else None
  }

  // --- Branches to a register. ---

  function RegisterRows(word: bv32, f: Gate): Option<Row> {
    var xn, modifier := Xn(word >> 5), XnSp(word);
    if word & 0xffff_fc1f == 0xd61f_0000 then Some(Moves(Code.Br, [xn], IndirectBranch, Feature.Base))
    else if word & 0xffff_fc1f == 0xd63f_0000 then Some(Moves(Code.Blr, [xn], IndirectCall, Feature.Base))
    else if word == 0xd65f_03c0 then Some(Moves(Code.Ret, [], Return, Feature.Base))
    else if word & 0xffff_fc1f == 0xd65f_0000 then Some(Moves(Code.Ret, [xn], Return, Feature.Base))
    else if word == 0xd69f_03e0 then Some(Moves(Code.Eret, [], Return, Feature.Base))
    else if word == 0xd6bf_03e0 then Some(Moves(Code.Drps, [], Return, Feature.Base))
    else if word & 0xffff_f800 == 0xd65f_0800 then SignedReturnRows(word, f)
    else if !f(Feature.PAuth) then None
    else if word & 0xffff_fc1f == 0xd61f_081f then Some(Moves(Code.Braaz, [xn], IndirectBranch, Feature.PAuth))
    else if word & 0xffff_fc1f == 0xd61f_0c1f then Some(Moves(Code.Brabz, [xn], IndirectBranch, Feature.PAuth))
    else if word & 0xffff_fc1f == 0xd63f_081f then Some(Moves(Code.Blraaz, [xn], IndirectCall, Feature.PAuth))
    else if word & 0xffff_fc1f == 0xd63f_0c1f then Some(Moves(Code.Blrabz, [xn], IndirectCall, Feature.PAuth))
    else if word == 0xd69f_0bff then Some(Moves(Code.Eretaa, [], Return, Feature.PAuth))
    else if word == 0xd69f_0fff then Some(Moves(Code.Eretab, [], Return, Feature.PAuth))
    else if word & 0xffff_fc00 == 0xd71f_0800 then
      Some(Moves(Code.Braa, [xn, modifier], IndirectBranch, Feature.PAuth))
    else if word & 0xffff_fc00 == 0xd71f_0c00 then
      Some(Moves(Code.Brab, [xn, modifier], IndirectBranch, Feature.PAuth))
    else if word & 0xffff_fc00 == 0xd73f_0800 then
      Some(Moves(Code.Blraa, [xn, modifier], IndirectCall, Feature.PAuth))
    else if word & 0xffff_fc00 == 0xd73f_0c00 then
      Some(Moves(Code.Blrab, [xn, modifier], IndirectCall, Feature.PAuth))
    else None
  }

  // Signed with the stack pointer, or with PC and a register.
  function SignedReturnRows(word: bv32, f: Gate): Option<Row> {
    if word == 0xd65f_0bff then If(f(Feature.PAuth), Moves(Code.Retaa, [], Return, Feature.PAuth))
    else if word == 0xd65f_0fff then If(f(Feature.PAuth), Moves(Code.Retab, [], Return, Feature.PAuth))
    else if word & 0xffff_ffe0 == 0xd65f_0be0 then
      If(f(Feature.PauthLr), Moves(Code.Retaasppcr, [Xn(word)], Return, Feature.PauthLr))
    else if word & 0xffff_ffe0 == 0xd65f_0fe0 then
      If(f(Feature.PauthLr), Moves(Code.Retabsppcr, [Xn(word)], Return, Feature.PauthLr))
    else None
  }

  // --- Exceptions and TCHANGE. ---

  function Raises(c: Code, ops: seq<Operand>): Option<Row> { Some(Moves(c, ops, FlowControl.Exception, Feature.Base)) }

  function UnlessZero(n: bv32): seq<Operand> { if n == 0 then [] else [Imm(n)] }

  function ExceptionRows(word: bv32, f: Gate): Option<Row> {
    var n := (word >> 5) & 0xffff;
    if word & 0xffe0_001f == 0xd400_0001 then Raises(Code.Svc, [Imm(n)])
    else if word & 0xffe0_001f == 0xd400_0002 then Raises(Code.Hvc, [Imm(n)])
    else if word & 0xffe0_001f == 0xd400_0003 then Raises(Code.Smc, [Imm(n)])
    else if word & 0xffe0_001f == 0xd420_0000 then Raises(Code.Brk, [Imm(n)])
    else if word & 0xffe0_001f == 0xd440_0000 then Raises(Code.Hlt, [Imm(n)])
    else if word & 0xffe0_001f == 0xd460_0000 then If(f(Feature.Tme), Plain(Code.Tcancel, [Imm(n)], Feature.Tme))
    else if word & 0xffff_f01f == 0xd4e0_0000 then
      If(f(Feature.Tev), Plain(Code.Tenter, [Imm((word >> 5) & 0x7f)], Feature.Tev))
    else if word & 0xffff_f01f == 0xd4e2_0000 then
      If(f(Feature.Tev), Plain(Code.Tenter, [Imm((word >> 5) & 0x7f), SysOp(Keyword.Nb)], Feature.Tev))
    else if word & 0xffe0_001f == 0xd4a0_0001 then Raises(Code.Dcps1, UnlessZero(n))
    else if word & 0xffe0_001f == 0xd4a0_0002 then Raises(Code.Dcps2, UnlessZero(n))
    else if word & 0xffe0_001f == 0xd4a0_0003 then Raises(Code.Dcps3, UnlessZero(n))
    else None
  }

  function Changes(c: Code, m: Mnemonic, a: Operand, b: Operand, nb: bool): Option<Row> {
    Some(Row(c, m, if nb then [a, b, SysOp(Keyword.Nb)] else [a, b], Next, Feature.Tchange))
  }

  function TchangeRows(word: bv32, f: Gate): Option<Row> {
    var nb, n := word & 0x0002_0000 != 0, Imm((word >> 5) & 0x7f);
    if !f(Feature.Tchange) then None
    else if word & 0xfffd_fc00 == 0xd580_0000 then
      Changes(Code.TchangefReg, Mnemonic.Tchangef, Xn(word), Xn(word >> 5), nb)
    else if word & 0xfffd_fc00 == 0xd584_0000 then
      Changes(Code.TchangebReg, Mnemonic.Tchangeb, Xn(word), Xn(word >> 5), nb)
    else if word & 0xfffd_f000 == 0xd590_0000 then
      Changes(Code.TchangefImm, Mnemonic.Tchangef, Xn(word), n, nb)
    else if word & 0xfffd_f000 == 0xd594_0000 then
      Changes(Code.TchangebImm, Mnemonic.Tchangeb, Xn(word), n, nb)
    else None
  }

  // --- op0 == 00: hints, barriers, PSTATE. ---

  function Bare(c: Code): Row { Plain(c, [], Feature.Base) }

  // A hint that is written under another name.
  function Hinted(m: Mnemonic): Row { Row(Code.HintGeneric, m, [], Next, Feature.Base) }

  function PlainHints(n: bv32): Option<Row> {
    if n == 0 then Some(Bare(Code.Nop))
    else if n == 1 then Some(Bare(Code.Yield))
    else if n == 2 then Some(Bare(Code.Wfe))
    else if n == 3 then Some(Bare(Code.Wfi))
    else if n == 4 then Some(Bare(Code.Sev))
    else if n == 5 then Some(Bare(Code.Sevl))
    else if n == 16 then Some(Bare(Code.Esb))
    else if n == 20 then Some(Bare(Code.Csdb))
    else None
  }

  function SigningHints(n: bv32): Option<Row> {
    if n == 7 then Some(Hinted(Mnemonic.Xpaclri))
    else if n == 8 then Some(Hinted(Mnemonic.Pacia1716))
    else if n == 10 then Some(Hinted(Mnemonic.Pacib1716))
    else if n == 12 then Some(Hinted(Mnemonic.Autia1716))
    else if n == 14 then Some(Hinted(Mnemonic.Autib1716))
    else if n == 24 then Some(Hinted(Mnemonic.Paciaz))
    else if n == 25 then Some(Hinted(Mnemonic.Paciasp))
    else if n == 26 then Some(Hinted(Mnemonic.Pacibz))
    else if n == 27 then Some(Hinted(Mnemonic.Pacibsp))
    else if n == 28 then Some(Hinted(Mnemonic.Autiaz))
    else if n == 29 then Some(Hinted(Mnemonic.Autiasp))
    else if n == 30 then Some(Hinted(Mnemonic.Autibz))
    else if n == 31 then Some(Hinted(Mnemonic.Autibsp))
    else if n == 39 then Some(Hinted(Mnemonic.Pacm))
    else None
  }

  // The hints of FEAT_PCDPHINT.
  function StashHints(n: bv32): Option<Row> {
    if n == 48 then Some(Plain(Code.Stshh, [SysOp(Keyword.Keep)], Feature.Pcdphint))
    else if n == 49 then Some(Plain(Code.Stshh, [SysOp(Keyword.Strm)], Feature.Pcdphint))
    else if n == 50 then Some(Plain(Code.Shuh, [], Feature.Pcdphint))
    else if n == 51 then Some(Plain(Code.Shuh, [SysOp(Keyword.Ph)], Feature.Pcdphint))
    else if n == 52 then Some(Plain(Code.Stcph, [], Feature.Pcdphint))
    else if 53 <= n <= 55 then Some(Plain(Code.Stshh, [Imm(n - 48)], Feature.Pcdphint))
    else None
  }

  // The hints that one extension names, BTI, and those that nothing names.
  function OtherHints(n: bv32, f: Gate): Row {
    if n == 6 && f(Feature.Dgh) then Plain(Code.Dgh, [], Feature.Dgh)
    else if n == 17 then Plain(Code.Psb, [SysOp(Keyword.Csync)], Feature.Base)
    else if n == 18 && f(Feature.Trf) then Plain(Code.Tsb, [SysOp(Keyword.Csync)], Feature.Trf)
    else if n == 19 && f(Feature.Gcs) then Plain(Code.Gcsb, [SysOp(Keyword.Dsync)], Feature.Gcs)
    else if n == 22 && f(Feature.Clrbhb) then Plain(Code.Clrbhb, [], Feature.Clrbhb)
    else if n == 40 && f(Feature.Chk) then Plain(Code.Chkfeat, [Reg(X(16), PLAIN)], Feature.Chk)
    else if n == 32 then Bare(Code.Bti)
    else if n == 34 then Plain(Code.Bti, [SysOp(Keyword.TargetC)], Feature.Base)
    else if n == 36 then Plain(Code.Bti, [SysOp(Keyword.TargetJ)], Feature.Base)
    else if n == 38 then Plain(Code.Bti, [SysOp(Keyword.TargetJc)], Feature.Base)
    else Plain(Code.HintGeneric, [Imm(n)], Feature.Base)
  }

  // HINT #n, named or not.
  function HintRow(n: bv32, f: Gate): Row {
    if PlainHints(n).Some? then PlainHints(n).value
    else if f(Feature.PAuth) && SigningHints(n).Some? then SigningHints(n).value
    else if f(Feature.Pcdphint) && StashHints(n).Some? then StashHints(n).value
    else OtherHints(n, f)
  }

  // The option of DSB and DMB: CRm is domain:type.
  function Scope(crm: bv32): Operand {
    if crm == 15 then SysOp(Keyword.Sy)
    else if crm == 14 then SysOp(Keyword.St)
    else if crm == 13 then SysOp(Keyword.Ld)
    else if crm == 11 then SysOp(Keyword.Ish)
    else if crm == 10 then SysOp(Keyword.Ishst)
    else if crm == 9 then SysOp(Keyword.Ishld)
    else if crm == 7 then SysOp(Keyword.Nsh)
    else if crm == 6 then SysOp(Keyword.Nshst)
    else if crm == 5 then SysOp(Keyword.Nshld)
    else if crm == 3 then SysOp(Keyword.Osh)
    else if crm == 2 then SysOp(Keyword.Oshst)
    else if crm == 1 then SysOp(Keyword.Oshld)
    else Imm(crm)
  }

  function UnlessFull(crm: bv32): seq<Operand> { if crm == 15 then [] else [Imm(crm)] }

  // The variants of DSB that only order accesses with the XS attribute.
  function NoXs(k: Keyword, f: Gate): Option<Row> { If(f(Feature.Xs), Plain(Code.Dsb, [SysOp(k)], Feature.Base)) }

  function BarrierRows(word: bv32, f: Gate): Option<Row> {
    var crm := (word >> 8) & 15;
    if word & 0xfff8_ffff == 0xd500_323f then NoXs(Keyword.OshNxs, f)
    else if word & 0xfff8_ffff == 0xd500_363f then NoXs(Keyword.NshNxs, f)
    else if word & 0xfff8_ffff == 0xd500_3a3f then NoXs(Keyword.IshNxs, f)
    else if word & 0xfff8_ffff == 0xd500_3e3f then NoXs(Keyword.SyNxs, f)
    else if word & 0xfff8_f0ff == 0xd500_305f then Some(Plain(Code.Clrex, UnlessFull(crm), Feature.Base))
    else if word & 0xfff8_ffff == 0xd500_307f then If(f(Feature.Tme), Plain(Code.Tcommit, [], Feature.Tme))
    else if word & 0xfff8_ffff == 0xd500_309f then Some(Row(Code.Dsb, Mnemonic.Ssbb, [], Next, Feature.Base))
    else if word & 0xfff8_ffff == 0xd500_349f then Some(Row(Code.Dsb, Mnemonic.Pssbb, [], Next, Feature.Base))
    else if word & 0xfff8_f0ff == 0xd500_309f then Some(Plain(Code.Dsb, [Scope(crm)], Feature.Base))
    else if word & 0xfff8_f0ff == 0xd500_30bf then Some(Plain(Code.Dmb, [Scope(crm)], Feature.Base))
    else if word & 0xfff8_f0ff == 0xd500_30df then Some(Plain(Code.Isb, UnlessFull(crm), Feature.Base))
    else if word & 0xfff8_f0ff == 0xd500_30ff then Some(Bare(Code.Sb))
    else Moved(word)
  }

  // MSR <field>, #CRm.
  function SetsField(k: Keyword, word: bv32): Option<Row> {
    Some(Row(Code.MsrImm, Mnemonic.Msr, [SysOp(k), Imm((word >> 8) & 15)], Next, Feature.Base))
  }

  // SMSTART and SMSTOP, in whole or for one of the two; not gated.
  function Streams(c: Code, ops: seq<Operand>): Option<Row> { Some(Plain(c, ops, Feature.Sme)) }

  function PstateRows(word: bv32): Option<Row> {
    if word & 0xffff_f7ff == 0xd503_427f then Streams(Code.Smstop, [SysOp(Keyword.Sm)])
    else if word & 0xffff_f7ff == 0xd503_437f then Streams(Code.Smstart, [SysOp(Keyword.Sm)])
    else if word & 0xffff_f7ff == 0xd503_447f then Streams(Code.Smstop, [SysOp(Keyword.ZaOption)])
    else if word & 0xffff_f7ff == 0xd503_457f then Streams(Code.Smstart, [SysOp(Keyword.ZaOption)])
    else if word & 0xffff_f1ff == 0xd503_407f then Streams(Code.Smstop, [])
    else if word & 0xffff_f1ff == 0xd503_417f then Streams(Code.Smstart, [])
    else if word & 0xffff_f0ff == 0xd500_401f then Some(Bare(Code.Cfinv))
    else if word & 0xffff_f0ff == 0xd500_403f then Some(Bare(Code.Xaflag))
    else if word & 0xffff_f0ff == 0xd500_405f then Some(Bare(Code.Axflag))
    else if word & 0xffff_f0ff == 0xd500_407f then SetsField(Keyword.Uao, word)
    else if word & 0xffff_f0ff == 0xd500_40bf then SetsField(Keyword.Spsel, word)
    else if word & 0xffff_f0ff == 0xd501_401f then SetsField(Keyword.Allint, word)
    else if word & 0xffff_feff == 0xd503_403f then SetsField(Keyword.Ssbs, word)
    else if word & 0xffff_f0ff == 0xd503_405f then SetsField(Keyword.Dit, word)
    else if word & 0xffff_f0ff == 0xd503_409f then SetsField(Keyword.Tco, word)
    else if word & 0xffff_f0ff == 0xd503_40df then SetsField(Keyword.DaifSet, word)
    else if word & 0xffff_f0ff == 0xd503_40ff then SetsField(Keyword.DaifClr, word)
    else Moved(word)
  }

  // MSR and MRS of a system register.
  function Moved(word: bv32): Option<Row> {
    if word & 0x0020_0000 == 0 then
      Some(Row(Code.MsrReg, Mnemonic.Msr, [SysRegister(word), Xn(word)], Next, Feature.Base))
    else Some(Plain(Code.Mrs, [Xn(word), SysRegister(word)], Feature.Base))
  }

  function NamedRows(word: bv32, f: Gate): Option<Row> {
    if word & 0xffff_ffe0 == 0xd523_3060 then If(f(Feature.Tme), Plain(Code.Tstart, [Xn(word)], Feature.Tme))
    else if word & 0xffff_ffe0 == 0xd523_3160 then If(f(Feature.Tme), Plain(Code.Ttest, [Xn(word)], Feature.Tme))
    else if word & 0xfff8_ffe0 == 0xd500_1000 then If(f(Feature.Wfxt), Plain(Code.Wfet, [Xn(word)], Feature.Wfxt))
    else if word & 0xfff8_ffe0 == 0xd500_1020 then If(f(Feature.Wfxt), Plain(Code.Wfit, [Xn(word)], Feature.Wfxt))
    else if word & 0xfff8_f01f == 0xd500_201f then Some(HintRow((word >> 5) & 0x7f, f))
    else if word & 0xfff8_f01f == 0xd500_301f then BarrierRows(word, f)
    else if word & 0xfff8_f01f == 0xd500_401f then PstateRows(word)
    else Moved(word)
  }

  // --- op0 == 01: SYS and SYSL. ---

  function Operates(m: Mnemonic, word: bv32): Option<Row> {
    Some(Row(Code.Sys, m, [SysOp(Keyword.Rctx), Xn(word)], Next, Feature.Base))
  }

  function GcsRows(word: bv32): Option<Row> {
    if word & 0xffff_ffe0 == 0xd508_7780 then Some(Plain(Code.Gcspushx, [], Feature.Gcs))
    else if word & 0xffff_ffe0 == 0xd508_77a0 then Some(Plain(Code.Gcspopcx, [], Feature.Gcs))
    else if word & 0xffff_ffe0 == 0xd508_77c0 then Some(Plain(Code.Gcspopx, [], Feature.Gcs))
    else if word & 0xffff_ffe0 == 0xd50b_7700 then Some(Plain(Code.Gcspushm, [Xn(word)], Feature.Gcs))
    else if word & 0xffff_ffe0 == 0xd50b_7740 then Some(Plain(Code.Gcsss1, [Xn(word)], Feature.Gcs))
    else if word == 0xd52b_773f then Some(Plain(Code.Gcspopm, [], Feature.Gcs))
    else if word & 0xffff_ffe0 == 0xd52b_7720 then Some(Plain(Code.Gcspopm, [Xn(word)], Feature.Gcs))
    else if word & 0xffff_ffe0 == 0xd52b_7760 then Some(Plain(Code.Gcsss2, [Xn(word)], Feature.Gcs))
    else None
  }

  // The row of the directory that op1, CRn, CRm and op2 select.
  function Selected(word: bv32, table: SysTable): Option<SysEntry> {
    table(word & 0x0020_0000 != 0, (word >> 16) & 7, (word >> 12) & 15, (word >> 8) & 15, (word >> 5) & 7)
  }

  // The name of the operation, if it has one, and the register, if it takes one.
  function Spelt(t: SysEntry, rt: Operand): seq<Operand> {
    if t.name.None? then (if t.needsRt then [rt] else [])
    else if !t.needsRt then [SysOp(t.name.value)]
    else if t.kwFirst then [SysOp(t.name.value), rt]
    else [rt, SysOp(t.name.value)]
  }

  // #op1, Cn, Cm, #op2.
  function Numbered(word: bv32): seq<Operand> {
    [Imm((word >> 16) & 7), SysOp(Keyword.Cr((word >> 12) & 15)), SysOp(Keyword.Cr((word >> 8) & 15)),
     Imm((word >> 5) & 7)]
  }

  function SysRows(word: bv32, f: Gate, table: SysTable): Option<Row> {
    if word & 0xffff_ffe0 == 0xd50b_7380 then Operates(Mnemonic.Cfp, word)
    else if word & 0xffff_ffe0 == 0xd50b_73a0 then Operates(Mnemonic.Dvp, word)
    else if word & 0xffff_ffe0 == 0xd50b_73e0 then Operates(Mnemonic.Cpp, word)
    else if f(Feature.Gcs) && GcsRows(word).Some? then GcsRows(word)
    else if Selected(word, table).Some? then
      Some(Row(if word & 0x0020_0000 == 0 then Code.Sys else Code.Sysl, Selected(word, table).value.mnem,
               Spelt(Selected(word, table).value, Xn(word)), Next, Feature.Base))
    else if word & 0x0020_0000 == 0 then Some(Plain(Code.Sys, Numbered(word) + [Xn(word)], Feature.Base))
    else Some(Plain(Code.Sysl, [Xn(word)] + Numbered(word), Feature.Base))
  }

  // --- Pairs of registers. ---

  function PairRows(word: bv32, f: Gate, table: SysTable): Option<Row> {
    if !f(Feature.D128) then None
    else if word & 0xfff8_0000 == 0xd548_0000 then SyspRows(word, table)
    else if word & 0xffe0_0001 == 0xd560_0000 then
      Some(Plain(Code.Mrrs, [Pair(word), SysRegister(word)], Feature.D128))
    else if word & 0xffe0_0001 == 0xd540_0000 then
      Some(Plain(Code.Msrr, [SysRegister(word), Pair(word)], Feature.D128))
    else None
  }

  // Rt is even, or 31 for no transfer. TLBIP is the TLBI of the directory on a pair.
  function SyspRows(word: bv32, table: SysTable): Option<Row> {
    var t, none := Selected(word, table), word & 31 == 31;
    if word & 1 == 1 && !none then None
    else if t.Some? && t.value.mnem == Mnemonic.Tlbi then
      Some(Row(Code.Sysp, Mnemonic.Tlbip,
               [if t.value.name.Some? then SysOp(t.value.name.value) else NoOperand,
                if none then RegPair(Xzr, Xzr) else Pair(word)], Next, Feature.D128))
    else if none then Some(Plain(Code.Sysp, Numbered(word), Feature.D128))
    else Some(Plain(Code.Sysp, Numbered(word) + [Pair(word)], Feature.D128))
  }

  // --- Reserved words. ---

  // The operations of the coprocessor on a register.
  function AmxOperation(word: bv32): Option<AppleOp> {
    if word & 0xffff_ffe0 == 0x0020_1000 then Some(AmxLdx)
    else if word & 0xffff_ffe0 == 0x0020_1020 then Some(AmxLdy)
    else if word & 0xffff_ffe0 == 0x0020_1040 then Some(AmxStx)
    else if word & 0xffff_ffe0 == 0x0020_1060 then Some(AmxSty)
    else if word & 0xffff_ffe0 == 0x0020_1080 then Some(AmxLdz)
    else if word & 0xffff_ffe0 == 0x0020_10a0 then Some(AmxStz)
    else if word & 0xffff_ffe0 == 0x0020_10c0 then Some(AmxLdzi)
    else if word & 0xffff_ffe0 == 0x0020_10e0 then Some(AmxStzi)
    else if word & 0xffff_ffe0 == 0x0020_1100 then Some(AmxExtrx)
    else if word & 0xffff_ffe0 == 0x0020_1120 then Some(AmxExtry)
    else if word & 0xffff_ffe0 == 0x0020_1140 then Some(AmxFma64)
    else if word & 0xffff_ffe0 == 0x0020_1160 then Some(AmxFms64)
    else if word & 0xffff_ffe0 == 0x0020_1180 then Some(AmxFma32)
    else if word & 0xffff_ffe0 == 0x0020_11a0 then Some(AmxFms32)
    else if word & 0xffff_ffe0 == 0x0020_11c0 then Some(AmxMac16)
    else if word & 0xffff_ffe0 == 0x0020_11e0 then Some(AmxFma16)
    else if word & 0xffff_ffe0 == 0x0020_1200 then Some(AmxFms16)
    else if word & 0xffff_ffe0 == 0x0020_1240 then Some(AmxVecint)
    else if word & 0xffff_ffe0 == 0x0020_1260 then Some(AmxVecfp)
    else if word & 0xffff_ffe0 == 0x0020_1280 then Some(AmxMatint)
    else if word & 0xffff_ffe0 == 0x0020_12a0 then Some(AmxMatfp)
    else if word & 0xffff_ffe0 == 0x0020_12c0 then Some(AmxGenlut)
    else None
  }

  function AmxRows(word: bv32): Option<Row> {
    if AmxOperation(word).Some? then
      Some(Plain(Code.AppleCode(AmxOperation(word).value), [Xn(word)], Feature.AppleAmx))
    else if word == 0x0020_1220 then Some(Plain(Code.AppleCode(AmxSet), [], Feature.AppleAmx))
    else if word == 0x0020_1221 then Some(Plain(Code.AppleCode(AmxClr), [], Feature.AppleAmx))
    else None
  }

  function ReservedRows(word: bv32, f: Gate): Option<Row> {
    if word & 0xffff_0000 == 0 then Some(Plain(Code.Udf, [Imm(word)], Feature.Base))
    else if f(Feature.AppleAmx) && AmxRows(word).Some? then AmxRows(word)
    else if word & 0xffff_ffe0 == 0x0020_1420 then
      If(f(Feature.Gxf), Plain(Code.AppleCode(Genter), [Imm(word & 31)], Feature.Gxf))
    else if word == 0x0020_1400 then If(f(Feature.Gxf), Plain(Code.AppleCode(Gexit), [], Feature.Gxf))
    else None
  }

  // --- The table. ---

  function Rows(word: bv32, ip: U64, f: Gate, table: SysTable): Option<Row> {
    if word & 0xfe00_0000 == 0xd600_0000 then RegisterRows(word, f)
    else if word & 0xff00_0000 == 0xd400_0000 then ExceptionRows(word, f)
    else if word & 0xffd8_0000 == 0xd500_0000 then NamedRows(word, f)
    else if word & 0xffd8_0000 == 0xd508_0000 then SysRows(word, f, table)
    else if word & 0xffd0_0000 == 0xd510_0000 then Moved(word)
    else if word & 0xffc0_0000 == 0xd540_0000 then PairRows(word, f, table)
    else if word & 0xffc0_0000 == 0xd580_0000 then TchangeRows(word, f)
    else if word & 0xfe00_0000 == 0x5400_0000 then ConditionalRows(word, ip, f)
    else if word & 0x7e00_0000 == 0x3400_0000 then CompareRows(word, ip)
    else if word & 0x7e00_0000 == 0x3600_0000 then TestRows(word, ip)
    else if word & 0x7e00_0000 == 0x7400_0000 then FusedRows(word, ip, f)
    else if word & 0x7c00_0000 == 0x1400_0000 then JumpRows(word, ip)
    else ReservedRows(word, f)
  }
}
