/** `src/encode/mod.rs` and the operand helpers of `src/encode/branch_sys.rs`: reading
    the fields of a word back off the operands of an instruction. */
module Encoding {
  import opened Wrappers
  import opened Ints
  import opened Fields
  import opened Isa
  import opened Instructions

  datatype EncodeError = Unsupported | InvalidOperand | InvalidImmediate | InvalidCode

  type Encoded = Result<bv32, EncodeError>

  function RegNum(v: Insn, n: nat): Encoded {
    if v.Op(n).Reg? then Ok(Number(v.Op(n).reg)) else Err(InvalidOperand)
  }

  function IsXReg(v: Insn, n: nat): Result<bool, EncodeError> {
    if v.Op(n).Reg? then Ok(WidthBits(v.Op(n).reg) == 64) else Err(InvalidOperand)
  }

  function ImmU(v: Insn, n: nat): Result<U64, EncodeError> {
    var o := v.Op(n);
    if o.ImmUnsigned? then Ok(o.value)
    else if o.ImmLogical? then Ok(o.value)
    else if o.ImmSigned? then Ok(Unsigned(o.signed))
    else if o.ShiftAmount? && o.amount <= 0xff then Ok(o.amount)
    else Err(InvalidOperand)
  }

  // imm_u(n)? as u32.
  function ImmU32(v: Insn, n: nat): Encoded {
    var x :- ImmU(v, n);
    Ok(Low32(x))
  }

  function LabelOf(v: Insn, n: nat): Result<U64, EncodeError> {
    if v.Op(n).Label? then Ok(v.Op(n).target) else Err(InvalidOperand)
  }

  function KeywordOf(v: Insn, n: nat): Result<Keyword, EncodeError> {
    if v.Op(n).SysOp? then Ok(v.Op(n).keyword) else Err(InvalidOperand)
  }

  function SysRegAt(v: Insn, n: nat): Encoded {
    if v.Op(n).SysReg? then Ok(v.Op(n).sysreg) else Err(InvalidOperand)
  }

  // rel_imm(label(n)?, ip, ..): the immediate field of a label.
  function RelField(v: Insn, n: nat, s: Span): (r: Result<nat, EncodeError>)
    ensures r.Ok? ==> r.value < 2 * Half(s)
  {
    var target :- LabelOf(v, n);
    match RelImm(target, v.ip, s)
    case Some(imm) => Ok(imm)
    case None => Err(InvalidImmediate)
  }
}
