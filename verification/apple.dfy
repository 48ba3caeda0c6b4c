/** `src/decode/apple.rs` and `src/encode/apple.rs`: the AMX and GXF instructions of
    Apple silicon, exact inverses of each other in both directions. */
module Apple {
  import opened Wrappers
  import opened Ints
  import opened Features
  import opened Isa
  import opened Instructions
  import opened Encoding
  import opened BranchSpec
  import BranchLaws

  // --- Decoding. ---

  // The operation an AMX op number selects; 17 is set/clr and 23..31 are unallocated.
  function AmxCode(op: bv32): Option<AppleOp> {
    if op == 0 then Some(AppleOp.AmxLdx)
    else if op == 1 then Some(AppleOp.AmxLdy)
    else if op == 2 then Some(AppleOp.AmxStx)
    else if op == 3 then Some(AppleOp.AmxSty)
    else if op == 4 then Some(AppleOp.AmxLdz)
    else if op == 5 then Some(AppleOp.AmxStz)
    else if op == 6 then Some(AppleOp.AmxLdzi)
    else if op == 7 then Some(AppleOp.AmxStzi)
    else if op == 8 then Some(AppleOp.AmxExtrx)
    else if op == 9 then Some(AppleOp.AmxExtry)
    else if op == 10 then Some(AppleOp.AmxFma64)
    else if op == 11 then Some(AppleOp.AmxFms64)
    else if op == 12 then Some(AppleOp.AmxFma32)
    else if op == 13 then Some(AppleOp.AmxFms32)
    else if op == 14 then Some(AppleOp.AmxMac16)
    else if op == 15 then Some(AppleOp.AmxFma16)
    else if op == 16 then Some(AppleOp.AmxFms16)
    else if op == 18 then Some(AppleOp.AmxVecint)
    else if op == 19 then Some(AppleOp.AmxVecfp)
    else if op == 20 then Some(AppleOp.AmxMatint)
    else if op == 21 then Some(AppleOp.AmxMatfp)
    else if op == 22 then Some(AppleOp.AmxGenlut)
    else None
  }

  function AmxOf(op: bv32, operand: bv32, v: Insn): Insn {
    if op == 17 then
      if operand == 0 then v.Set(Code.AppleCode(AppleOp.AmxSet))
      else if operand == 1 then v.Set(Code.AppleCode(AppleOp.AmxClr))
      else v
    else
      match AmxCode(op)
      case None => v
      case Some(c) => v.Set(Code.AppleCode(c)).Push(XReg(false, operand))
  }

  function GxfOf(sub: bv32, imm5: bv32, v: Insn): Insn {
    if sub == 0 then (if imm5 == 0 then v.Set(Code.AppleCode(AppleOp.Gexit)) else v)
    else if sub == 1 then v.Set(Code.AppleCode(AppleOp.Genter)).Push(ImmUnsigned(imm5 as int))
    else v
  }

  function AppleOf(word: bv32, f: Gate, v: Insn): Insn {
    if word & 0xffff_fc00 == 0x0020_1000 then
      if f(Feature.AppleAmx) then AmxOf((word >> 5) & 31, word & 31, v) else v
    else if word & 0xffff_fc00 == 0x0020_1400 && f(Feature.Gxf) then GxfOf((word >> 5) & 31, word & 31, v)
    else v
  }

  method DecodeApple(word: bv32, f: FeatureSet, out: Instruction)
    requires out.Valid()
    modifies out, out.operands
    ensures out.Valid()
    ensures out.View() == AppleOf(word, f.Has, old(out.View()))
  {
    if word & 0xffff_fc00 == 0x0020_1000 {
      if f.Has(Feature.AppleAmx) {
        DecodeAmx((word >> 5) & 31, word & 31, out);
      }
      return;
    }
    if word & 0xffff_fc00 == 0x0020_1400 && f.Has(Feature.Gxf) {
      DecodeGxf((word >> 5) & 31, word & 31, out);
    }
  }

  method DecodeAmx(op: bv32, operand: bv32, out: Instruction)
    requires out.Valid()
    modifies out, out.operands
    ensures out.Valid()
    ensures out.View() == AmxOf(op, operand, old(out.View()))
  {
    if op == 17 {
      if operand == 0 {
        out.Set(Code.AppleCode(AppleOp.AmxSet));
      } else if operand == 1 {
        out.Set(Code.AppleCode(AppleOp.AmxClr));
      }
      return;
    }
    var code := AmxCode(op);
    if code.None? {
      return;
    }
    out.Set(Code.AppleCode(code.value));
    out.PushOperand(XReg(false, operand));
  }

  method DecodeGxf(sub: bv32, imm5: bv32, out: Instruction)
    requires out.Valid()
    modifies out, out.operands
    ensures out.Valid()
    ensures out.View() == GxfOf(sub, imm5, old(out.View()))
  {
    if sub == 0 {
      if imm5 == 0 {
        out.Set(Code.AppleCode(AppleOp.Gexit));
      }
    } else if sub == 1 {
      out.Set(Code.AppleCode(AppleOp.Genter));
      out.PushOperand(ImmUnsigned(imm5 as int));
    }
  }

  // --- Encoding. ---

  function AmxOp(c: AppleOp): Option<bv32> {
    if c.AmxLdx? then Some(0)
    else if c.AmxLdy? then Some(1)
    else if c.AmxStx? then Some(2)
    else if c.AmxSty? then Some(3)
    else if c.AmxLdz? then Some(4)
    else if c.AmxStz? then Some(5)
    else if c.AmxLdzi? then Some(6)
    else if c.AmxStzi? then Some(7)
    else if c.AmxExtrx? then Some(8)
    else if c.AmxExtry? then Some(9)
    else if c.AmxFma64? then Some(10)
    else if c.AmxFms64? then Some(11)
    else if c.AmxFma32? then Some(12)
    else if c.AmxFms32? then Some(13)
    else if c.AmxMac16? then Some(14)
    else if c.AmxFma16? then Some(15)
    else if c.AmxFms16? then Some(16)
    else if c.AmxVecint? then Some(18)
    else if c.AmxVecfp? then Some(19)
    else if c.AmxMatint? then Some(20)
    else if c.AmxMatfp? then Some(21)
    else if c.AmxGenlut? then Some(22)
    else None
  }

  function AmxWord(op: bv32, operand: bv32): bv32 {
    0x0020_1000 | (op << 5) | (operand & 31)
  }

  function EncodeApple(v: Insn): Encoded {
    if v.code.AppleCode? then EncodeOp(v.code.apple, v) else Err(Unsupported)
  }

  function EncodeOp(op: AppleOp, v: Insn): Encoded {
    if op.Gexit? then Ok(0x0020_1400)
    else if op.Genter? then EncodeGenter(v)
    else if op.AmxSet? then Ok(AmxWord(17, 0))
    else if op.AmxClr? then Ok(AmxWord(17, 1))
    else if AmxOp(op).None? then Err(Unsupported)
    else
      var n :- RegNum(v, 0);
      Ok(AmxWord(AmxOp(op).value, n))
  }

  function EncodeGenter(v: Insn): Encoded {
    if !v.Op(0).ImmUnsigned? then Err(InvalidOperand)
    else if v.Op(0).value > 31 then Err(InvalidImmediate)
    else Ok(0x0020_1420 | Low32(v.Op(0).value))
  }

  // --- What a word decodes to encodes to that word. ---

  lemma AmxCodeInverts(op: bv32)
    requires AmxCode(op).Some?
    ensures AmxOp(AmxCode(op).value) == Some(op)
  {
  }

  lemma AmxOpInverts(c: AppleOp)
    requires AmxOp(c).Some?
    ensures AmxCode(AmxOp(c).value) == Some(c) && AmxOp(c).value <= 22 && AmxOp(c).value != 17
  {
  }

  lemma AmxRoundTrip(op: bv32, operand: bv32, v: Insn)
    requires operand < 32 && v.IsInvalid()
    ensures var d := AmxOf(op, operand, v); d.IsInvalid() || EncodeApple(d) == Ok(AmxWord(op, operand))
  {
    if op != 17 && AmxCode(op).Some? {
      var r := BranchLaws.XOperand(false, operand);
      AmxCodeInverts(op);
      AmxLeaf(AmxCode(op).value, op, r, v);
    }
  }

  lemma AmxLeaf(c: AppleOp, op: bv32, r: Register, v: Insn)
    requires AmxOp(c) == Some(op)
    ensures EncodeApple(v.Set(Code.AppleCode(c)).Push(Reg(r, PLAIN))) == Ok(AmxWord(op, Number(r)))
  {
  }

  lemma GxfRoundTrip(word: bv32, v: Insn)
    requires word & 0xffff_fc00 == 0x0020_1400 && v.IsInvalid()
    ensures var d := GxfOf((word >> 5) & 31, word & 31, v); d.IsInvalid() || EncodeApple(d) == Ok(word)
  {
    if (word >> 5) & 31 == 1 {
      Low32Of(word & 31);
      Below5(word & 31);
    }
  }

  lemma Below5(x: bv32)
    ensures x <= 31 <==> x as int <= 31
  {
  }

  // Every word and every gate.
  lemma EncodeOfDecode(word: bv32, f: Gate, v: Insn)
    requires v.IsInvalid()
    ensures var d := AppleOf(word, f, v); d.IsInvalid() || EncodeApple(d) == Ok(word)
  {
    if word & 0xffff_fc00 == 0x0020_1000 {
      AmxRoundTrip((word >> 5) & 31, word & 31, v);
    } else if word & 0xffff_fc00 == 0x0020_1400 {
      GxfRoundTrip(word, v);
    }
  }

  // --- What encodes decodes to the same encoding and operand. ---

  lemma AmxWordFields(op: bv32, operand: bv32)
    requires op <= 22 && operand < 32
    ensures var w := AmxWord(op, operand);
            w & 0xffff_fc00 == 0x0020_1000 && (w >> 5) & 31 == op && w & 31 == operand
  {
  }

  // The register number or immediate an Apple encoding carries.
  predicate SameOperand(d: Insn, e: Insn) {
    if !e.code.AppleCode? then true
    else if AmxOp(e.code.apple).Some? then RegNum(d, 0) == RegNum(e, 0)
    else if e.code.apple.Genter? then d.Op(0) == e.Op(0)
    else true
  }

  lemma AmxDecodesTo(op: bv32, c: AppleOp, n: bv32, f: Gate, v: Insn)
    requires op <= 22 && op != 17 && n < 32 && AmxCode(op) == Some(c) && f(Feature.AppleAmx)
    ensures AppleOf(AmxWord(op, n), f, v) == v.Set(Code.AppleCode(c)).Push(XReg(false, n))
  {
    AmxWordFields(op, n);
  }

  lemma AmxDecodes(c: AppleOp, n: bv32, f: Gate, v: Insn)
    requires AmxOp(c).Some? && n < 32 && f(Feature.AppleAmx)
    ensures var d := AppleOf(AmxWord(AmxOp(c).value, n), f, v); d.code == Code.AppleCode(c) && RegNum(d, 0) == Ok(n)
  {
    AmxOpInverts(c);
    AmxDecodesTo(AmxOp(c).value, c, n, f, v);
    var r := BranchLaws.XOperand(false, n);
    AmxOperand(Code.AppleCode(c), r, v);
  }

  lemma AmxOperand(c: Code, r: Register, v: Insn)
    ensures var d := v.Set(c).Push(Reg(r, PLAIN)); d.code == c && RegNum(d, 0) == Ok(Number(r))
  {
  }

  lemma StateDecodes(f: Gate, v: Insn)
    requires f(Feature.AppleAmx)
    ensures AppleOf(AmxWord(17, 0), f, v) == v.Set(Code.AppleCode(AppleOp.AmxSet))
    ensures AppleOf(AmxWord(17, 1), f, v) == v.Set(Code.AppleCode(AppleOp.AmxClr))
  {
    AmxWordFields(17, 0);
    AmxWordFields(17, 1);
  }

  lemma GenterDecodes(n: U64, f: Gate, v: Insn)
    requires n <= 31 && f(Feature.Gxf)
    ensures var d := AppleOf(0x0020_1420 | Low32(n), f, v);
            d.code == Code.AppleCode(AppleOp.Genter) && d.Op(0) == ImmUnsigned(n)
  {
    var x := WordOf(n);
    Below5(x);
    assert AppleOf(0x0020_1420 | x, f, v) == v.Set(Code.AppleCode(AppleOp.Genter)).Push(ImmUnsigned(x as int));
  }

  lemma GexitDecodes(f: Gate, v: Insn)
    requires f(Feature.Gxf)
    ensures AppleOf(0x0020_1400, f, v) == v.Set(Code.AppleCode(AppleOp.Gexit))
  {
    assert (0x0020_1400 as bv32) & 0xffff_fc00 == 0x0020_1400;
  }

  // Every instruction the Apple encoder accepts, edited ones included.
  lemma DecodeOfEncode(e: Insn, f: Gate, v: Insn)
    requires EncodeApple(e).Ok? && f(Feature.AppleAmx) && f(Feature.Gxf)
    ensures var d := AppleOf(EncodeApple(e).value, f, v); d.code == e.code && SameOperand(d, e)
  {
    var op := e.code.apple;
    EncodesOp(op, e);
    if AmxOp(op).Some? {
      AmxDecodes(op, RegNum(e, 0).value, f, v);
    } else if op.Genter? {
      GenterDecodes(e.Op(0).value, f, v);
    } else if op.Gexit? {
      GexitDecodes(f, v);
    } else {
      StateDecodes(f, v);
    }
  }

  lemma EncodesOp(op: AppleOp, e: Insn)
    requires EncodeOp(op, e).Ok?
    ensures if AmxOp(op).Some? then
              RegNum(e, 0).Ok? && EncodeOp(op, e) == Ok(AmxWord(AmxOp(op).value, RegNum(e, 0).value))
            else if op.Genter? then EncodeOp(op, e) == EncodeGenter(e)
            else if op.Gexit? then EncodeOp(op, e) == Ok(0x0020_1400)
            else (op.AmxSet? || op.AmxClr?) && EncodeOp(op, e) == Ok(AmxWord(17, if op.AmxSet? then 0 else 1))
  {
  }

  // --- Gate soundness of the cluster. ---

  lemma FeatureOfApple(op: AppleOp)
    ensures FeatureOf(Code.AppleCode(op)) == if op.Genter? || op.Gexit? then Feature.Gxf else Feature.AppleAmx
  {
  }

  lemma AmxGated(op: bv32, operand: bv32, f: Gate, v: Insn)
    requires v.IsInvalid() && f(Feature.AppleAmx)
    ensures var d := AmxOf(op, operand, v); d.IsInvalid() || f(FeatureOf(d.code))
  {
    var c := AmxOf(op, operand, v).code;
    if c.AppleCode? { FeatureOfApple(c.apple); }
  }

  lemma GxfGated(sub: bv32, imm5: bv32, f: Gate, v: Insn)
    requires v.IsInvalid() && f(Feature.Gxf)
    ensures var d := GxfOf(sub, imm5, v); d.IsInvalid() || f(FeatureOf(d.code))
  {
    FeatureOfApple(AppleOp.Genter);
    FeatureOfApple(AppleOp.Gexit);
  }

  lemma AppleCases(word: bv32, f: Gate, v: Insn)
    ensures || AppleOf(word, f, v) == v
            || (f(Feature.AppleAmx) && AppleOf(word, f, v) == AmxOf((word >> 5) & 31, word & 31, v))
            || (f(Feature.Gxf) && AppleOf(word, f, v) == GxfOf((word >> 5) & 31, word & 31, v))
  {
  }

  lemma AppleGateSoundness(word: bv32, f: Gate, v: Insn)
    requires v.IsInvalid()
    ensures var d := AppleOf(word, f, v); d.IsInvalid() || f(FeatureOf(d.code))
  {
    AppleCases(word, f, v);
    if f(Feature.AppleAmx) { AmxGated((word >> 5) & 31, word & 31, f, v); }
    if f(Feature.Gxf) { GxfGated((word >> 5) & 31, word & 31, f, v); }
  }
}
