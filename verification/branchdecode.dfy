/** The decode tree of `src/decode/branch_sys.rs`, filling an instruction step by step, with
    its tests and the arms of its matches in their own order, proved against the functions
    of `branchspec.dfy`. A long match is cut into consecutive stretches of arms. */
module BranchDecode {
  import opened Wrappers
  import opened Ints
  import opened Fields
  import opened Features
  import opened Isa
  import opened Instructions
  import opened BranchSpec
  import opened BranchValidity

  method Emit1(out: Instruction, c: Code, a: Operand)
    requires out.Valid()
    modifies out, out.operands
    ensures out.Valid()
    ensures out.View() == old(out.View()).Set(c).Push(a)
  {
    out.Set(c);
    out.PushOperand(a);
  }

  method Emit2(out: Instruction, c: Code, a: Operand, b: Operand)
    requires out.Valid()
    modifies out, out.operands
    ensures out.Valid()
    ensures out.View() == old(out.View()).Set(c).Push(a).Push(b)
  {
    out.Set(c);
    out.PushOperand(a);
    out.PushOperand(b);
  }

  method EmitAlias2(out: Instruction, c: Code, m: Mnemonic, a: Operand, b: Operand)
    requires out.Valid()
    modifies out, out.operands
    ensures out.Valid()
    ensures out.View() == old(out.View()).Set(c).SetAlias(m).Push(a).Push(b)
  {
    out.Set(c);
    out.SetAlias(m);
    out.PushOperand(a);
    out.PushOperand(b);
  }

  method DecodeCondBranch(word: bv32, f: FeatureSet, out: Instruction)
    requires out.Valid()
    modifies out, out.operands
    ensures out.Valid()
    ensures out.View() == CondBranch(word, f.Has, old(out.View()))
  {
    if Bit(word, 24) != 0 {
      DecodeRetSppc(word, f, out);
      return;
    }
    var cond := ConditionFromU4(Bits(word, 0, 4));
    if Bit(word, 4) != 0 {
      if !f.Has(Feature.Hbc) {
        return;
      }
      out.Set(Code.BcCond);
    } else {
      out.Set(Code.BCond);
    }
    out.PushOperand(Operand.Cond(cond));
    out.PushOperand(LabelAt(out.ip, word, Imm19));
  }

  method DecodeRetSppc(word: bv32, f: FeatureSet, out: Instruction)
    requires out.Valid()
    modifies out, out.operands
    ensures out.Valid()
    ensures out.View() == RetSppc(word, f.Has, old(out.View()))
  {
    if !f.Has(Feature.PauthLr) {
      return;
    }
    if Bits(word, 22, 2) != 0 || Bits(word, 0, 5) != 31 {
      return;
    }
    out.Set(if Bit(word, 21) == 1 then Code.Retabsppc else Code.Retaasppc);
    PushSppcLabel(word, out);
  }

  method PushSppcLabel(word: bv32, out: Instruction)
    requires out.Valid()
    modifies out, out.operands
    ensures out.Valid()
    ensures out.View() == SppcTarget(word, old(out.View()))
  {
    var off := 4 * (Field16(word) as int);
    out.PushOperand(Label(Sub(out.ip, off)));
  }

  method DecodeCompareBranch(word: bv32, ip: U64, out: Instruction)
    requires out.Valid() && out.ip == ip
    modifies out, out.operands
    ensures out.Valid()
    ensures out.View() == CompareBranch(word, old(out.View()))
  {
    var sf := Bit(word, 31);
    var op := Bit(word, 24);
    var rt := Bits(word, 0, 5);
    var w := if sf == 1 then X64 else W32;
    out.Set(CompareBranchCode(op, sf));
    out.PushOperand(PlainReg(false, w, rt));
    out.PushOperand(LabelAt(ip, word, Imm19));
  }

  method DecodeTestBranch(word: bv32, ip: U64, out: Instruction)
    requires out.Valid() && out.ip == ip
    modifies out, out.operands
    ensures out.Valid()
    ensures out.View() == TestBranch(word, old(out.View()))
  {
    var b5 := Bit(word, 31);
    var op := Bit(word, 24);
    var rt := Bits(word, 0, 5);
    var bitpos := BitPosition(word);
    var w := if b5 == 1 then X64 else W32;
    Emit2(out, if op == 1 then Code.Tbnz else Code.Tbz, PlainReg(false, w, rt), ImmUnsigned(bitpos as int));
    out.PushOperand(LabelAt(ip, word, Imm14));
  }

  method DecodeCmpbr(word: bv32, ip: U64, f: FeatureSet, out: Instruction)
    requires out.Valid() && out.ip == ip
    modifies out, out.operands
    ensures out.Valid()
    ensures out.View() == CmpbrOf(word, f.Has, old(out.View()))
  {
    if !f.Has(Feature.Cmpbr) {
      return;
    }
    var sf := Bit(word, 31);
    var cc := Bits(word, 21, 3);
    var size := Bits(word, 14, 2);
    var rt := Bits(word, 0, 5);
    var target := LabelAt(ip, word, Imm9);
    if Bit(word, 24) == 0 {
      var code := MatchCmpbrReg(size, cc, sf);
      if code.None? {
        return;
      }
      // Byte and halfword forms use W registers; the word form follows sf.
      var w := if size == 0 && sf == 1 then X64 else W32;
      var rm := Bits(word, 16, 5);
      out.Set(code.value);
      out.PushOperand(PlainReg(false, w, rt));
      out.PushOperand(PlainReg(false, w, rm));
      out.PushOperand(target);
      return;
    }
    // word<15> is the low bit of the immediate, so only word<14> is structural.
    if Bit(word, 14) != 0 {
      return;
    }
    var code := CmpbrImmCode(cc);
    if code.None? {
      return;
    }
    var w := if sf == 1 then X64 else W32;
    var imm6 := Bits(word, 15, 6);
    out.Set(code.value);
    out.PushOperand(PlainReg(false, w, rt));
    out.PushOperand(ImmUnsigned(imm6 as int));
    out.PushOperand(target);
  }

  // The arms of the match on (size, cc), each byte and halfword arm with its guard.
  method MatchCmpbrReg(size: bv32, cc: bv32, sf: bv32) returns (code: Option<Code>)
    ensures code == if size != 0 && sf != 0 then None else CmpbrRegCode(size, cc)
  {
    if size == 0 && cc == 0 {
      code := Some(Code.Cbgt);
    } else if size == 0 && cc == 1 {
      code := Some(Code.Cbge);
    } else if size == 0 && cc == 2 {
      code := Some(Code.Cbhi);
    } else if size == 0 && cc == 3 {
      code := Some(Code.Cbhs);
    } else if size == 0 && cc == 6 {
      code := Some(Code.Cbeq);
    } else if size == 0 && cc == 7 {
      code := Some(Code.Cbne);
    } else if size == 2 && cc == 0 && sf == 0 {
      code := Some(Code.Cbbgt);
    } else if size == 2 && cc == 1 && sf == 0 {
      code := Some(Code.Cbbge);
    } else if size == 2 && cc == 2 && sf == 0 {
      code := Some(Code.Cbbhi);
    } else if size == 2 && cc == 3 && sf == 0 {
      code := Some(Code.Cbbhs);
    } else if size == 2 && cc == 6 && sf == 0 {
      code := Some(Code.Cbbeq);
    } else if size == 2 && cc == 7 && sf == 0 {
      code := Some(Code.Cbbne);
    } else if size == 3 && cc == 0 && sf == 0 {
      code := Some(Code.Cbhgt);
    } else if size == 3 && cc == 1 && sf == 0 {
      code := Some(Code.Cbhge);
    } else if size == 3 && cc == 2 && sf == 0 {
      code := Some(Code.Cbhhi);
    } else if size == 3 && cc == 3 && sf == 0 {
      code := Some(Code.Cbhhs);
    } else if size == 3 && cc == 6 && sf == 0 {
      code := Some(Code.Cbheq);
    } else if size == 3 && cc == 7 && sf == 0 {
      code := Some(Code.Cbhne);
    } else {
      code := None;
    }
  }

  method DecodeUncondBranchReg(word: bv32, f: FeatureSet, out: Instruction)
    requires out.Valid()
    modifies out, out.operands
    ensures out.Valid()
    ensures out.View() == UncondBranchReg(word, f.Has, old(out.View()))
  {
    var opc := Bits(word, 21, 4);
    var op2 := Bits(word, 16, 5);
    var op3 := Bits(word, 10, 6);
    var rn := Bits(word, 5, 5);
    var op4 := Bits(word, 0, 5);
    if op2 != 31 {
      return;
    }
    MatchRegBranch(opc, op3, rn, op4, f, out);
  }

  // The arms of the match on (opc, op3, op4), in order.
  method MatchRegBranch(opc: bv32, op3: bv32, rn: bv32, op4: bv32, f: FeatureSet, out: Instruction)
    requires out.Valid()
    modifies out, out.operands
    ensures out.Valid()
    ensures out.View() == RegBranchBy(opc, op3, rn, op4, f.Has, old(out.View()))
  {
    var pauth := f.Has(Feature.PAuth);
    if opc == 0 && op3 == 0 && op4 == 0 {
      Emit1(out, Code.Br, XReg(false, rn));
    } else if opc == 0 && op3 == 2 && op4 == 31 && pauth {
      Emit1(out, Code.Braaz, XReg(false, rn));
    } else if opc == 0 && op3 == 3 && op4 == 31 && pauth {
      Emit1(out, Code.Brabz, XReg(false, rn));
    } else if opc == 1 && op3 == 0 && op4 == 0 {
      Emit1(out, Code.Blr, XReg(false, rn));
    } else if opc == 1 && op3 == 2 && op4 == 31 && pauth {
      Emit1(out, Code.Blraaz, XReg(false, rn));
    } else if opc == 1 && op3 == 3 && op4 == 31 && pauth {
      Emit1(out, Code.Blrabz, XReg(false, rn));
    } else {
      MatchReturn(opc, op3, rn, op4, f, out);
    }
  }

  // The arms from RET on.
  method MatchReturn(opc: bv32, op3: bv32, rn: bv32, op4: bv32, f: FeatureSet, out: Instruction)
    requires out.Valid()
    modifies out, out.operands
    ensures out.Valid()
    ensures out.View() == if opc <= 1 then old(out.View()) else RegBranchBy(opc, op3, rn, op4, f.Has, old(out.View()))
  {
    var pauth := f.Has(Feature.PAuth);
    var pauthlr := f.Has(Feature.PauthLr);
    if opc == 2 && op3 == 0 && op4 == 0 {
      out.Set(Code.Ret);
      if rn != 30 {
        out.PushOperand(XReg(false, rn));
      }
    } else if opc == 2 && op3 == 2 && op4 == 31 && pauth && rn == 31 {
      out.Set(Code.Retaa);
    } else if opc == 2 && op3 == 3 && op4 == 31 && pauth && rn == 31 {
      out.Set(Code.Retab);
    } else if opc == 2 && op3 == 2 && pauthlr && rn == 31 && op4 != 31 {
      Emit1(out, Code.Retaasppcr, XReg(false, op4));
    } else if opc == 2 && op3 == 3 && pauthlr && rn == 31 && op4 != 31 {
      Emit1(out, Code.Retabsppcr, XReg(false, op4));
    } else {
      MatchHighRegBranch(opc, op3, rn, op4, f, out);
    }
  }

  // The arms from ERET on.
  method MatchHighRegBranch(opc: bv32, op3: bv32, rn: bv32, op4: bv32, f: FeatureSet, out: Instruction)
    requires out.Valid()
    modifies out, out.operands
    ensures out.Valid()
    ensures out.View() == if opc <= 2 then old(out.View()) else RegBranchBy(opc, op3, rn, op4, f.Has, old(out.View()))
  {
    var pauth := f.Has(Feature.PAuth);
    if opc == 4 && op3 == 0 && op4 == 0 && rn == 31 {
      out.Set(Code.Eret);
    } else if opc == 4 && op3 == 2 && op4 == 31 && pauth && rn == 31 {
      out.Set(Code.Eretaa);
    } else if opc == 4 && op3 == 3 && op4 == 31 && pauth && rn == 31 {
      out.Set(Code.Eretab);
    } else if opc == 5 && op3 == 0 && op4 == 0 && rn == 31 {
      out.Set(Code.Drps);
    } else if opc == 8 && op3 == 2 && pauth {
      Emit2(out, Code.Braa, XReg(false, rn), XReg(true, op4));
    } else if opc == 8 && op3 == 3 && pauth {
      Emit2(out, Code.Brab, XReg(false, rn), XReg(true, op4));
    } else if opc == 9 && op3 == 2 && pauth {
      Emit2(out, Code.Blraa, XReg(false, rn), XReg(true, op4));
    } else if opc == 9 && op3 == 3 && pauth {
      Emit2(out, Code.Blrab, XReg(false, rn), XReg(true, op4));
    }
  }

  method DecodeException(word: bv32, f: FeatureSet, out: Instruction)
    requires out.Valid()
    modifies out, out.operands
    ensures out.Valid()
    ensures out.View() == ExceptionGen(word, f.Has, old(out.View()))
  {
    var opc := Bits(word, 21, 3);
    var imm16 := Bits(word, 5, 16);
    var op2 := Bits(word, 2, 3);
    var ll := Bits(word, 0, 2);
    if op2 != 0 {
      return;
    }
    MatchException(opc, ll, imm16, f, out);
  }

  // The arms of the match on (opc, ll), in order.
  method MatchException(opc: bv32, ll: bv32, imm16: bv32, f: FeatureSet, out: Instruction)
    requires out.Valid()
    modifies out, out.operands
    ensures out.Valid()
    ensures out.View() == ExceptionBy(opc, ll, imm16, f.Has, old(out.View()))
  {
    var imm := ImmUnsigned(imm16 as int);
    if opc == 0 && ll == 1 {
      Emit1(out, Code.Svc, imm);
    } else if opc == 0 && ll == 2 {
      Emit1(out, Code.Hvc, imm);
    } else if opc == 0 && ll == 3 {
      Emit1(out, Code.Smc, imm);
    } else if opc == 1 && ll == 0 {
      Emit1(out, Code.Brk, imm);
    } else if opc == 2 && ll == 0 {
      Emit1(out, Code.Hlt, imm);
    } else if opc == 3 && ll == 0 && f.Has(Feature.Tme) {
      Emit1(out, Code.Tcancel, imm);
    } else if opc == 7 && ll == 0 && f.Has(Feature.Tev) {
      // Only imm16<6:0> and the nb bit imm16<12> are defined.
      if imm16 & 0xef80 == 0 {
        Emit1(out, Code.Tenter, ImmUnsigned((imm16 & 0x7f) as int));
        if imm16 & 0x1000 != 0 {
          out.PushOperand(SysOp(Keyword.Nb));
        }
      }
    } else if opc == 5 && ll == 1 {
      out.Set(Code.Dcps1);
      PushOptionalImm(out, imm16);
    } else if opc == 5 && ll == 2 {
      out.Set(Code.Dcps2);
      PushOptionalImm(out, imm16);
    } else if opc == 5 && ll == 3 {
      out.Set(Code.Dcps3);
      PushOptionalImm(out, imm16);
    }
  }

  method PushOptionalImm(out: Instruction, imm16: bv32)
    requires out.Valid()
    modifies out, out.operands
    ensures out.Valid()
    ensures out.View() == OptionalImm(old(out.View()), imm16)
  {
    if imm16 != 0 {
      out.PushOperand(ImmUnsigned(imm16 as int));
    }
  }

  method DecodeTchange(word: bv32, f: FeatureSet, out: Instruction)
    requires out.Valid()
    modifies out, out.operands
    ensures out.Valid()
    ensures out.View() == TchangeOf(word, f.Has, old(out.View()))
  {
    if !f.Has(Feature.Tchange) {
      return;
    }
    if Bit(word, 21) != 0 || Bit(word, 16) != 0 || Bits(word, 12, 4) != 0 {
      return;
    }
    var backward := Bit(word, 18) == 1;
    var nb := Bit(word, 17) == 1;
    var rt := Bits(word, 0, 5);
    if Bits(word, 19, 2) == 0 {
      if Bits(word, 10, 2) != 0 {
        return;
      }
      var xn := Bits(word, 5, 5);
      Emit2(out, if backward then Code.TchangebReg else Code.TchangefReg, XReg(false, rt), XReg(false, xn));
    } else if Bits(word, 19, 2) == 2 {
      var imm := Bits(word, 5, 7);
      Emit2(out, if backward then Code.TchangebImm else Code.TchangefImm, XReg(false, rt), ImmUnsigned(imm as int));
    } else {
      return;
    }
    if nb {
      out.PushOperand(SysOp(Keyword.Nb));
    }
  }

  // --- The system block. ---

  method DecodeMsrImm(s: SysFields, out: Instruction)
    requires out.Valid()
    modifies out, out.operands
    ensures out.Valid()
    ensures out.View() == MsrImmediate(s, old(out.View()))
  {
    if s.rt != 31 {
      return;
    }
    if s.op1 == 3 && s.op2 == 3 {
      DecodeSmstart(s.crm, out);
      return;
    }
    if s.op1 == 0 {
      var code := if s.op2 == 0 then Some(Code.Cfinv)
                  else if s.op2 == 1 then Some(Code.Xaflag)
                  else if s.op2 == 2 then Some(Code.Axflag)
                  else None;
      if code.Some? {
        out.Set(code.value);
        return;
      }
    }
    var field := PstateField(s.op1, s.op2, s.crm);
    if field.Some? {
      out.Set(Code.MsrImm);
      out.SetAlias(Mnemonic.Msr);
      out.PushOperand(SysOp(field.value));
      out.PushOperand(ImmUnsigned(s.crm as int));
      return;
    }
    Emit2(out, Code.MsrReg, SysReg(SysRegOf(0, s.op1, 4, s.crm, s.op2)), XReg(false, 31));
  }

  method DecodeSmstart(crm: bv32, out: Instruction)
    requires out.Valid()
    modifies out, out.operands
    ensures out.Valid()
    ensures out.View() == SmstartOf(crm, old(out.View()))
  {
    var isStart := crm & 1 != 0;
    var sm := crm & 2 != 0;
    var za := crm & 4 != 0;
    out.Set(if isStart then Code.Smstart else Code.Smstop);
    if sm && !za {
      out.PushOperand(SysOp(Keyword.Sm));
    } else if !sm && za {
      out.PushOperand(SysOp(Keyword.ZaOption));
    }
  }

  method DecodeHint(s: SysFields, f: FeatureSet, out: Instruction)
    requires out.Valid()
    modifies out, out.operands
    ensures out.Valid()
    ensures out.View() == HintOf(s, f.Has, old(out.View()))
  {
    if s.rt != 31 {
      return;
    }
    var sel := (s.crm << 3) | s.op2;
    HintIsBy(s, sel, f.Has, out.View());
    MatchHint(sel, s.crm, s.op2, f, out);
  }

  lemma HintIsBy(s: SysFields, sel: bv32, f: Gate, v: Insn)
    requires s.rt == 31 && sel == (s.crm << 3) | s.op2
    ensures HintOf(s, f, v) == HintBy(sel, s.crm, s.op2, f, v) && (sel == 18 ==> s.crm != 6 && s.crm != 4)
  {
  }

  // The arms of the match on the selector, in order, each filling the output; a guard
  // that fails leaves the selector to the arms below.
  method MatchHint(sel: bv32, crm: bv32, op2: bv32, f: FeatureSet, out: Instruction)
    requires out.Valid() && (sel == 18 ==> crm != 6 && crm != 4)
    modifies out, out.operands
    ensures out.Valid()
    ensures out.View() == HintBy(sel, crm, op2, f.Has, old(out.View()))
  {
    if sel == 0 {
      out.Set(Code.Nop);
    } else if sel == 1 {
      out.Set(Code.Yield);
    } else if sel == 2 {
      out.Set(Code.Wfe);
    } else if sel == 3 {
      out.Set(Code.Wfi);
    } else {
      MatchEventHint(sel, crm, op2, f, out);
    }
  }

  method MatchEventHint(sel: bv32, crm: bv32, op2: bv32, f: FeatureSet, out: Instruction)
    requires out.Valid() && sel > 3 && (sel == 18 ==> crm != 6 && crm != 4)
    modifies out, out.operands
    ensures out.Valid()
    ensures out.View() == HintBy(sel, crm, op2, f.Has, old(out.View()))
  {
    if sel == 4 {
      out.Set(Code.Sev);
    } else if sel == 5 {
      out.Set(Code.Sevl);
    } else if sel == 6 && f.Has(Feature.Dgh) {
      out.Set(Code.Dgh);
    } else {
      MatchEarlyPauthHint(sel, crm, op2, f, out);
    }
  }

  method MatchEarlyPauthHint(sel: bv32, crm: bv32, op2: bv32, f: FeatureSet, out: Instruction)
    requires out.Valid() && (sel == 18 ==> crm != 6 && crm != 4)
    requires sel > 5 && !(sel == 6 && f.Has(Feature.Dgh))
    modifies out, out.operands
    ensures out.Valid()
    ensures out.View() == HintBy(sel, crm, op2, f.Has, old(out.View()))
  {
    var pauth := f.Has(Feature.PAuth);
    if sel == 7 && pauth {
      SetPauthHint(Mnemonic.Xpaclri, out);
    } else if sel == 8 && pauth {
      SetPauthHint(Mnemonic.Pacia1716, out);
    } else if sel == 10 && pauth {
      SetPauthHint(Mnemonic.Pacib1716, out);
    } else if sel == 12 && pauth {
      SetPauthHint(Mnemonic.Autia1716, out);
    } else if sel == 14 && pauth {
      SetPauthHint(Mnemonic.Autib1716, out);
    } else {
      MatchMiddleHint(sel, crm, op2, f, out);
    }
  }

  // The arms from HINT #16 on, reached by every selector no earlier arm took.
  method MatchMiddleHint(sel: bv32, crm: bv32, op2: bv32, f: FeatureSet, out: Instruction)
    requires out.Valid() && (sel == 18 ==> crm != 6 && crm != 4)
    requires sel > 5 && !(sel == 6 && f.Has(Feature.Dgh))
    requires f.Has(Feature.PAuth) ==> sel != 7 && sel != 8 && sel != 10 && sel != 12 && sel != 14
    modifies out, out.operands
    ensures out.Valid()
    ensures out.View() == HintBy(sel, crm, op2, f.Has, old(out.View()))
  {
    if sel == 16 {
      out.Set(Code.Esb);
    } else if sel == 17 {
      Emit1(out, Code.Psb, SysOp(Keyword.Csync));
    } else if sel == 18 {
      if f.Has(Feature.Trf) {
        Emit1(out, Code.Tsb, SysOp(Keyword.Csync));
      } else {
        SetGenericHint(sel, out);
      }
    } else if sel == 19 && f.Has(Feature.Gcs) {
      Emit1(out, Code.Gcsb, SysOp(Keyword.Dsync));
    } else if sel == 20 {
      out.Set(Code.Csdb);
    } else if sel == 22 && f.Has(Feature.Clrbhb) {
      out.Set(Code.Clrbhb);
    } else {
      MatchHighHint(sel, crm, op2, f, out);
    }
  }

  lemma PauthHintIs(sel: bv32, crm: bv32, op2: bv32, f: Gate, v: Insn)
    requires IsPauthHint(sel) && f(Feature.PAuth)
    ensures HintBy(sel, crm, op2, f, v) == v.Set(Code.HintGeneric).SetAlias(PauthHint(sel))
  {
  }

  // The arms from HINT #24 on, reached by every selector no earlier arm took.
  method MatchHighHint(sel: bv32, crm: bv32, op2: bv32, f: FeatureSet, out: Instruction)
    requires out.Valid() && !IsPlainHint(sel) && sel != 17 && sel != 18
    requires !(sel == 6 && f.Has(Feature.Dgh)) && !(sel == 19 && f.Has(Feature.Gcs))
    requires !(sel == 22 && f.Has(Feature.Clrbhb))
    requires f.Has(Feature.PAuth) ==> sel != 7 && sel != 8 && sel != 10 && sel != 12 && sel != 14
    modifies out, out.operands
    ensures out.Valid()
    ensures out.View() == HintBy(sel, crm, op2, f.Has, old(out.View()))
  {
    var pauth := f.Has(Feature.PAuth);
    if pauth && IsPauthHint(sel) { PauthHintIs(sel, crm, op2, f.Has, out.View()); }
    if sel == 24 && pauth {
      SetPauthHint(Mnemonic.Paciaz, out);
    } else if sel == 25 && pauth {
      SetPauthHint(Mnemonic.Paciasp, out);
    } else if sel == 26 && pauth {
      SetPauthHint(Mnemonic.Pacibz, out);
    } else if sel == 27 && pauth {
      SetPauthHint(Mnemonic.Pacibsp, out);
    } else if sel == 28 && pauth {
      SetPauthHint(Mnemonic.Autiaz, out);
    } else if sel == 29 && pauth {
      SetPauthHint(Mnemonic.Autiasp, out);
    } else if sel == 30 && pauth {
      SetPauthHint(Mnemonic.Autibz, out);
    } else if sel == 31 && pauth {
      SetPauthHint(Mnemonic.Autibsp, out);
    } else if sel == 39 && pauth {
      SetPauthHint(Mnemonic.Pacm, out);
    } else {
      MatchClusterHint(sel, crm, op2, f, out);
    }
  }

  // The arms from CHKFEAT on: where GatedHint is down to its last cases.
  method MatchClusterHint(sel: bv32, crm: bv32, op2: bv32, f: FeatureSet, out: Instruction)
    requires out.Valid() && sel != 17 && sel != 18
    requires !(sel == 6 && f.Has(Feature.Dgh)) && !(sel == 19 && f.Has(Feature.Gcs))
    requires !(sel == 22 && f.Has(Feature.Clrbhb))
    modifies out, out.operands
    ensures out.Valid()
    ensures out.View() == GatedHint(sel, crm, op2, f.Has, old(out.View()))
  {
    if sel == 40 && f.Has(Feature.Chk) {
      Emit1(out, Code.Chkfeat, XReg(false, 16));
    } else if crm == 6 && f.Has(Feature.Pcdphint) {
      MatchStashHint(op2, out);
    } else if crm == 4 && op2 & 1 == 0 {
      SetBti(op2, out);
    } else {
      SetGenericHint(sel, out);
    }
  }

  method SetPauthHint(m: Mnemonic, out: Instruction)
    requires out.Valid()
    modifies out, out.operands
    ensures out.Valid()
    ensures out.View() == old(out.View()).Set(Code.HintGeneric).SetAlias(m)
  {
    out.Set(Code.HintGeneric);
    out.SetAlias(m);
  }

  method SetGenericHint(sel: bv32, out: Instruction)
    requires out.Valid()
    modifies out, out.operands
    ensures out.Valid()
    ensures out.View() == old(out.View()).Set(Code.HintGeneric).Push(ImmUnsigned(sel as int))
  {
    out.Set(Code.HintGeneric);
    out.PushOperand(ImmUnsigned(sel as int));
  }

  // STSHH, SHUH and STCPH.
  method MatchStashHint(op2: bv32, out: Instruction)
    requires out.Valid()
    modifies out, out.operands
    ensures out.Valid()
    ensures out.View() == StashHint(op2, old(out.View()))
  {
    if op2 == 0 {
      Emit1(out, Code.Stshh, SysOp(Keyword.Keep));
    } else if op2 == 1 {
      Emit1(out, Code.Stshh, SysOp(Keyword.Strm));
    } else if op2 == 2 {
      out.Set(Code.Shuh);
    } else if op2 == 3 {
      Emit1(out, Code.Shuh, SysOp(Keyword.Ph));
    } else if op2 == 4 {
      out.Set(Code.Stcph);
    } else {
      Emit1(out, Code.Stshh, ImmUnsigned(op2 as int));
    }
  }

  method SetBti(op2: bv32, out: Instruction)
    requires out.Valid()
    modifies out, out.operands
    ensures out.Valid()
    ensures out.View() == BtiHint(op2, old(out.View()))
  {
    out.Set(Code.Bti);
    if op2 == 2 {
      out.PushOperand(SysOp(Keyword.TargetC));
    } else if op2 == 4 {
      out.PushOperand(SysOp(Keyword.TargetJ));
    } else if op2 == 6 {
      out.PushOperand(SysOp(Keyword.TargetJc));
    }
  }

  method DecodeWfxt(s: SysFields, f: FeatureSet, out: Instruction)
    requires out.Valid()
    modifies out, out.operands
    ensures out.Valid()
    ensures out.View() == WfxtOf(s, f.Has, old(out.View()))
  {
    if s.crm != 0 || !f.Has(Feature.Wfxt) {
      return;
    }
    if s.op2 == 0 {
      Emit1(out, Code.Wfet, XReg(false, s.rt));
    } else if s.op2 == 1 {
      Emit1(out, Code.Wfit, XReg(false, s.rt));
    }
  }

  method DecodeBarrier(s: SysFields, f: FeatureSet, out: Instruction)
    requires out.Valid()
    modifies out, out.operands
    ensures out.Valid()
    ensures out.View() == BarrierOf(s, f.Has, old(out.View()))
  {
    if s.rt != 31 {
      return;
    }
    if s.op2 == 1 {
      if s.crm & 3 == 2 && f.Has(Feature.Xs) {
        Emit1(out, Code.Dsb, SysOp(NxsOption(s.crm)));
      }
    } else if s.op2 == 2 {
      out.Set(Code.Clrex);
      if s.crm != 15 {
        out.PushOperand(ImmUnsigned(s.crm as int));
      }
    } else if s.op2 == 3 && s.crm == 0 {
      if f.Has(Feature.Tme) {
        out.Set(Code.Tcommit);
      }
    } else if s.op2 == 4 {
      DecodeDsb(s.crm, out);
    } else if s.op2 == 5 {
      Emit1(out, Code.Dmb, BarrierOption(s.crm));
    } else if s.op2 == 6 {
      out.Set(Code.Isb);
      if s.crm != 15 {
        out.PushOperand(ImmUnsigned(s.crm as int));
      }
    } else if s.op2 == 7 {
      out.Set(Code.Sb);
    }
  }

  method DecodeDsb(crm: bv32, out: Instruction)
    requires out.Valid()
    modifies out, out.operands
    ensures out.Valid()
    ensures out.View() == DsbOf(crm, old(out.View()))
  {
    out.Set(Code.Dsb);
    if crm == 0 {
      out.SetAlias(Mnemonic.Ssbb);
    } else if crm == 4 {
      out.SetAlias(Mnemonic.Pssbb);
    } else {
      out.PushOperand(BarrierOption(crm));
    }
  }

  method DecodeSystemResult(s: SysFields, f: FeatureSet, out: Instruction)
    requires out.Valid()
    modifies out, out.operands
    ensures out.Valid()
    ensures out.View() == SystemResult(s, f.Has, old(out.View()))
  {
    if !f.Has(Feature.Tme) {
      return;
    }
    if s.op1 != 3 || s.crn != 3 || s.op2 != 3 {
      return;
    }
    if s.crm == 0 {
      out.Set(Code.Tstart);
    } else if s.crm == 1 {
      out.Set(Code.Ttest);
    } else {
      return;
    }
    out.PushOperand(XReg(false, s.rt));
  }

  method DecodeOp0Named(s: SysFields, f: FeatureSet, out: Instruction)
    requires out.Valid()
    modifies out, out.operands
    ensures out.Valid()
    ensures out.View() == Op0Named(s, f.Has, old(out.View()))
  {
    if s.read {
      DecodeSystemResult(s, f, out);
      return;
    }
    if s.crn == 4 {
      DecodeMsrImm(s, out);
    } else if s.crn == 2 {
      DecodeHint(s, f, out);
    } else if s.crn == 3 {
      DecodeBarrier(s, f, out);
    } else if s.crn == 1 {
      DecodeWfxt(s, f, out);
    }
  }

  method DecodeSysregMove(s: SysFields, out: Instruction)
    requires out.Valid()
    modifies out, out.operands
    ensures out.Valid()
    ensures out.View() == SysRegMove(s, old(out.View()))
  {
    var sr := SysReg(SysRegOf(s.op0, s.op1, s.crn, s.crm, s.op2));
    if s.read {
      Emit2(out, Code.Mrs, XReg(false, s.rt), sr);
    } else {
      Emit2(out, Code.MsrReg, sr, XReg(false, s.rt));
    }
  }

  // Replays the named dispatch into a scratch instruction with every feature on.
  method Op0Unallocated(s: SysFields) returns (b: bool)
    ensures b <==> Unallocated(s)
  {
    var scratch := new Instruction.New(0, 0);
    DecodeOp0Named(s, ALL, scratch);
    b := scratch.code.Invalid?;
    AllFeaturesDecide(s, NewInvalid(0, 0));
  }

  method DecodeGcsSys(s: SysFields, f: FeatureSet, out: Instruction) returns (matched: bool)
    requires out.Valid()
    modifies out, out.operands
    ensures out.Valid()
    ensures matched <==> GcsCode(s).Some? && f.Has(Feature.Gcs)
    ensures out.View() == if matched then GcsOf(s, GcsCode(s).value, old(out.View())) else old(out.View())
  {
    if s.crn != 7 || s.crm != 7 || !f.Has(Feature.Gcs) {
      return false;
    }
    var code: Code, takesRt, elide;
    if !s.read && s.op1 == 0 && s.op2 == 4 {
      code, takesRt, elide := Code.Gcspushx, false, false;
    } else if !s.read && s.op1 == 0 && s.op2 == 5 {
      code, takesRt, elide := Code.Gcspopcx, false, false;
    } else if !s.read && s.op1 == 0 && s.op2 == 6 {
      code, takesRt, elide := Code.Gcspopx, false, false;
    } else if !s.read && s.op1 == 3 && s.op2 == 0 {
      code, takesRt, elide := Code.Gcspushm, true, false;
    } else if !s.read && s.op1 == 3 && s.op2 == 2 {
      code, takesRt, elide := Code.Gcsss1, true, false;
    } else if s.read && s.op1 == 3 && s.op2 == 1 {
      code, takesRt, elide := Code.Gcspopm, true, true;
    } else if s.read && s.op1 == 3 && s.op2 == 3 {
      code, takesRt, elide := Code.Gcsss2, true, false;
    } else {
      return false;
    }
    out.Set(code);
    if takesRt && !(elide && s.rt == 31) {
      out.PushOperand(XReg(false, s.rt));
    }
    return true;
  }

  // What is left is a row of the directory, or has its fields written out.
  method EmitSys(s: SysFields, table: SysTable, out: Instruction)
    requires out.Valid()
    modifies out, out.operands
    ensures out.Valid()
    ensures out.View() == (match table(s.read, s.op1, s.crn, s.crm, s.op2)
                           case Some(t) => SysAlias(s, t, old(out.View()))
                           case None => SysCanonical(s, old(out.View())))
  {
    var entry := table(s.read, s.op1, s.crn, s.crm, s.op2);
    if entry.Some? {
      EmitSysAlias(s, entry.value, out);
      return;
    }
    EmitSysCanonical(s, out);
  }

  method DecodeSys(s: SysFields, f: FeatureSet, table: SysTable, out: Instruction)
    requires out.Valid()
    modifies out, out.operands
    ensures out.Valid()
    ensures out.View() == SysOf(s, f.Has, table, old(out.View()))
  {
    if !s.read && s.crn == 7 && s.crm == 3 && s.op1 == 3 {
      var m := if s.op2 == 4 then Some(Mnemonic.Cfp)
               else if s.op2 == 5 then Some(Mnemonic.Dvp)
               else if s.op2 == 7 then Some(Mnemonic.Cpp)
               else None;
      if m.Some? {
        EmitAlias2(out, Code.Sys, m.value, SysOp(Keyword.Rctx), XReg(false, s.rt));
        return;
      }
    }
    var matched := DecodeGcsSys(s, f, out);
    if matched {
      return;
    }
    EmitSys(s, table, out);
  }

  method EmitSysAlias(s: SysFields, t: SysEntry, out: Instruction)
    requires out.Valid()
    modifies out, out.operands
    ensures out.Valid()
    ensures out.View() == SysAlias(s, t, old(out.View()))
  {
    out.Set(if s.read then Code.Sysl else Code.Sys);
    out.SetAlias(t.mnem);
    if t.name.Some? && t.kwFirst {
      out.PushOperand(SysOp(t.name.value));
    }
    if t.needsRt {
      out.PushOperand(XReg(false, s.rt));
    }
    if t.name.Some? && !t.kwFirst {
      out.PushOperand(SysOp(t.name.value));
    }
  }

  method EmitSysCanonical(s: SysFields, out: Instruction)
    requires out.Valid()
    modifies out, out.operands
    ensures out.Valid()
    ensures out.View() == SysCanonical(s, old(out.View()))
  {
    if s.read {
      out.Set(Code.Sysl);
      out.PushOperand(XReg(false, s.rt));
      PushSysFields(s, out);
    } else {
      out.Set(Code.Sys);
      PushSysFields(s, out);
      out.PushOperand(XReg(false, s.rt));
    }
  }

  method PushSysFields(s: SysFields, out: Instruction)
    requires out.Valid()
    modifies out, out.operands
    ensures out.Valid()
    ensures out.View() == WithSysFields(s, old(out.View()))
  {
    out.PushOperand(ImmUnsigned(s.op1 as int));
    out.PushOperand(SysOp(Keyword.Cr(s.crn & 15)));
    out.PushOperand(SysOp(Keyword.Cr(s.crm & 15)));
    out.PushOperand(ImmUnsigned(s.op2 as int));
  }

  method DecodeSystem(word: bv32, f: FeatureSet, table: SysTable, out: Instruction)
    requires out.Valid() && out.code.Invalid?
    modifies out, out.operands
    ensures out.Valid()
    ensures out.View() == System(word, f.Has, table, old(out.View()))
  {
    var s := FieldsOf(word);
    if !s.read {
      if s.op0 == 0 {
        DecodeOp0(s, f, out);
      } else if s.op0 == 1 {
        DecodeSys(s, f, table, out);
      } else {
        DecodeSysregMove(s, out);
      }
    } else {
      if s.op0 == 0 {
        DecodeOp0(s, f, out);
      } else if s.op0 == 1 {
        DecodeSys(s, f, table, out);
      } else if s.op0 == 2 || s.op0 == 3 {
        DecodeSysregMove(s, out);
      }
    }
  }

  // op0 == 00: the named encodings, then the generic move for what no feature names.
  method DecodeOp0(s: SysFields, f: FeatureSet, out: Instruction)
    requires out.Valid() && out.code.Invalid?
    modifies out, out.operands
    ensures out.Valid()
    ensures out.View() == Op0(s, f.Has, old(out.View()))
  {
    ghost var before := out.View();
    DecodeOp0Named(s, f, out);
    if out.code.Invalid? {
      InvalidLeavesOut(s, f.Has, before);
      var unallocated := Op0Unallocated(s);
      if unallocated {
        DecodeSysregMove(s, out);
      }
    } else {
      AllocatedNamed(s, f.Has, before);
    }
  }

  method DecodeSysp(s: SysFields, table: SysTable, out: Instruction)
    requires out.Valid()
    modifies out, out.operands
    ensures out.Valid()
    ensures out.View() == SyspOf(s, table, old(out.View()))
  {
    if s.rt & 1 != 0 && s.rt != 31 {
      return;
    }
    var entry := table(false, s.op1, s.crn, s.crm, s.op2);
    if entry.Some? && entry.value.mnem == Mnemonic.Tlbi {
      EmitTlbip(s, entry.value, out);
      return;
    }
    out.Set(Code.Sysp);
    PushSysFields(s, out);
    if s.rt != 31 {
      out.PushOperand(RegPairOf(s.rt));
    }
  }

  method EmitTlbip(s: SysFields, t: SysEntry, out: Instruction)
    requires out.Valid()
    modifies out, out.operands
    ensures out.Valid()
    ensures out.View() == TlbipOf(s, t, old(out.View()))
  {
    out.Set(Code.Sysp);
    out.SetAlias(Mnemonic.Tlbip);
    out.PushOperand(if t.name.Some? then SysOp(t.name.value) else NoOperand);
    out.PushOperand(if s.rt == 31 then RegPair(Xzr, Xzr) else RegPairOf(s.rt));
  }

  method DecodeSystemPair(word: bv32, f: FeatureSet, table: SysTable, out: Instruction)
    requires out.Valid()
    modifies out, out.operands
    ensures out.Valid()
    ensures out.View() == SystemPair(word, f.Has, table, old(out.View()))
  {
    if !f.Has(Feature.D128) {
      return;
    }
    var s := FieldsOf(word);
    if !s.read && s.op0 == 1 {
      DecodeSysp(s, table, out);
      return;
    }
    DecodePairMove(s, out);
  }

  method DecodePairMove(s: SysFields, out: Instruction)
    requires out.Valid()
    modifies out, out.operands
    ensures out.Valid()
    ensures out.View() == PairMove(s, old(out.View()))
  {
    if s.rt & 1 != 0 {
      return;
    }
    var sr := SysReg(SysRegOf(s.op0, s.op1, s.crn, s.crm, s.op2));
    if s.read {
      Emit2(out, Code.Mrrs, RegPairOf(s.rt), sr);
    } else {
      Emit2(out, Code.Msrr, sr, RegPairOf(s.rt));
    }
  }

  method DecodeUncondBranchImm(word: bv32, op: bv32, ip: U64, out: Instruction)
    requires out.Valid() && out.ip == ip && op == Bits(word, 29, 3)
    modifies out, out.operands
    ensures out.Valid()
    ensures out.View() == UncondBranchImm(word, old(out.View()))
  {
    out.Set(if op & 4 != 0 then Code.BlImm else Code.BUncond);
    out.PushOperand(LabelAt(ip, word, Imm26));
  }

  // Each test of decode picks out one class of the specification.
  lemma BlockTests(word: bv32)
    ensures Bits(word, 25, 7) == 0x6b <==> ClassOf(word).RegBranch?
    ensures Bits(word, 24, 8) == 0xd4 <==> ClassOf(word).Exceptions?
    ensures Bits(word, 22, 10) == 0x354 <==> ClassOf(word).SystemBlock?
    ensures Bits(word, 22, 10) == 0x355 <==> ClassOf(word).PairBlock?
    ensures Bits(word, 22, 10) == 0x356 <==> ClassOf(word).TchangeBlock?
  {
  }

  lemma JumpTests(word: bv32)
    ensures Bits(word, 25, 7) == 0x2a <==> ClassOf(word).CondBlock?
    ensures Bits(word, 25, 6) == 0x1a <==> ClassOf(word).CompareBlock?
    ensures Bits(word, 25, 6) == 0x1b <==> ClassOf(word).TestBlock?
  {
  }

  lemma OtherJumpTests(word: bv32)
    ensures Bits(word, 25, 6) == 0x3a <==> ClassOf(word).CmpbrBlock?
    ensures Bits(word, 26, 5) == 5 <==> ClassOf(word).ImmBranch?
  {
  }

  // The split of the group, test by test. The class c of the word is what the tests
  // find out.
  method Split(word: bv32, ghost c: BranchSpec.Class, ip: U64, f: FeatureSet, table: SysTable, out: Instruction)
    requires out.Valid() && out.ip == ip && out.code.Invalid?
    requires Bits(word, 25, 7) == 0x6b <==> c.RegBranch?
    requires Bits(word, 24, 8) == 0xd4 <==> c.Exceptions?
    requires Bits(word, 22, 10) == 0x354 <==> c.SystemBlock?
    requires Bits(word, 22, 10) == 0x355 <==> c.PairBlock?
    requires Bits(word, 22, 10) == 0x356 <==> c.TchangeBlock?
    requires Bits(word, 25, 7) == 0x2a <==> c.CondBlock?
    requires Bits(word, 25, 6) == 0x1a <==> c.CompareBlock?
    requires Bits(word, 25, 6) == 0x1b <==> c.TestBlock?
    requires Bits(word, 25, 6) == 0x3a <==> c.CmpbrBlock?
    requires Bits(word, 26, 5) == 5 <==> c.ImmBranch?
    modifies out, out.operands
    ensures out.Valid()
    ensures out.View() == BranchIn(c, word, f.Has, table, old(out.View()))
  {
    var op := Bits(word, 29, 3);
    var b25 := Bits(word, 25, 7);
    if b25 == 0x6b {
      DecodeUncondBranchReg(word, f, out);
      return;
    }
    if Bits(word, 24, 8) == 0xd4 {
      DecodeException(word, f, out);
      return;
    }
    if Bits(word, 22, 10) == 0x354 {
      DecodeSystem(word, f, table, out);
      return;
    }
    if Bits(word, 22, 10) == 0x355 {
      DecodeSystemPair(word, f, table, out);
      return;
    }
    if Bits(word, 22, 10) == 0x356 {
      DecodeTchange(word, f, out);
      return;
    }
    if b25 == 0x2a {
      DecodeCondBranch(word, f, out);
      return;
    }
    if Bits(word, 25, 6) == 0x1a {
      DecodeCompareBranch(word, ip, out);
      return;
    }
    if Bits(word, 25, 6) == 0x1b {
      DecodeTestBranch(word, ip, out);
      return;
    }
    if Bits(word, 25, 6) == 0x3a {
      DecodeCmpbr(word, ip, f, out);
      return;
    }
    if Bits(word, 26, 5) == 5 {
      DecodeUncondBranchImm(word, op, ip, out);
    }
  }

  method Decode(word: bv32, ip: U64, f: FeatureSet, table: SysTable, out: Instruction)
    requires out.Valid() && out.ip == ip && out.code.Invalid?
    modifies out, out.operands
    ensures out.Valid()
    ensures out.View() == Branch(word, f.Has, table, old(out.View()))
  {
    BlockTests(word);
    JumpTests(word);
    OtherJumpTests(word);
    Split(word, ClassOf(word), ip, f, table, out);
  }
}
