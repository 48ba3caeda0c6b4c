/** Encode, then decode, for branches to a register and for exceptions: which operands come
    back, and when. */
module Returns {
  import opened Wrappers
  import opened Ints
  import opened Features
  import opened Isa
  import opened Instructions
  import opened Encoding
  import opened BranchSpec
  import opened BranchEncode

  // --- Branches to a register. ---

  // An X register by its number, with nothing attached.
  predicate IsX(op: Operand, sp: bool) {
    op.Reg? && op == XReg(sp, Number(op.reg))
  }

  predicate OneX(d: Insn) { |d.ops| == 1 && IsX(d.ops[0], false) }

  predicate IsZeroBranch(c: Code) { c.Braaz? || c.Brabz? || c.Blraaz? || c.Blrabz? }

  predicate IsPairBranch(c: Code) { c.Braa? || c.Brab? || c.Blraa? || c.Blrab? }

  predicate IsModifierReturn(c: Code) { c.Retaasppcr? || c.Retabsppcr? }

  predicate IsSignedReturn(c: Code) { c.Retaa? || c.Retab? || c.Eretaa? || c.Eretab? }

  // The operands are those the decoder makes: RET leaves X30 out, the second register of
  // an authenticated branch may be SP, and a return that authenticates with a register has
  // another encoding for XZR.
  predicate AsRegBranch(d: Insn) {
    if d.code.Ret? then d.ops == [] || (OneX(d) && Number(d.ops[0].reg) != 30)
    else if d.code.Br? || d.code.Blr? || IsZeroBranch(d.code) then OneX(d)
    else if IsModifierReturn(d.code) then OneX(d) && Number(d.ops[0].reg) != 31
    else if IsPairBranch(d.code) then |d.ops| == 2 && IsX(d.ops[0], false) && IsX(d.ops[1], true)
    else d.ops == []
  }

  predicate RegAdmitted(c: Code, f: Gate) {
    if IsModifierReturn(c) then f(Feature.PauthLr)
    else IsZeroBranch(c) || IsPairBranch(c) || IsSignedReturn(c) ==> f(Feature.PAuth)
  }

  // What the theorem says of a branch that encodes to w.
  ghost predicate RegReturns(d: Insn, w: bv32, f: Gate, v: Insn) {
    && ClassOf(w).RegBranch?
    && (SameMeaning(UncondBranchReg(w, f, v), d) <==>
        d.mnemonic == MnemonicOf(d.code) && RegAdmitted(d.code, f) && AsRegBranch(d))
  }

  lemma RegWordBack(opc: bv32, op3: bv32, rn: bv32, op4: bv32, f: Gate, v: Insn)
    requires opc <= 9 && op3 <= 3 && rn < 32 && op4 < 32
    ensures var w := RegBranchWord(opc, op3, rn, op4);
            ClassOf(w).RegBranch? && UncondBranchReg(w, f, v) == RegBranchBy(opc, op3, rn, op4, f, v)
  {
  }

  lemma SetOne(c: Code, a: Operand, v: Insn)
    ensures v.Set(c).Push(a) == v.(code := c, mnemonic := MnemonicOf(c), ops := [a])
  {
  }

  lemma SetTwo(c: Code, a: Operand, b: Operand, v: Insn)
    ensures v.Set(c).Push(a).Push(b) == v.(code := c, mnemonic := MnemonicOf(c), ops := [a, b])
  {
  }

  lemma OneXIs(d: Insn, n: bv32)
    requires d.Op(0).Reg? && Number(d.Op(0).reg) == n
    ensures d.ops == [XReg(false, n)] <==> OneX(d)
  {
  }

  lemma TwoXAre(d: Insn, n: bv32, m: bv32)
    requires d.Op(0).Reg? && Number(d.Op(0).reg) == n && d.Op(1).Reg? && Number(d.Op(1).reg) == m
    ensures d.ops == [XReg(false, n), XReg(true, m)] <==> |d.ops| == 2 && IsX(d.ops[0], false) && IsX(d.ops[1], true)
  {
  }

  lemma BelowThirtyTwo(r: Register)
    ensures Number(r) < 32
  {
  }

  // A branch that comes back with the operands ops, if at all.
  lemma ComesBack(d: Insn, w: bv32, ops: seq<Operand>, f: Gate, v: Insn)
    requires v.IsInvalid() && !d.IsInvalid() && ClassOf(w).RegBranch?
    requires var e := v.(code := d.code, mnemonic := MnemonicOf(d.code), ops := ops);
             UncondBranchReg(w, f, v) == if RegAdmitted(d.code, f) then e else v
    requires d.ops == ops <==> AsRegBranch(d)
    ensures RegReturns(d, w, f, v)
  {
  }

  lemma PlainReturns(d: Insn, f: Gate, v: Insn)
    requires v.IsInvalid()
    requires d.code.Br? || d.code.Blr? || (d.code.Ret? && d.ops != [])
    requires EncBranchReg(d).Ok?
    ensures RegReturns(d, EncBranchReg(d).value, f, v)
  {
    var opc: bv32 := if d.code.Br? then 0 else if d.code.Blr? then 1 else 2;
    assert EncBranchReg(d) == EncOneReg(d, opc, 0, 0);
    var n := Number(d.Op(0).reg);
    BelowThirtyTwo(d.Op(0).reg);
    RegWordBack(opc, 0, n, 0, f, v);
    SetOne(d.code, XReg(false, n), v);
    OneXIs(d, n);
    ComesBack(d, EncBranchReg(d).value, if d.code.Ret? && n == 30 then [] else [XReg(false, n)], f, v);
  }

  lemma BareReturns(d: Insn, f: Gate, v: Insn)
    requires v.IsInvalid()
    requires (d.code.Ret? && d.ops == []) || d.code.Eret? || d.code.Drps?
    ensures EncBranchReg(d).Ok? && RegReturns(d, EncBranchReg(d).value, f, v)
  {
    var opc: bv32 := if d.code.Ret? then 2 else if d.code.Eret? then 4 else 5;
    RegWordBack(opc, 0, if d.code.Ret? then 30 else 31, 0, f, v);
  }

  lemma SignedReturns(d: Insn, f: Gate, v: Insn)
    requires v.IsInvalid()
    requires IsSignedReturn(d.code)
    ensures EncBranchReg(d).Ok? && RegReturns(d, EncBranchReg(d).value, f, v)
  {
    var opc: bv32 := if d.code.Retaa? || d.code.Retab? then 2 else 4;
    RegWordBack(opc, if d.code.Retaa? || d.code.Eretaa? then 2 else 3, 31, 31, f, v);
  }

  lemma ZeroBack(c: Code, opc: bv32, op3: bv32, n: bv32, f: Gate, v: Insn)
    requires IsZeroBranch(c) && opc == (if c.Braaz? || c.Brabz? then 0 else 1)
    requires op3 == if c.Braaz? || c.Blraaz? then 2 else 3
    ensures RegBranchBy(opc, op3, n, 31, f, v) == if f(Feature.PAuth) then v.Set(c).Push(XReg(false, n)) else v
  {
  }

  lemma ZeroEncodes(d: Insn, opc: bv32, op3: bv32)
    requires IsZeroBranch(d.code) && opc == (if d.code.Braaz? || d.code.Brabz? then 0 else 1)
    requires op3 == if d.code.Braaz? || d.code.Blraaz? then 2 else 3
    ensures EncBranchReg(d) == EncOneReg(d, opc, op3, 31)
  {
  }

  lemma ZeroReturns(d: Insn, f: Gate, v: Insn)
    requires v.IsInvalid()
    requires IsZeroBranch(d.code) && EncBranchReg(d).Ok?
    ensures RegReturns(d, EncBranchReg(d).value, f, v)
  {
    var opc: bv32, op3: bv32 :=
      if d.code.Braaz? || d.code.Brabz? then 0 else 1, if d.code.Braaz? || d.code.Blraaz? then 2 else 3;
    ZeroEncodes(d, opc, op3);
    var n := Number(d.Op(0).reg);
    BelowThirtyTwo(d.Op(0).reg);
    ZeroBack(d.code, opc, op3, n, f, v);
    RegWordBack(opc, op3, n, 31, f, v);
    SetOne(d.code, XReg(false, n), v);
    OneXIs(d, n);
  }

  lemma ModifierReturns(d: Insn, f: Gate, v: Insn)
    requires v.IsInvalid()
    requires IsModifierReturn(d.code) && EncBranchReg(d).Ok?
    ensures RegReturns(d, EncBranchReg(d).value, f, v)
  {
    var op3: bv32 := if d.code.Retaasppcr? then 2 else 3;
    assert EncBranchReg(d) == EncModifier(d, op3);
    var n := Number(d.Op(0).reg);
    BelowThirtyTwo(d.Op(0).reg);
    RegWordBack(2, op3, 31, n, f, v);
    SetOne(d.code, XReg(false, n), v);
    OneXIs(d, n);
  }

  lemma PairBack(c: Code, opc: bv32, op3: bv32, n: bv32, m: bv32, f: Gate, v: Insn)
    requires IsPairBranch(c) && opc == (if c.Braa? || c.Brab? then 8 else 9)
    requires op3 == if c.Braa? || c.Blraa? then 2 else 3
    ensures RegBranchBy(opc, op3, n, m, f, v) ==
            if f(Feature.PAuth) then v.Set(c).Push(XReg(false, n)).Push(XReg(true, m)) else v
  {
  }

  lemma PairEncodes(d: Insn, opc: bv32, op3: bv32)
    requires IsPairBranch(d.code) && opc == (if d.code.Braa? || d.code.Brab? then 8 else 9)
    requires op3 == if d.code.Braa? || d.code.Blraa? then 2 else 3
    ensures EncBranchReg(d) == EncTwoRegs(d, opc, op3)
  {
  }

  lemma PairReturns(d: Insn, f: Gate, v: Insn)
    requires v.IsInvalid()
    requires IsPairBranch(d.code) && EncBranchReg(d).Ok?
    ensures RegReturns(d, EncBranchReg(d).value, f, v)
  {
    var opc: bv32, op3: bv32 :=
      if d.code.Braa? || d.code.Brab? then 8 else 9, if d.code.Braa? || d.code.Blraa? then 2 else 3;
    PairEncodes(d, opc, op3);
    var n, m := Number(d.Op(0).reg), Number(d.Op(1).reg);
    BelowThirtyTwo(d.Op(0).reg);
    BelowThirtyTwo(d.Op(1).reg);
    RegWordBack(opc, op3, n, m, f, v);
    PairBack(d.code, opc, op3, n, m, f, v);
    SetTwo(d.code, XReg(false, n), XReg(true, m), v);
    TwoXAre(d, n, m);
    ComesBack(d, EncBranchReg(d).value, [XReg(false, n), XReg(true, m)], f, v);
  }

  // A branch to a register with any operands at all, if it encodes, comes back as it was
  // exactly when its operands are as the decoder makes them, its mnemonic is that of its
  // encoding and the extension of the encoding is accepted.
  lemma RegBranchReturnsIff(d: Insn, f: Gate, table: SysTable, names: SysNames)
    requires IsRegCode(d.code) && Encode(d, names).Ok?
    ensures var w := Encode(d, names).value;
            SameMeaning(Branch(w, f, table, NewInvalid(w, d.ip)), d) <==>
            d.mnemonic == MnemonicOf(d.code) && RegAdmitted(d.code, f) && AsRegBranch(d)
  {
    RegFamily(d.code);
    var w := EncBranchReg(d).value;
    RegClassReturns(d, f, NewInvalid(w, d.ip));
  }

  lemma RegClassReturns(d: Insn, f: Gate, v: Insn)
    requires v.IsInvalid()
    requires IsRegCode(d.code) && EncBranchReg(d).Ok?
    ensures RegReturns(d, EncBranchReg(d).value, f, v)
  {
    if d.code.Br? || d.code.Blr? || (d.code.Ret? && d.ops != []) {
      PlainReturns(d, f, v);
    } else if d.code.Ret? || d.code.Eret? || d.code.Drps? {
      BareReturns(d, f, v);
    } else if IsZeroBranch(d.code) {
      ZeroReturns(d, f, v);
    } else if IsModifierReturn(d.code) {
      ModifierReturns(d, f, v);
    } else if IsPairBranch(d.code) {
      PairReturns(d, f, v);
    } else {
      SignedReturns(d, f, v);
    }
  }

  // --- Exceptions. ---

  predicate IsDcps(c: Code) { c.Dcps1? || c.Dcps2? || c.Dcps3? }

  // A number and nothing else; DCPS leaves 0 out, and TENTER has seven bits and may end in nb.
  predicate AsException(d: Insn) {
    if IsDcps(d.code) then d.ops == [] || (OneNumber(d) && d.ops[0].value != 0)
    else if d.code.Tenter? then
      && 1 <= |d.ops| <= 2 && d.ops[0].ImmUnsigned? && d.ops[0].value <= 0x7f
      && (|d.ops| == 2 ==> d.ops[1] == SysOp(Keyword.Nb))
    else OneNumber(d)
  }

  predicate OneNumber(d: Insn) { |d.ops| == 1 && d.ops[0].ImmUnsigned? }

  predicate ExceptionAdmitted(c: Code, f: Gate) {
    (c.Tcancel? ==> f(Feature.Tme)) && (c.Tenter? ==> f(Feature.Tev))
  }

  ghost predicate ExceptionReturns(d: Insn, w: bv32, f: Gate, v: Insn) {
    && ClassOf(w).Exceptions?
    && (SameMeaning(ExceptionGen(w, f, v), d) <==>
        d.mnemonic == MnemonicOf(d.code) && ExceptionAdmitted(d.code, f) && AsException(d))
  }

  lemma ExceptionBack(opc: bv32, ll: bv32, imm16: bv32, f: Gate, v: Insn)
    requires opc <= 7 && ll <= 3 && imm16 <= 0xffff
    ensures var w := ExceptionWord(opc, ll, imm16);
            ClassOf(w).Exceptions? && ExceptionGen(w, f, v) == ExceptionBy(opc, ll, imm16, f, v)
  {
  }

  // The field of a number of sixteen bits, read back.
  lemma FieldOf(n: U64) returns (x: bv32)
    requires n <= 0xffff
    ensures x == Low32(n) && x <= 0xffff && x as int == n
  {
    x := WordOf(n);
  }

  lemma ComesBackRaised(d: Insn, w: bv32, ops: seq<Operand>, f: Gate, v: Insn)
    requires v.IsInvalid() && !d.IsInvalid() && ClassOf(w).Exceptions?
    requires var e := v.(code := d.code, mnemonic := MnemonicOf(d.code), ops := ops);
             ExceptionGen(w, f, v) == if ExceptionAdmitted(d.code, f) then e else v
    requires d.ops == ops <==> AsException(d)
    ensures ExceptionReturns(d, w, f, v)
  {
  }

  lemma OneNumberIs(d: Insn, n: U64)
    requires ImmU(d, 0) == Ok(n)
    ensures d.ops == [ImmUnsigned(n)] <==> OneNumber(d)
  {
  }

  lemma CallBack(c: Code, imm16: bv32, f: Gate, v: Insn)
    requires c.Svc? || c.Hvc? || c.Smc?
    ensures var s := ExceptionSelector(c);
            s.0 == 0 && s.1 <= 3 && ExceptionBy(0, s.1, imm16, f, v) == v.Set(c).Push(ImmUnsigned(imm16 as int))
  {
  }

  lemma StopBack(c: Code, imm16: bv32, f: Gate, v: Insn)
    requires c.Brk? || c.Hlt? || c.Tcancel?
    ensures var s := ExceptionSelector(c);
            && s.0 <= 7 && s.1 == 0
            && ExceptionBy(s.0, 0, imm16, f, v) ==
               if ExceptionAdmitted(c, f) then v.Set(c).Push(ImmUnsigned(imm16 as int)) else v
  {
  }

  lemma CallReturns(d: Insn, f: Gate, v: Insn)
    requires v.IsInvalid() && IsExceptionCode(d.code) && !IsDcps(d.code) && !d.code.Tenter? && EncException(d).Ok?
    ensures ExceptionReturns(d, EncException(d).value, f, v)
  {
    var n, s := ImmU(d, 0).value, ExceptionSelector(d.code);
    var x := FieldOf(n);
    if d.code.Svc? || d.code.Hvc? || d.code.Smc? { CallBack(d.code, x, f, v); } else { StopBack(d.code, x, f, v); }
    ExceptionBack(s.0, s.1, x, f, v);
    SetOne(d.code, ImmUnsigned(n), v);
    OneNumberIs(d, n);
    ComesBackRaised(d, EncException(d).value, [ImmUnsigned(n)], f, v);
  }

  lemma DcpsReturns(d: Insn, f: Gate, v: Insn)
    requires v.IsInvalid() && IsDcps(d.code) && EncException(d).Ok?
    ensures ExceptionReturns(d, EncException(d).value, f, v)
  {
    var n := if d.ops == [] then 0 else ImmU(d, 0).value;
    var x := FieldOf(n);
    ExceptionBack(5, ExceptionSelector(d.code).1, x, f, v);
    SetOne(d.code, ImmUnsigned(n), v);
    if d.ops != [] { OneNumberIs(d, n); }
    ComesBackRaised(d, EncException(d).value, if n == 0 then [] else [ImmUnsigned(n)], f, v);
  }

  // The seven bits kept of a number are the number exactly if it fits in them.
  lemma SevenBits(n: U64)
    ensures Low32(n) & 0x7f <= 0x7f
    ensures (Low32(n) & 0x7f) as int == n <==> n <= 0x7f
  {
    Below7(Low32(n) & 0x7f);
    if n <= 0x7f {
      var x := WordOf(n);
    }
  }

  function TenterField(y: bv32, nb: bool): bv32 { y | (if nb then 0x1000 else 0) }

  lemma TenterFieldParts(y: bv32, nb: bool)
    requires y <= 0x7f
    ensures var x := TenterField(y, nb);
            x <= 0xffff && x & 0xef80 == 0 && x & 0x7f == y && (x & 0x1000 != 0 <==> nb)
  {
  }

  function TenterForm(y: U64, nb: bool): seq<Operand> {
    if nb then [ImmUnsigned(y), SysOp(Keyword.Nb)] else [ImmUnsigned(y)]
  }

  lemma TenterBack(y: bv32, nb: bool, f: Gate, v: Insn)
    requires y <= 0x7f
    ensures ExceptionBy(7, 0, TenterField(y, nb), f, v) ==
            if f(Feature.Tev) then
              v.(code := Code.Tenter, mnemonic := MnemonicOf(Code.Tenter), ops := TenterForm(y as int, nb))
            else v
  {
    TenterFieldParts(y, nb);
    SetOne(Code.Tenter, ImmUnsigned(y as int), v);
    SetTwo(Code.Tenter, ImmUnsigned(y as int), SysOp(Keyword.Nb), v);
  }

  lemma TenterFormIs(d: Insn, n: U64)
    requires d.code.Tenter? && ImmU(d, 0) == Ok(n)
    ensures d.ops == TenterForm((Low32(n) & 0x7f) as int, |d.ops| > 1) <==> AsException(d)
  {
    SevenBits(n);
  }

  lemma TenterWordReturns(d: Insn, y: bv32, nb: bool, f: Gate, v: Insn)
    requires v.IsInvalid() && d.code.Tenter? && y <= 0x7f
    requires d.ops == TenterForm(y as int, nb) <==> AsException(d)
    ensures ExceptionReturns(d, ExceptionWord(7, 0, TenterField(y, nb)), f, v)
  {
    TenterFieldParts(y, nb);
    TenterBack(y, nb, f, v);
    ExceptionBack(7, 0, TenterField(y, nb), f, v);
    ComesBackRaised(d, ExceptionWord(7, 0, TenterField(y, nb)), TenterForm(y as int, nb), f, v);
  }

  lemma TenterReturns(d: Insn, f: Gate, v: Insn)
    requires v.IsInvalid() && d.code.Tenter? && EncException(d).Ok?
    ensures ExceptionReturns(d, EncException(d).value, f, v)
  {
    var n := ImmU(d, 0).value;
    SevenBits(n);
    TenterFormIs(d, n);
    TenterWordReturns(d, Low32(n) & 0x7f, |d.ops| > 1, f, v);
  }

  // The same of an exception: TENTER drops the high bits of its number.
  lemma ExceptionReturnsIff(d: Insn, f: Gate, table: SysTable, names: SysNames)
    requires IsExceptionCode(d.code) && Encode(d, names).Ok?
    ensures var w := Encode(d, names).value;
            SameMeaning(Branch(w, f, table, NewInvalid(w, d.ip)), d) <==>
            d.mnemonic == MnemonicOf(d.code) && ExceptionAdmitted(d.code, f) && AsException(d)
  {
    ExceptionFamily(d.code);
    var w := EncException(d).value;
    if IsDcps(d.code) {
      DcpsReturns(d, f, NewInvalid(w, d.ip));
    } else if d.code.Tenter? {
      TenterReturns(d, f, NewInvalid(w, d.ip));
    } else {
      CallReturns(d, f, NewInvalid(w, d.ip));
    }
  }
}
