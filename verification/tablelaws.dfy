/** The decoder computes the encoding table. */
module TableLaws {
  import opened Wrappers
  import opened Ints
  import opened Fields
  import opened Features
  import opened Isa
  import opened Instructions
  import opened BranchSpec
  import opened EncodingTable
  import BranchLaws

  // What a row makes of an undecoded value.
  function Outcome(v: Insn, row: Option<Row>): Insn {
    if row.None? then v
    else Insn(v.word, v.ip, row.value.code, row.value.mnemonic, row.value.ops, v.modified)
  }

  // --- Operands. ---

  lemma Registers(n: bv32)
    ensures XReg(false, n) == Xn(n) == Xn(n & 31)
    ensures XReg(true, n) == XnSp(n) == XnSp(n & 31)
    ensures PlainReg(false, W32, n) == Wn(n) == Wn(n & 31)
  {
  }

  lemma Targets(ip: U64, k: nat, s: Span)
    requires k < 2 * Half(s)
    ensures var words := if 2 * k < 2 * Half(s) then k else k - 2 * Half(s);
            Target(ip, k, s) == (ip + 4 * words) % 0x1_0000_0000_0000_0000
  {
  }

  lemma NearIs(ip: U64, n: bv32, k: nat, s: Span)
    requires k < 2 * Half(s) && n as int == k
    ensures Label(Target(ip, k, s)) == Near(ip, n, 2 * Half(s))
  {
    Targets(ip, k, s);
    NearFrom(ip, n, k, 2 * Half(s), Target(ip, k, s));
  }

  lemma NearFrom(ip: U64, n: bv32, k: nat, values: nat, target: U64)
    requires n as int == k
    requires target == (ip + 4 * (if 2 * k < values then k else k - values)) % 0x1_0000_0000_0000_0000
    ensures Label(target) == Near(ip, n, values)
  {
  }

  lemma LabelIs(word: bv32, ip: U64, s: Span)
    ensures LabelAt(ip, word, s) == Near(ip, ImmBits(word, s), 2 * Half(s))
  {
    BranchLaws.FieldNumber(word, s);
    NearIs(ip, ImmBits(word, s), ImmField(word, s), s);
  }

  lemma LabelFields(word: bv32)
    ensures ImmBits(word, Imm26) == word & 0x3ff_ffff && ImmBits(word, Imm19) == (word >> 5) & 0x7_ffff
    ensures ImmBits(word, Imm14) == (word >> 5) & 0x3fff && ImmBits(word, Imm9) == (word >> 5) & 0x1ff
  {
    assert Bits(word, 0, 26) == word & 0x3ff_ffff;
    assert Bits(word, 5, 19) == (word >> 5) & 0x7_ffff;
    assert Bits(word, 5, 14) == (word >> 5) & 0x3fff;
    assert Bits(word, 5, 9) == (word >> 5) & 0x1ff;
  }

  // --- Shapes. ---

  // The row of an encoding that has its name to itself; none for Invalid.
  predicate Bears(row: Option<Row>, c: Code, ops: seq<Operand>) {
    if c.Invalid? then row.None?
    else row.Some? && row.value.code == c && row.value.mnemonic == Own(c) && row.value.ops == ops
  }

  predicate OwnNamed(c: Code) { c.Invalid? || MnemonicOf(c) == Own(c) }

  lemma Zero(v: Insn, c: Code, row: Option<Row>)
    requires Bears(row, c, []) && OwnNamed(c)
    ensures Outcome(v, row) == if c.Invalid? then v else v.Set(c)
  {
  }

  lemma One(v: Insn, c: Code, x: Operand, row: Option<Row>)
    requires Bears(row, c, [x]) && OwnNamed(c)
    ensures Outcome(v, row) == if c.Invalid? then v else v.Set(c).Push(x)
  {
  }

  lemma Two(v: Insn, c: Code, x: Operand, y: Operand, row: Option<Row>)
    requires Bears(row, c, [x, y]) && OwnNamed(c)
    ensures Outcome(v, row) == if c.Invalid? then v else v.Set(c).Push(x).Push(y)
  {
  }

  // --- Register branches, by their fields. ---

  function PlainCode(opc: bv32, rn: bv32): Code {
    if opc == 0 then Code.Br
    else if opc == 1 then Code.Blr
    else if opc == 2 then Code.Ret
    else if opc == 4 && rn == 31 then Code.Eret
    else if opc == 5 && rn == 31 then Code.Drps
    else Code.Invalid
  }

  lemma PlainTree(opc: bv32, rn: bv32, v: Insn, x: Operand, c: Code)
    requires c == PlainCode(opc, rn) && x == XReg(false, rn)
    ensures opc <= 1 || (opc == 2 && rn != 30) ==> PlainBranch(opc, rn, v) == v.Set(c).Push(x)
    ensures opc > 2 || rn == 30 ==> opc <= 1 || PlainBranch(opc, rn, v) == if c.Invalid? then v else v.Set(c)
    ensures OwnNamed(c)
  {
  }

  lemma PlainTable(word: bv32, opc: bv32, rn: bv32, f: Gate, x: Operand)
    requires word & 0xfe1f_fc1f == 0xd61f_0000
    requires opc == Bits(word, 21, 4) && rn == Bits(word, 5, 5) && x == Xn(word >> 5)
    ensures Bears(RegisterRows(word, f), PlainCode(opc, rn), if opc <= 1 || (opc == 2 && rn != 30) then [x] else [])
  {
  }

  lemma PlainIs(word: bv32, opc: bv32, rn: bv32, f: Gate, v: Insn, x: Operand)
    requires word & 0xfe1f_fc1f == 0xd61f_0000
    requires opc == Bits(word, 21, 4) && rn == Bits(word, 5, 5) && x == Xn(word >> 5) == XReg(false, rn)
    ensures PlainBranch(opc, rn, v) == Outcome(v, RegisterRows(word, f))
  {
    var c, row := PlainCode(opc, rn), RegisterRows(word, f);
    PlainTree(opc, rn, v, x, c);
    PlainTable(word, opc, rn, f, x);
    if opc <= 1 || (opc == 2 && rn != 30) { One(v, c, x, row); } else { Zero(v, c, row); }
  }

  // With FEAT_PAuth, and but for the returns.
  function SignedCode(opc: bv32, keyA: bool, rn: bv32, op4: bv32): Code {
    if opc == 0 && op4 == 31 then if keyA then Code.Braaz else Code.Brabz
    else if opc == 1 && op4 == 31 then if keyA then Code.Blraaz else Code.Blrabz
    else if opc == 4 && op4 == 31 && rn == 31 then if keyA then Code.Eretaa else Code.Eretab
    else if opc == 8 then if keyA then Code.Braa else Code.Brab
    else if opc == 9 then if keyA then Code.Blraa else Code.Blrab
    else Code.Invalid
  }

  lemma SignedNamed(opc: bv32, keyA: bool, rn: bv32, op4: bv32)
    ensures OwnNamed(SignedCode(opc, keyA, rn, op4))
  {
  }

  lemma SignedTree(opc: bv32, keyA: bool, rn: bv32, op4: bv32, f: Gate, v: Insn, x: Operand, m: Operand, c: Code)
    requires opc != 2 && f(Feature.PAuth) && c == SignedCode(opc, keyA, rn, op4)
    requires x == XReg(false, rn) && m == XReg(true, op4)
    ensures opc <= 1 ==> SignedBranch(opc, keyA, rn, op4, f, v) == if c.Invalid? then v else v.Set(c).Push(x)
    ensures 1 < opc < 8 ==> SignedBranch(opc, keyA, rn, op4, f, v) == if c.Invalid? then v else v.Set(c)
    ensures opc >= 8 ==> SignedBranch(opc, keyA, rn, op4, f, v) == if c.Invalid? then v else v.Set(c).Push(x).Push(m)
  {
    if opc < 8 {
      SignedZeroTree(opc, keyA, rn, op4, f, v, x, c);
    } else {
      SignedPairTree(opc, keyA, rn, op4, f, v, x, m, c);
    }
  }

  lemma SignedZeroTree(opc: bv32, keyA: bool, rn: bv32, op4: bv32, f: Gate, v: Insn, x: Operand, c: Code)
    requires opc != 2 && opc < 8 && f(Feature.PAuth) && c == SignedCode(opc, keyA, rn, op4) && x == XReg(false, rn)
    ensures SignedBranch(opc, keyA, rn, op4, f, v) ==
            if c.Invalid? then v else if opc <= 1 then v.Set(c).Push(x) else v.Set(c)
  {
  }

  lemma SignedPairTree(opc: bv32, keyA: bool, rn: bv32, op4: bv32, f: Gate, v: Insn, x: Operand, m: Operand, c: Code)
    requires opc >= 8 && f(Feature.PAuth) && c == SignedCode(opc, keyA, rn, op4)
    requires x == XReg(false, rn) && m == XReg(true, op4)
    ensures SignedBranch(opc, keyA, rn, op4, f, v) == if c.Invalid? then v else v.Set(c).Push(x).Push(m)
  {
    if opc == 8 || opc == 9 { SignedPairAt(opc, keyA, rn, op4, f, v, x, m, c); }
  }

  lemma SignedPairAt(opc: bv32, keyA: bool, rn: bv32, op4: bv32, f: Gate, v: Insn, x: Operand, m: Operand, c: Code)
    requires (opc == 8 || opc == 9) && f(Feature.PAuth) && x == XReg(false, rn) && m == XReg(true, op4)
    requires c == if opc == 8 then (if keyA then Code.Braa else Code.Brab)
                  else if keyA then Code.Blraa else Code.Blrab
    ensures SignedBranch(opc, keyA, rn, op4, f, v) == v.Set(c).Push(x).Push(m)
  {
  }

  lemma SignedTable(word: bv32, opc: bv32, keyA: bool, rn: bv32, op4: bv32, f: Gate, x: Operand, m: Operand)
    requires word & 0xfe1f_f800 == 0xd61f_0800 && f(Feature.PAuth)
    requires opc == Bits(word, 21, 4) && opc != 2 && keyA == (Bits(word, 10, 6) == 2)
    requires rn == Bits(word, 5, 5) && op4 == Bits(word, 0, 5) && x == Xn(word >> 5) && m == XnSp(word)
    ensures Bears(RegisterRows(word, f), SignedCode(opc, keyA, rn, op4),
                  if opc <= 1 then [x] else if opc < 8 then [] else [x, m])
  {
    if opc < 8 { SignedZeroTable(word, opc, keyA, rn, op4, f, x); } else { SignedPairTable(word, opc, keyA, f, x, m); }
  }

  lemma SignedZeroTable(word: bv32, opc: bv32, keyA: bool, rn: bv32, op4: bv32, f: Gate, x: Operand)
    requires word & 0xff1f_f800 == 0xd61f_0800 && f(Feature.PAuth)
    requires opc == Bits(word, 21, 4) && opc != 2 && keyA == (Bits(word, 10, 6) == 2)
    requires rn == Bits(word, 5, 5) && op4 == Bits(word, 0, 5) && x == Xn(word >> 5)
    ensures Bears(RegisterRows(word, f), SignedCode(opc, keyA, rn, op4), if opc <= 1 then [x] else [])
  {
  }

  lemma SignedPairTable(word: bv32, opc: bv32, keyA: bool, f: Gate, x: Operand, m: Operand)
    requires word & 0xff1f_f800 == 0xd71f_0800 && f(Feature.PAuth)
    requires opc == Bits(word, 21, 4) && keyA == (Bits(word, 10, 6) == 2) && x == Xn(word >> 5) && m == XnSp(word)
    ensures Bears(RegisterRows(word, f), SignedCode(opc, keyA, 0, 0), [x, m])
  {
  }

  lemma SignedIs(word: bv32, opc: bv32, keyA: bool, rn: bv32, op4: bv32, f: Gate, v: Insn, x: Operand, m: Operand)
    requires word & 0xfe1f_f800 == 0xd61f_0800 && f(Feature.PAuth)
    requires opc == Bits(word, 21, 4) && opc != 2 && keyA == (Bits(word, 10, 6) == 2)
    requires rn == Bits(word, 5, 5) && op4 == Bits(word, 0, 5)
    requires x == Xn(word >> 5) == XReg(false, rn) && m == XnSp(word) == XReg(true, op4)
    ensures SignedBranch(opc, keyA, rn, op4, f, v) == Outcome(v, RegisterRows(word, f))
  {
    var c, row := SignedCode(opc, keyA, rn, op4), RegisterRows(word, f);
    SignedNamed(opc, keyA, rn, op4);
    SignedTree(opc, keyA, rn, op4, f, v, x, m, c);
    SignedTable(word, opc, keyA, rn, op4, f, x, m);
    if opc <= 1 { One(v, c, x, row); } else if opc < 8 { Zero(v, c, row); } else { Two(v, c, x, m, row); }
  }

  function SignedReturnCode(keyA: bool, op4: bv32): Code {
    if op4 == 31 then if keyA then Code.Retaa else Code.Retab
    else if keyA then Code.Retaasppcr else Code.Retabsppcr
  }

  lemma SignedReturnTree(keyA: bool, op4: bv32, f: Gate, v: Insn, x: Operand, c: Code)
    requires c == SignedReturnCode(keyA, op4) && x == XReg(false, op4)
    ensures op4 == 31 ==> SignedReturn(keyA, 31, op4, f, v) == if f(Feature.PAuth) then v.Set(c) else v
    ensures op4 != 31 ==> SignedReturn(keyA, 31, op4, f, v) == if f(Feature.PauthLr) then v.Set(c).Push(x) else v
    ensures OwnNamed(c)
  {
  }

  lemma SignedReturnTable(word: bv32, keyA: bool, op4: bv32, f: Gate, x: Operand)
    requires word & 0xffff_fbe0 == 0xd65f_0be0
    requires keyA == (Bits(word, 10, 6) == 2) && op4 == Bits(word, 0, 5) && x == Xn(word)
    ensures Bears(RegisterRows(word, f),
                  if f(if op4 == 31 then Feature.PAuth else Feature.PauthLr) then SignedReturnCode(keyA, op4)
                  else Code.Invalid, if op4 == 31 then [] else [x])
  {
  }

  lemma SignedReturnIs(word: bv32, keyA: bool, op4: bv32, f: Gate, v: Insn, x: Operand)
    requires word & 0xffff_fbe0 == 0xd65f_0be0
    requires keyA == (Bits(word, 10, 6) == 2) && op4 == Bits(word, 0, 5) && x == Xn(word) == XReg(false, op4)
    ensures SignedReturn(keyA, 31, op4, f, v) == Outcome(v, RegisterRows(word, f))
  {
    var c, row := SignedReturnCode(keyA, op4), RegisterRows(word, f);
    var enabled := f(if op4 == 31 then Feature.PAuth else Feature.PauthLr);
    SignedReturnTree(keyA, op4, f, v, x, c);
    SignedReturnTable(word, keyA, op4, f, x);
    if op4 == 31 {
      Zero(v, if enabled then c else Code.Invalid, row);
    } else {
      One(v, if enabled then c else Code.Invalid, x, row);
    }
  }

  lemma RegisterGroups(word: bv32)
    requires word & 0xfe00_0000 == 0xd600_0000
    ensures word & 0xfe1f_fc1f == 0xd61f_0000 <==>
            Bits(word, 16, 5) == 31 && Bits(word, 10, 6) == 0 && Bits(word, 0, 5) == 0
    ensures word & 0xfe1f_f800 == 0xd61f_0800 <==>
            Bits(word, 16, 5) == 31 && (Bits(word, 10, 6) == 2 || Bits(word, 10, 6) == 3)
    ensures word & 0xffff_fbe0 == 0xd65f_0be0 <==>
            word & 0xfe1f_f800 == 0xd61f_0800 && Bits(word, 21, 4) == 2 && Bits(word, 5, 5) == 31
  {
  }

  lemma NoRegisterRow(word: bv32, f: Gate)
    requires word & 0xfe00_0000 == 0xd600_0000 && word & 0xfe1f_fc1f != 0xd61f_0000
    requires word & 0xfe1f_f800 == 0xd61f_0800 ==>
               if Bits(word, 21, 4) == 2 then Bits(word, 5, 5) != 31 else !f(Feature.PAuth)
    ensures RegisterRows(word, f) == None
  {
  }

  lemma RegisterIs(word: bv32, f: Gate, v: Insn, x: Operand, m: Operand, y: Operand)
    requires word & 0xfe00_0000 == 0xd600_0000
    requires x == Xn(word >> 5) == XReg(false, Bits(word, 5, 5))
    requires y == Xn(word) == XReg(false, Bits(word, 0, 5)) && m == XnSp(word) == XReg(true, Bits(word, 0, 5))
    ensures UncondBranchReg(word, f, v) == Outcome(v, RegisterRows(word, f))
  {
    var opc, op3, rn, op4 := Bits(word, 21, 4), Bits(word, 10, 6), Bits(word, 5, 5), Bits(word, 0, 5);
    RegisterGroups(word);
    if word & 0xfe1f_fc1f == 0xd61f_0000 {
      PlainIs(word, opc, rn, f, v, x);
    } else if word & 0xffff_fbe0 == 0xd65f_0be0 {
      SignedReturnIs(word, op3 == 2, op4, f, v, y);
    } else if word & 0xfe1f_f800 == 0xd61f_0800 && opc != 2 && f(Feature.PAuth) {
      SignedIs(word, opc, op3 == 2, rn, op4, f, v, x, m);
    } else {
      NoRegisterRow(word, f);
    }
  }

  // --- Exceptions, by their fields. ---

  function CallCode(opc: bv32, ll: bv32): Code {
    if opc == 0 && ll == 1 then Code.Svc
    else if opc == 0 && ll == 2 then Code.Hvc
    else if opc == 0 && ll == 3 then Code.Smc
    else if opc == 1 && ll == 0 then Code.Brk
    else if opc == 2 && ll == 0 then Code.Hlt
    else if opc == 5 && ll == 1 then Code.Dcps1
    else if opc == 5 && ll == 2 then Code.Dcps2
    else if opc == 5 && ll == 3 then Code.Dcps3
    else Code.Invalid
  }

  lemma CallNamed(opc: bv32, ll: bv32)
    ensures OwnNamed(CallCode(opc, ll))
  {
  }

  lemma CallTree(opc: bv32, ll: bv32, n: bv32, f: Gate, v: Insn, x: Operand, c: Code)
    requires opc != 3 && opc != 7 && c == CallCode(opc, ll) && x == Imm(n)
    ensures ExceptionBy(opc, ll, n, f, v) ==
            if c.Invalid? then v else if opc == 5 && n == 0 then v.Set(c) else v.Set(c).Push(x)
  {
    if opc == 5 { DcpsTree(ll, n, f, v, x, c); } else { UnconditionalTree(opc, ll, n, f, v, x, c); }
  }

  lemma DcpsTree(ll: bv32, n: bv32, f: Gate, v: Insn, x: Operand, c: Code)
    requires c == CallCode(5, ll) && x == Imm(n)
    ensures ExceptionBy(5, ll, n, f, v) == if c.Invalid? then v else if n == 0 then v.Set(c) else v.Set(c).Push(x)
  {
  }

  lemma UnconditionalTree(opc: bv32, ll: bv32, n: bv32, f: Gate, v: Insn, x: Operand, c: Code)
    requires opc != 3 && opc != 7 && opc != 5 && c == CallCode(opc, ll) && x == Imm(n)
    ensures ExceptionBy(opc, ll, n, f, v) == if c.Invalid? then v else v.Set(c).Push(x)
  {
  }

  lemma CallTable(word: bv32, opc: bv32, ll: bv32, n: bv32, f: Gate, x: Operand)
    requires word & 0xff00_001c == 0xd400_0000 && opc == Bits(word, 21, 3) && ll == Bits(word, 0, 2)
    requires opc != 3 && opc != 7 && n == Bits(word, 5, 16) && x == Imm(n)
    ensures Bears(ExceptionRows(word, f), CallCode(opc, ll), if opc == 5 && n == 0 then [] else [x])
  {
    ExceptionKeys(word, opc, ll);
    Immediate16(word);
  }

  lemma ExceptionKeys(word: bv32, opc: bv32, ll: bv32)
    requires word & 0xff00_001c == 0xd400_0000 && opc == Bits(word, 21, 3) && ll == Bits(word, 0, 2)
    ensures word & 0xffe0_001f == 0xd400_0000 | (opc << 21) | ll && opc <= 7 && ll <= 3
    ensures opc != 7 ==> word & 0xffff_f01f != 0xd4e0_0000 && word & 0xffff_f01f != 0xd4e2_0000
  {
  }

  lemma CallIs(word: bv32, opc: bv32, ll: bv32, n: bv32, f: Gate, v: Insn, x: Operand)
    requires word & 0xff00_001c == 0xd400_0000 && opc == Bits(word, 21, 3) && ll == Bits(word, 0, 2)
    requires opc != 3 && opc != 7 && n == Bits(word, 5, 16) && x == Imm(n)
    ensures ExceptionBy(opc, ll, n, f, v) == Outcome(v, ExceptionRows(word, f))
  {
    var c, row := CallCode(opc, ll), ExceptionRows(word, f);
    CallNamed(opc, ll);
    CallTree(opc, ll, n, f, v, x, c);
    CallTable(word, opc, ll, n, f, x);
    if opc == 5 && n == 0 { Zero(v, c, row); } else { One(v, c, x, row); }
  }

  lemma TmeIs(word: bv32, f: Gate, v: Insn, n: bv32, x: Operand)
    requires word & 0xffe0_001c == 0xd460_0000 && n == Bits(word, 5, 16) && x == Imm(n)
    ensures ExceptionBy(3, Bits(word, 0, 2), n, f, v) == Outcome(v, ExceptionRows(word, f))
  {
    var c := if f(Feature.Tme) && Bits(word, 0, 2) == 0 then Code.Tcancel else Code.Invalid;
    TmeTable(word, f, n, x, c);
    One(v, c, x, ExceptionRows(word, f));
  }

  lemma TmeTable(word: bv32, f: Gate, n: bv32, x: Operand, c: Code)
    requires word & 0xffe0_001c == 0xd460_0000 && n == Bits(word, 5, 16) && x == Imm(n)
    requires c == if f(Feature.Tme) && Bits(word, 0, 2) == 0 then Code.Tcancel else Code.Invalid
    ensures Bears(ExceptionRows(word, f), c, [x]) && OwnNamed(c)
  {
    TmeKeys(word);
    Immediate16(word);
  }

  lemma TmeKeys(word: bv32)
    requires word & 0xffe0_001c == 0xd460_0000
    ensures word & 0xffe0_001f == 0xd460_0000 | Bits(word, 0, 2) && Bits(word, 0, 2) <= 3
    ensures word & 0xffff_f01f != 0xd4e0_0000 && word & 0xffff_f01f != 0xd4e2_0000
  {
  }

  lemma TevTable(word: bv32, f: Gate, n: bv32, x: Operand)
    requires word & 0xffe0_001c == 0xd4e0_0000 && n == Bits(word, 5, 16) && x == Imm(n & 0x7f)
    ensures Bears(ExceptionRows(word, f),
                  if f(Feature.Tev) && Bits(word, 0, 2) == 0 && n & 0xef80 == 0 then Code.Tenter else Code.Invalid,
                  if n & 0x1000 == 0 then [x] else [x, SysOp(Keyword.Nb)])
  {
  }

  lemma TevTree(ll: bv32, n: bv32, f: Gate, v: Insn, x: Operand, c: Code)
    requires x == Imm(n & 0x7f)
    requires c == if f(Feature.Tev) && ll == 0 && n & 0xef80 == 0 then Code.Tenter else Code.Invalid
    ensures ExceptionBy(7, ll, n, f, v) ==
            if c.Invalid? then v
            else if n & 0x1000 == 0 then v.Set(c).Push(x) else v.Set(c).Push(x).Push(SysOp(Keyword.Nb))
    ensures OwnNamed(c)
  {
  }

  lemma TevIs(word: bv32, f: Gate, v: Insn, n: bv32, x: Operand)
    requires word & 0xffe0_001c == 0xd4e0_0000 && n == Bits(word, 5, 16) && x == Imm(n & 0x7f)
    ensures ExceptionBy(7, Bits(word, 0, 2), n, f, v) == Outcome(v, ExceptionRows(word, f))
  {
    var row := ExceptionRows(word, f);
    var c := if f(Feature.Tev) && Bits(word, 0, 2) == 0 && n & 0xef80 == 0 then Code.Tenter else Code.Invalid;
    TevTable(word, f, n, x);
    TevTree(Bits(word, 0, 2), n, f, v, x, c);
    if n & 0x1000 == 0 { One(v, c, x, row); } else { Two(v, c, x, SysOp(Keyword.Nb), row); }
  }

  lemma ExceptionGroups(word: bv32, f: Gate)
    requires word & 0xff00_0000 == 0xd400_0000
    ensures Bits(word, 2, 3) == 0 <==> word & 0x1c == 0
    ensures Bits(word, 21, 3) == 3 <==> word & 0x00e0_0000 == 0x0060_0000
    ensures Bits(word, 21, 3) == 7 <==> word & 0x00e0_0000 == 0x00e0_0000
    ensures word & 0x1c != 0 ==> ExceptionRows(word, f) == None
  {
  }

  lemma ExceptionIs(word: bv32, f: Gate, v: Insn)
    requires word & 0xff00_0000 == 0xd400_0000
    ensures ExceptionGen(word, f, v) == Outcome(v, ExceptionRows(word, f))
  {
    var opc, ll, n := Bits(word, 21, 3), Bits(word, 0, 2), Bits(word, 5, 16);
    ExceptionGroups(word, f);
    if word & 0x1c != 0 {
    } else if opc == 3 {
      TmeIs(word, f, v, n, Imm(n));
    } else if opc == 7 {
      TevIs(word, f, v, n, Imm(n & 0x7f));
    } else {
      CallIs(word, opc, ll, n, f, v, Imm(n));
    }
  }

  // --- TCHANGE. ---

  lemma TchangeShape(v: Insn, c: Code, m: Mnemonic, a: Operand, b: Operand, nb: bool)
    requires MnemonicOf(c) == m
    ensures WithNb(v.Set(c).Push(a).Push(b), nb) == Outcome(v, Changes(c, m, a, b, nb))
  {
  }

  lemma TchangeRegIs(word: bv32, f: Gate, v: Insn, a: Operand, x: Operand, nb: bool)
    requires word & 0xfff9_fc00 == 0xd580_0000 && f(Feature.Tchange) && nb == (word & 0x0002_0000 != 0)
    requires a == Xn(word) == XReg(false, Bits(word, 0, 5)) && x == Xn(word >> 5) == XReg(false, Bits(word, 5, 5))
    ensures TchangeOf(word, f, v) == Outcome(v, TchangeRows(word, f))
  {
    var backward := word & 0x0004_0000 != 0;
    var c := if backward then Code.TchangebReg else Code.TchangefReg;
    var m := if backward then Mnemonic.Tchangeb else Mnemonic.Tchangef;
    TchangeRegTable(word, f, c, m, nb);
    TchangeRegTree(word, f, v, a, x, c, nb);
    TchangeShape(v, c, m, a, x, nb);
  }

  lemma TchangeRegTable(word: bv32, f: Gate, c: Code, m: Mnemonic, nb: bool)
    requires word & 0xfff9_fc00 == 0xd580_0000 && f(Feature.Tchange) && nb == (word & 0x0002_0000 != 0)
    requires c == if word & 0x0004_0000 != 0 then Code.TchangebReg else Code.TchangefReg
    requires m == if word & 0x0004_0000 != 0 then Mnemonic.Tchangeb else Mnemonic.Tchangef
    ensures TchangeRows(word, f) == Changes(c, m, Xn(word), Xn(word >> 5), nb) && MnemonicOf(c) == m
  {
  }

  lemma TchangeRegTree(word: bv32, f: Gate, v: Insn, a: Operand, x: Operand, c: Code, nb: bool)
    requires word & 0xfff9_fc00 == 0xd580_0000 && f(Feature.Tchange) && nb == (word & 0x0002_0000 != 0)
    requires c == if word & 0x0004_0000 != 0 then Code.TchangebReg else Code.TchangefReg
    requires a == XReg(false, Bits(word, 0, 5)) && x == XReg(false, Bits(word, 5, 5))
    ensures TchangeOf(word, f, v) == WithNb(v.Set(c).Push(a).Push(x), nb)
  {
    TchangeFields(word);
  }

  lemma TchangeFields(word: bv32)
    requires word & 0xfff9_f000 == 0xd580_0000 || word & 0xfff9_f000 == 0xd590_0000
    ensures Bit(word, 21) == 0 && Bit(word, 16) == 0 && Bits(word, 12, 4) == 0
    ensures Bits(word, 19, 2) == if word & 0xfff9_f000 == 0xd580_0000 then 0 else 2
    ensures Bits(word, 10, 2) == 0 <==> word & 0x0c00 == 0
    ensures Bit(word, 18) == 1 <==> word & 0x0004_0000 != 0
    ensures Bit(word, 17) == 1 <==> word & 0x0002_0000 != 0
  {
  }

  lemma TchangeImmIs(word: bv32, f: Gate, v: Insn, a: Operand, n: Operand, nb: bool)
    requires word & 0xfff9_f000 == 0xd590_0000 && f(Feature.Tchange) && nb == (word & 0x0002_0000 != 0)
    requires a == Xn(word) == XReg(false, Bits(word, 0, 5)) && n == Imm((word >> 5) & 0x7f) == Imm(Bits(word, 5, 7))
    ensures TchangeOf(word, f, v) == Outcome(v, TchangeRows(word, f))
  {
    var backward := word & 0x0004_0000 != 0;
    var c := if backward then Code.TchangebImm else Code.TchangefImm;
    var m := if backward then Mnemonic.Tchangeb else Mnemonic.Tchangef;
    TchangeImmTable(word, f, c, m, nb);
    TchangeImmTree(word, f, v, a, n, c, nb);
    TchangeShape(v, c, m, a, n, nb);
  }

  lemma TchangeImmTable(word: bv32, f: Gate, c: Code, m: Mnemonic, nb: bool)
    requires word & 0xfff9_f000 == 0xd590_0000 && f(Feature.Tchange) && nb == (word & 0x0002_0000 != 0)
    requires c == if word & 0x0004_0000 != 0 then Code.TchangebImm else Code.TchangefImm
    requires m == if word & 0x0004_0000 != 0 then Mnemonic.Tchangeb else Mnemonic.Tchangef
    ensures TchangeRows(word, f) == Changes(c, m, Xn(word), Imm((word >> 5) & 0x7f), nb) && MnemonicOf(c) == m
  {
  }

  lemma TchangeImmTree(word: bv32, f: Gate, v: Insn, a: Operand, n: Operand, c: Code, nb: bool)
    requires word & 0xfff9_f000 == 0xd590_0000 && f(Feature.Tchange) && nb == (word & 0x0002_0000 != 0)
    requires c == if word & 0x0004_0000 != 0 then Code.TchangebImm else Code.TchangefImm
    requires a == XReg(false, Bits(word, 0, 5)) && n == Imm(Bits(word, 5, 7))
    ensures TchangeOf(word, f, v) == WithNb(v.Set(c).Push(a).Push(n), nb)
  {
    TchangeFields(word);
  }

  lemma NoTchangeRow(word: bv32, f: Gate, v: Insn)
    requires word & 0xffc0_0000 == 0xd580_0000
    requires f(Feature.Tchange) ==> word & 0xfff9_fc00 != 0xd580_0000 && word & 0xfff9_f000 != 0xd590_0000
    ensures TchangeOf(word, f, v) == v && TchangeRows(word, f) == None
  {
  }

  lemma TchangeIs(word: bv32, f: Gate, v: Insn)
    requires word & 0xffc0_0000 == 0xd580_0000
    ensures TchangeOf(word, f, v) == Outcome(v, TchangeRows(word, f))
  {
    var nb := word & 0x0002_0000 != 0;
    LowRegisters(word);
    if f(Feature.Tchange) && word & 0xfff9_fc00 == 0xd580_0000 {
      TchangeRegIs(word, f, v, Xn(word), Xn(word >> 5), nb);
    } else if f(Feature.Tchange) && word & 0xfff9_f000 == 0xd590_0000 {
      Immediate7(word);
      TchangeImmIs(word, f, v, Xn(word), Imm((word >> 5) & 0x7f), nb);
    } else {
      NoTchangeRow(word, f, v);
    }
  }

  lemma LowRegisters(word: bv32)
    ensures XReg(false, Bits(word, 0, 5)) == Xn(word) && XReg(false, Bits(word, 5, 5)) == Xn(word >> 5)
    ensures XReg(true, Bits(word, 0, 5)) == XnSp(word)
  {
    Registers(word);
    Registers(word >> 5);
    LowFields(word);
  }

  lemma LowFields(word: bv32)
    ensures Bits(word, 0, 5) == word & 31 && Bits(word, 5, 5) == (word >> 5) & 31
    ensures Bits(word, 16, 5) == (word >> 16) & 31 && (Bit(word, 31) == 1 <==> word & 0x8000_0000 != 0)
  {
  }

  lemma Immediate7(word: bv32)
    ensures Bits(word, 5, 7) == (word >> 5) & 0x7f
  {
  }

  // --- Branches to a label. ---

  lemma JumpIsAt(word: bv32, v: Insn, t: Operand)
    requires word & 0x7c00_0000 == 0x1400_0000
    requires t == LabelAt(v.ip, word, Imm26) == Near(v.ip, word & 0x3ff_ffff, 0x400_0000)
    ensures UncondBranchImm(word, v) == Outcome(v, JumpRows(word, v.ip))
  {
  }

  lemma JumpIs(word: bv32, v: Insn)
    requires word & 0x7c00_0000 == 0x1400_0000
    ensures UncondBranchImm(word, v) == Outcome(v, JumpRows(word, v.ip))
  {
    LabelIs(word, v.ip, Imm26);
    LabelFields(word);
    JumpIsAt(word, v, LabelAt(v.ip, word, Imm26));
  }

  lemma CompareIsAt(word: bv32, v: Insn, r: Operand, t: Operand)
    requires word & 0x7e00_0000 == 0x3400_0000
    requires t == LabelAt(v.ip, word, Imm19) == Near(v.ip, (word >> 5) & 0x7_ffff, 0x8_0000)
    requires r == PlainReg(false, WidthOf(Bit(word, 31)), Bits(word, 0, 5)) == Rn(word & 0x8000_0000 != 0, word)
    ensures CompareBranch(word, v) == Outcome(v, CompareRows(word, v.ip))
  {
  }

  lemma CompareIs(word: bv32, v: Insn)
    requires word & 0x7e00_0000 == 0x3400_0000
    ensures CompareBranch(word, v) == Outcome(v, CompareRows(word, v.ip))
  {
    var r, _ := WidthRegisters(word);
    LabelFields(word);
    var t := LabelOf(word, v.ip, Imm19, (word >> 5) & 0x7_ffff);
    CompareIsAt(word, v, r, t);
  }

  lemma TestFields(word: bv32)
    ensures BitPosition(word) == if word & 0x8000_0000 == 0 then (word >> 19) & 31 else 32 | ((word >> 19) & 31)
  {
  }

  lemma TestTable(word: bv32, ip: U64, r: Operand, n: Operand, t: Operand, c: Code)
    requires word & 0x7e00_0000 == 0x3600_0000 && t == Near(ip, (word >> 5) & 0x3fff, 0x4000)
    requires r == Rn(word & 0x8000_0000 != 0, word)
    requires n == Imm(if word & 0x8000_0000 == 0 then (word >> 19) & 31 else 32 | ((word >> 19) & 31))
    requires c == if Bit(word, 24) == 1 then Code.Tbnz else Code.Tbz
    ensures Bears(TestRows(word, ip), c, [r, n, t]) && OwnNamed(c)
  {
  }

  lemma TestIsAt(word: bv32, v: Insn, r: Operand, n: Operand, t: Operand)
    requires word & 0x7e00_0000 == 0x3600_0000
    requires t == LabelAt(v.ip, word, Imm14) == Near(v.ip, (word >> 5) & 0x3fff, 0x4000)
    requires r == PlainReg(false, WidthOf(Bit(word, 31)), Bits(word, 0, 5)) == Rn(word & 0x8000_0000 != 0, word)
    requires n == Imm(BitPosition(word))
             == Imm(if word & 0x8000_0000 == 0 then (word >> 19) & 31 else 32 | ((word >> 19) & 31))
    ensures TestBranch(word, v) == Outcome(v, TestRows(word, v.ip))
  {
    var c := if Bit(word, 24) == 1 then Code.Tbnz else Code.Tbz;
    TestTable(word, v.ip, r, n, t, c);
    Three(v, c, r, n, t, TestRows(word, v.ip));
  }

  lemma TestIs(word: bv32, v: Insn)
    requires word & 0x7e00_0000 == 0x3600_0000
    ensures TestBranch(word, v) == Outcome(v, TestRows(word, v.ip))
  {
    var r, _ := WidthRegisters(word);
    LabelFields(word);
    var t := LabelOf(word, v.ip, Imm14, (word >> 5) & 0x3fff);
    TestFields(word);
    TestIsAt(word, v, r, Imm(BitPosition(word)), t);
  }

  lemma BackIs(word: bv32, ip: U64)
    ensures Label(Sub(ip, 4 * (Field16(word) as int))) == Back(ip, (word >> 5) & 0xffff)
  {
    Field16Is(word);
    BackFrom(ip, (word >> 5) & 0xffff, Field16(word) as int);
  }

  lemma Field16Is(word: bv32)
    ensures Field16(word) as int == ((word >> 5) & 0xffff) as int
  {
    Immediate16(word);
    Widened16(Field16(word));
  }

  lemma BackFrom(ip: U64, n: bv32, k: nat)
    requires k < 0x1_0000 && n as int == k
    ensures Label(Sub(ip, 4 * k)) == Back(ip, n)
  {
    BackAt(ip, k);
  }

  lemma Immediate16(word: bv32)
    ensures Bits(word, 5, 16) == (word >> 5) & 0xffff
  {
  }

  lemma BackAt(ip: U64, k: nat)
    requires k < 0x1_0000
    ensures Sub(ip, 4 * k) == (ip - 4 * k) % 0x1_0000_0000_0000_0000
  {
  }

  lemma ConditionalIsAt(word: bv32, f: Gate, v: Insn, cond: Operand, t: Operand)
    requires word & 0xff00_0000 == 0x5400_0000
    requires cond == Operand.Cond(ConditionFromU4(Bits(word, 0, 4))) == Condition16(word & 15)
    requires t == LabelAt(v.ip, word, Imm19) == Near(v.ip, (word >> 5) & 0x7_ffff, 0x8_0000)
    ensures CondBranch(word, f, v) == Outcome(v, ConditionalRows(word, v.ip, f))
  {
  }

  lemma SppcTable(word: bv32, ip: U64, f: Gate, t: Operand, c: Code)
    requires word & 0xff00_0000 == 0x5500_0000 && t == Back(ip, (word >> 5) & 0xffff) && c == SppcCode(word, f)
    ensures Bears(ConditionalRows(word, ip, f), c, [t]) && OwnNamed(c)
  {
  }

  function SppcCode(word: bv32, f: Gate): Code {
    if !f(Feature.PauthLr) || Bits(word, 22, 2) != 0 || Bits(word, 0, 5) != 31 then Code.Invalid
    else if Bit(word, 21) == 1 then Code.Retabsppc else Code.Retaasppc
  }

  lemma SppcTree(word: bv32, f: Gate, v: Insn, t: Operand, c: Code)
    requires word & 0xff00_0000 == 0x5500_0000 && t == Label(Sub(v.ip, 4 * (Field16(word) as int)))
    requires c == SppcCode(word, f)
    ensures CondBranch(word, f, v) == if c.Invalid? then v else v.Set(c).Push(t)
  {
  }

  lemma SppcIs(word: bv32, f: Gate, v: Insn)
    requires word & 0xff00_0000 == 0x5500_0000
    ensures CondBranch(word, f, v) == Outcome(v, ConditionalRows(word, v.ip, f))
  {
    var t, c := Back(v.ip, (word >> 5) & 0xffff), SppcCode(word, f);
    BackIs(word, v.ip);
    SppcTable(word, v.ip, f, t, c);
    SppcTree(word, f, v, t, c);
    One(v, c, t, ConditionalRows(word, v.ip, f));
  }

  lemma ConditionalIs(word: bv32, f: Gate, v: Insn)
    requires word & 0xfe00_0000 == 0x5400_0000
    ensures CondBranch(word, f, v) == Outcome(v, ConditionalRows(word, v.ip, f))
  {
    if word & 0xff00_0000 == 0x5400_0000 {
      LabelFields(word);
      var t := LabelOf(word, v.ip, Imm19, (word >> 5) & 0x7_ffff);
      assert Bits(word, 0, 4) == word & 15;
      ConditionalIsAt(word, f, v, Condition16(word & 15), t);
    } else {
      SppcIs(word, f, v);
    }
  }

  // --- Fused compare and branch. ---

  lemma FusedRegisterIs(word: bv32)
    requires word & 0x7f00_0000 == 0x7400_0000
    ensures var size, c := Bits(word, 14, 2), CmpbrRegCode(Bits(word, 14, 2), Bits(word, 21, 3));
            FusedRegister(word) == if size != 0 && Bit(word, 31) == 1 then None else c
    ensures FusedImmediate(word) == None
  {
  }

  lemma FusedImmediateIs(word: bv32)
    requires word & 0x7f00_0000 == 0x7500_0000
    ensures FusedImmediate(word) == if Bit(word, 14) != 0 then None else CmpbrImmCode(Bits(word, 21, 3))
    ensures FusedRegister(word) == None
  {
  }

  lemma FusedNamed(word: bv32)
    ensures FusedRegister(word).Some? ==> OwnNamed(FusedRegister(word).value)
    ensures FusedImmediate(word).Some? ==> OwnNamed(FusedImmediate(word).value)
  {
  }

  lemma Three(v: Insn, c: Code, x: Operand, y: Operand, z: Operand, row: Option<Row>)
    requires !c.Invalid? && Bears(row, c, [x, y, z]) && OwnNamed(c)
    ensures Outcome(v, row) == v.Set(c).Push(x).Push(y).Push(z)
  {
  }

  lemma FusedRegisterAt(word: bv32, v: Insn, a: Operand, b: Operand, t: Operand, row: Option<Row>)
    requires word & 0x7f00_0000 == 0x7400_0000 && t == LabelAt(v.ip, word, Imm9)
    requires a == PlainReg(false, WidthOf(Bit(word, 31)), Bits(word, 0, 5))
    requires b == PlainReg(false, WidthOf(Bit(word, 31)), Bits(word, 16, 5))
    requires row == if FusedRegister(word).None? then None else Some(Fused(FusedRegister(word).value, [a, b, t]))
    ensures CmpbrReg(word, v) == Outcome(v, row)
  {
    FusedRegisterIs(word);
    FusedNamed(word);
    if FusedRegister(word).Some? { Three(v, FusedRegister(word).value, a, b, t, row); }
  }

  lemma FusedImmediateAt(word: bv32, v: Insn, a: Operand, n: Operand, t: Operand, row: Option<Row>)
    requires word & 0x7f00_0000 == 0x7500_0000 && t == LabelAt(v.ip, word, Imm9)
    requires a == PlainReg(false, WidthOf(Bit(word, 31)), Bits(word, 0, 5))
    requires n == Imm(Bits(word, 15, 6))
    requires row == if FusedImmediate(word).None? then None else Some(Fused(FusedImmediate(word).value, [a, n, t]))
    ensures CmpbrImm(word, v) == Outcome(v, row)
  {
    FusedImmediateIs(word);
    FusedNamed(word);
    if FusedImmediate(word).Some? { Three(v, FusedImmediate(word).value, a, n, t, row); }
  }

  lemma FusedIsAt(word: bv32, v: Insn, f: Gate, a: Operand, b: Operand, n: Operand, t: Operand)
    requires word & 0x7e00_0000 == 0x7400_0000 && f(Feature.Cmpbr)
    requires t == LabelAt(v.ip, word, Imm9) == Near(v.ip, (word >> 5) & 0x1ff, 0x200)
    requires a == PlainReg(false, WidthOf(Bit(word, 31)), Bits(word, 0, 5)) == Rn(word & 0x8000_0000 != 0, word)
    requires b == PlainReg(false, WidthOf(Bit(word, 31)), Bits(word, 16, 5)) == Rn(word & 0x8000_0000 != 0, word >> 16)
    requires n == Imm(Bits(word, 15, 6)) == Imm((word >> 15) & 0x3f)
    ensures CmpbrOf(word, f, v) == Outcome(v, FusedRows(word, v.ip, f))
  {
    FusedGroups(word);
    if word & 0x7f00_0000 == 0x7400_0000 {
      FusedRegisterIs(word);
      FusedRegisterAt(word, v, a, b, t, FusedRows(word, v.ip, f));
    } else {
      FusedImmediateIs(word);
      FusedImmediateAt(word, v, a, n, t, FusedRows(word, v.ip, f));
    }
  }

  lemma FusedIs(word: bv32, f: Gate, v: Insn)
    requires word & 0x7e00_0000 == 0x7400_0000
    ensures CmpbrOf(word, f, v) == Outcome(v, FusedRows(word, v.ip, f))
  {
    if f(Feature.Cmpbr) {
      var a, b := WidthRegisters(word);
      LabelFields(word);
      var t := LabelOf(word, v.ip, Imm9, (word >> 5) & 0x1ff);
      var n := Immediate6(word);
      FusedIsAt(word, v, f, a, b, n, t);
    }
  }

  // The registers whose width word<31> gives, and a label.
  lemma WidthRegisters(word: bv32) returns (a: Operand, b: Operand)
    ensures a == PlainReg(false, WidthOf(Bit(word, 31)), Bits(word, 0, 5)) == Rn(word & 0x8000_0000 != 0, word)
    ensures b == PlainReg(false, WidthOf(Bit(word, 31)), Bits(word, 16, 5)) == Rn(word & 0x8000_0000 != 0, word >> 16)
  {
    Registers(word);
    Registers(word >> 16);
    LowFields(word);
    a, b := Rn(word & 0x8000_0000 != 0, word), Rn(word & 0x8000_0000 != 0, word >> 16);
  }

  lemma LabelOf(word: bv32, ip: U64, s: Span, field: bv32) returns (t: Operand)
    requires field == ImmBits(word, s)
    ensures t == LabelAt(ip, word, s) == Near(ip, field, 2 * Half(s))
  {
    LabelIs(word, ip, s);
    t := LabelAt(ip, word, s);
  }

  lemma Immediate6(word: bv32) returns (n: Operand)
    ensures n == Imm(Bits(word, 15, 6)) == Imm((word >> 15) & 0x3f)
  {
    assert Bits(word, 15, 6) == (word >> 15) & 0x3f;
    n := Imm((word >> 15) & 0x3f);
  }

  lemma FusedGroups(word: bv32)
    requires word & 0x7e00_0000 == 0x7400_0000
    ensures Bit(word, 24) == 0 <==> word & 0x7f00_0000 == 0x7400_0000
    ensures Bit(word, 24) != 0 <==> word & 0x7f00_0000 == 0x7500_0000
  {
  }
}
