/** What every word decodes to: the row that the encoding table has for it. */
module DecodedTable {
  import opened Wrappers
  import opened Ints
  import opened Features
  import opened Isa
  import opened Instructions
  import opened BranchSpec
  import opened EncodingTable
  import opened TableLaws
  import opened TableSystem
  import Apple
  import DecodeTree
  import RoundTrip

  // --- SYS and SYSL. ---

  lemma SysFieldsAre(word: bv32)
    requires word & 0xffd8_0000 == 0xd508_0000
    ensures var s := FieldsOf(word);
            && s.op0 == 1 && (s.read <==> word & 0x0020_0000 != 0) && s.op1 == (word >> 16) & 7
            && s.crn == (word >> 12) & 15 && s.crm == (word >> 8) & 15 && s.op2 == (word >> 5) & 7
            && s.rt == word & 31
  {
  }

  lemma RctxTable(word: bv32, s: SysFields, f: Gate, table: SysTable)
    requires word & 0xffd8_0000 == 0xd508_0000 && s == FieldsOf(word) && RctxAlias(s).Some?
    ensures SysRows(word, f, table) == Operates(RctxAlias(s).value, word)
  {
    SysFieldsAre(word);
  }

  lemma NoRctxRow(word: bv32, s: SysFields)
    requires word & 0xffd8_0000 == 0xd508_0000 && s == FieldsOf(word) && RctxAlias(s).None?
    ensures word & 0xffff_ffe0 != 0xd50b_7380 && word & 0xffff_ffe0 != 0xd50b_73a0
    ensures word & 0xffff_ffe0 != 0xd50b_73e0
  {
    SysFieldsAre(word);
  }

  lemma RctxShape(v: Insn, m: Mnemonic, x: Operand, row: Option<Row>)
    requires row == Some(Row(Code.Sys, m, [SysOp(Keyword.Rctx), x], Next, Feature.Base))
    ensures v.Set(Code.Sys).SetAlias(m).Push(SysOp(Keyword.Rctx)).Push(x) == Outcome(v, row)
  {
  }

  predicate GcsBare(c: Code, rt: bv32) {
    c.Gcspushx? || c.Gcspopcx? || c.Gcspopx? || (c.Gcspopm? && rt == 31)
  }

  lemma GcsTable(word: bv32, s: SysFields, x: Operand)
    requires word & 0xffd8_0000 == 0xd508_0000 && s == FieldsOf(word) && x == Xn(word)
    ensures var c := if GcsCode(s).Some? then GcsCode(s).value else Code.Invalid;
            Bears(GcsRows(word), c, if GcsBare(c, s.rt) then [] else [x])
  {
    SysFieldsAre(word);
  }

  lemma GcsNamed(s: SysFields)
    requires GcsCode(s).Some?
    ensures OwnNamed(GcsCode(s).value) && !GcsCode(s).value.Invalid?
  {
  }

  lemma GcsIs(word: bv32, s: SysFields, v: Insn, x: Operand)
    requires word & 0xffd8_0000 == 0xd508_0000 && s == FieldsOf(word) && GcsCode(s).Some?
    requires x == Xn(word) == XReg(false, s.rt)
    ensures GcsOf(s, GcsCode(s).value, v) == Outcome(v, GcsRows(word))
  {
    var c := GcsCode(s).value;
    GcsTable(word, s, x);
    GcsNamed(s);
    if GcsBare(c, s.rt) { Zero(v, c, GcsRows(word)); } else { One(v, c, x, GcsRows(word)); }
  }

  lemma AliasShape(s: SysFields, t: SysEntry, v: Insn, x: Operand, row: Option<Row>)
    requires x == XReg(false, s.rt)
    requires row == Some(Row(if s.read then Code.Sysl else Code.Sys, t.mnem, Spelt(t, x), Next, Feature.Base))
    ensures SysAlias(s, t, v) == Outcome(v, row)
  {
  }

  lemma Pushes(v: Insn, a: Operand, b: Operand, c: Operand, d: Operand)
    requires |v.ops| <= 1
    ensures v.Push(a).Push(b).Push(c).Push(d) == v.(ops := v.ops + [a, b, c, d])
  {
  }

  lemma NumberedIs(word: bv32, s: SysFields, v: Insn)
    requires |v.ops| <= 1 && s.op1 == (word >> 16) & 7 && s.crn == (word >> 12) & 15
    requires s.crm == (word >> 8) & 15 && s.op2 == (word >> 5) & 7
    ensures WithSysFields(s, v) == v.(ops := v.ops + Numbered(word))
  {
    Nibbles(word);
    Pushes(v, Imm(s.op1), SysOp(Keyword.Cr(s.crn)), SysOp(Keyword.Cr(s.crm)), Imm(s.op2));
  }

  lemma Nibbles(word: bv32)
    ensures ((word >> 12) & 15) & 15 == (word >> 12) & 15 && ((word >> 8) & 15) & 15 == (word >> 8) & 15
  {
  }

  lemma SyslShape(v: Insn, x: Operand, four: seq<Operand>, row: Option<Row>)
    requires row == Some(Plain(Code.Sysl, [x] + four, Feature.Base))
    ensures var w := v.Set(Code.Sysl).Push(x); w.(ops := w.ops + four) == Outcome(v, row) && |w.ops| == 1
  {
  }

  lemma SysShape(v: Insn, x: Operand, four: seq<Operand>, row: Option<Row>)
    requires |four| == 4 && row == Some(Plain(Code.Sys, four + [x], Feature.Base))
    ensures var w := v.Set(Code.Sys); w.(ops := w.ops + four).Push(x) == Outcome(v, row) && |w.ops| == 0
  {
  }

  lemma CanonicalIs(word: bv32, s: SysFields, v: Insn, x: Operand, row: Option<Row>)
    requires word & 0xffd8_0000 == 0xd508_0000 && s == FieldsOf(word) && x == XReg(false, s.rt)
    requires row == Some(if s.read then Plain(Code.Sysl, [x] + Numbered(word), Feature.Base)
                         else Plain(Code.Sys, Numbered(word) + [x], Feature.Base))
    ensures SysCanonical(s, v) == Outcome(v, row)
  {
    SysFieldsAre(word);
    if s.read {
      SyslShape(v, x, Numbered(word), row);
      NumberedIs(word, s, v.Set(Code.Sysl).Push(x));
    } else {
      SysShape(v, x, Numbered(word), row);
      NumberedIs(word, s, v.Set(Code.Sys));
    }
  }

  lemma SelectedIs(word: bv32, s: SysFields, table: SysTable)
    requires word & 0xffd8_0000 == 0xd508_0000 && s == FieldsOf(word)
    ensures Selected(word, table) == table(s.read, s.op1, s.crn, s.crm, s.op2)
  {
    SysFieldsAre(word);
  }

  // The rows past the RCTX operations.
  lemma LaterRows(word: bv32, s: SysFields, f: Gate, table: SysTable)
    requires word & 0xffd8_0000 == 0xd508_0000 && s == FieldsOf(word) && RctxAlias(s).None?
    ensures SysRows(word, f, table) ==
            if f(Feature.Gcs) && GcsRows(word).Some? then GcsRows(word)
            else if Selected(word, table).Some? then
              Some(Row(if s.read then Code.Sysl else Code.Sys, Selected(word, table).value.mnem,
                       Spelt(Selected(word, table).value, Xn(word)), Next, Feature.Base))
            else Some(if s.read then Plain(Code.Sysl, [Xn(word)] + Numbered(word), Feature.Base)
                      else Plain(Code.Sys, Numbered(word) + [Xn(word)], Feature.Base))
  {
    NoRctxRow(word, s);
    SysFieldsAre(word);
  }

  lemma TableIs(word: bv32, s: SysFields, f: Gate, table: SysTable, v: Insn, x: Operand)
    requires word & 0xffd8_0000 == 0xd508_0000 && s == FieldsOf(word) && RctxAlias(s).None?
    requires !(GcsCode(s).Some? && f(Feature.Gcs)) && x == Xn(word) == XReg(false, s.rt)
    ensures SysOf(s, f, table, v) == Outcome(v, SysRows(word, f, table))
  {
    LaterRows(word, s, f, table);
    GcsTable(word, s, x);
    SelectedIs(word, s, table);
    RoundTrip.SysTableIs(s, f, table, v);
    if Selected(word, table).Some? {
      AliasShape(s, Selected(word, table).value, v, x, SysRows(word, f, table));
    } else {
      CanonicalIs(word, s, v, x, SysRows(word, f, table));
    }
  }

  lemma SysIs(word: bv32, f: Gate, table: SysTable, v: Insn)
    requires word & 0xffd8_0000 == 0xd508_0000
    ensures SysOf(FieldsOf(word), f, table, v) == Outcome(v, SysRows(word, f, table))
  {
    var s, x := FieldsOf(word), Xn(word);
    LowRegisters(word);
    if RctxAlias(s).Some? {
      RctxTable(word, s, f, table);
      RctxShape(v, RctxAlias(s).value, x, SysRows(word, f, table));
    } else if GcsCode(s).Some? && f(Feature.Gcs) {
      LaterRows(word, s, f, table);
      GcsNamed(s);
      GcsTable(word, s, x);
      GcsIs(word, s, v, x);
    } else {
      TableIs(word, s, f, table, v, x);
    }
  }

  // --- Pairs of registers. ---

  lemma PairFields(word: bv32)
    requires word & 0xffc0_0000 == 0xd540_0000
    ensures var s := FieldsOf(word);
            && (word & 0xfff8_0000 == 0xd548_0000 <==> !s.read && s.op0 == 1)
            && (word & 0xffe0_0001 == 0xd560_0000 <==> s.read && s.rt & 1 == 0)
            && (word & 0xffe0_0001 == 0xd540_0000 <==> !s.read && s.rt & 1 == 0)
            && s.op1 == (word >> 16) & 7 && s.crn == (word >> 12) & 15 && s.crm == (word >> 8) & 15
            && s.op2 == (word >> 5) & 7 && s.rt == word & 31 && (s.read <==> word & 0x0020_0000 != 0)
  {
  }

  lemma PairIs(word: bv32)
    ensures RegPairOf(word & 31) == Pair(word)
  {
    assert (word & 31) & 31 == word & 31 && ((word & 31) + 1) & 31 == (word + 1) & 31;
  }

  lemma PairMoveShape(v: Insn, read: bool, p: Operand, sr: Operand, row: Option<Row>)
    requires row == Some(if read then Plain(Code.Mrrs, [p, sr], Feature.D128)
                         else Plain(Code.Msrr, [sr, p], Feature.D128))
    ensures Outcome(v, row) == if read then v.Set(Code.Mrrs).Push(p).Push(sr) else v.Set(Code.Msrr).Push(sr).Push(p)
  {
  }

  lemma PairMoveRows(word: bv32, s: SysFields, f: Gate, table: SysTable)
    requires word & 0xffc0_0000 == 0xd540_0000 && s == FieldsOf(word) && (s.read || s.op0 != 1) && f(Feature.D128)
    ensures PairRows(word, f, table) ==
            if s.rt & 1 != 0 then None
            else Some(if s.read then Plain(Code.Mrrs, [Pair(word), SysRegister(word)], Feature.D128)
                      else Plain(Code.Msrr, [SysRegister(word), Pair(word)], Feature.D128))
  {
    PairFields(word);
  }

  lemma PairMoveIs(word: bv32, s: SysFields, f: Gate, table: SysTable, v: Insn)
    requires word & 0xffc0_0000 == 0xd540_0000 && s == FieldsOf(word) && (s.read || s.op0 != 1) && f(Feature.D128)
    ensures PairMove(s, v) == Outcome(v, PairRows(word, f, table))
  {
    PairMoveRows(word, s, f, table);
    PairFields(word);
    PairIs(word);
    SelectorIs(word);
    if s.rt & 1 == 0 { PairMoveShape(v, s.read, Pair(word), SysRegister(word), PairRows(word, f, table)); }
  }

  lemma TlbipShape(v: Insn, a: Operand, b: Operand, row: Option<Row>)
    requires row == Some(Row(Code.Sysp, Mnemonic.Tlbip, [a, b], Next, Feature.D128))
    ensures v.Set(Code.Sysp).SetAlias(Mnemonic.Tlbip).Push(a).Push(b) == Outcome(v, row)
  {
  }

  lemma TlbipIs(word: bv32, s: SysFields, t: SysEntry, v: Insn, row: Option<Row>)
    requires s.rt == word & 31
    requires row == Some(Row(Code.Sysp, Mnemonic.Tlbip,
                             [if t.name.Some? then SysOp(t.name.value) else NoOperand,
                              if s.rt == 31 then RegPair(Xzr, Xzr) else Pair(word)], Next, Feature.D128))
    ensures TlbipOf(s, t, v) == Outcome(v, row)
  {
    PairIs(word);
    TlbipShape(v, if t.name.Some? then SysOp(t.name.value) else NoOperand,
               if s.rt == 31 then RegPair(Xzr, Xzr) else Pair(word), row);
  }

  lemma SyspShape(v: Insn, four: seq<Operand>, p: Operand, row: Option<Row>, bare: Option<Row>)
    requires |four| == 4 && row == Some(Plain(Code.Sysp, four + [p], Feature.D128))
    requires bare == Some(Plain(Code.Sysp, four, Feature.D128))
    ensures var w := v.Set(Code.Sysp); w.(ops := w.ops + four).Push(p) == Outcome(v, row) && |w.ops| == 0
    ensures var w := v.Set(Code.Sysp); w.(ops := w.ops + four) == Outcome(v, bare)
  {
  }

  lemma SyspFieldsIs(word: bv32, s: SysFields, v: Insn, p: Operand, row: Option<Row>)
    requires s.op1 == (word >> 16) & 7 && s.crn == (word >> 12) & 15
    requires s.crm == (word >> 8) & 15 && s.op2 == (word >> 5) & 7
    requires row == Some(Plain(Code.Sysp, if s.rt == 31 then Numbered(word) else Numbered(word) + [p], Feature.D128))
    ensures var b := WithSysFields(s, v.Set(Code.Sysp)); (if s.rt == 31 then b else b.Push(p)) == Outcome(v, row)
  {
    var four := Numbered(word);
    SyspShape(v, four, p, Some(Plain(Code.Sysp, four + [p], Feature.D128)), Some(Plain(Code.Sysp, four, Feature.D128)));
    NumberedIs(word, s, v.Set(Code.Sysp));
  }

  predicate IsTlbi(e: Option<SysEntry>) { e.Some? && e.value.mnem == Mnemonic.Tlbi }

  lemma SyspRowsAre(word: bv32, s: SysFields, table: SysTable)
    requires word & 0xfff8_0000 == 0xd548_0000 && s == FieldsOf(word)
    ensures Selected(word, table) == table(false, s.op1, s.crn, s.crm, s.op2)
    ensures SyspRows(word, table) ==
            if s.rt & 1 != 0 && s.rt != 31 then None
            else if IsTlbi(Selected(word, table)) then
              Some(Row(Code.Sysp, Mnemonic.Tlbip,
                       [if Selected(word, table).value.name.Some? then SysOp(Selected(word, table).value.name.value)
                        else NoOperand,
                        if s.rt == 31 then RegPair(Xzr, Xzr) else Pair(word)], Next, Feature.D128))
            else Some(Plain(Code.Sysp, if s.rt == 31 then Numbered(word) else Numbered(word) + [Pair(word)],
                            Feature.D128))
  {
    PairFields(word);
    LowBit(word);
  }

  lemma LowBit(word: bv32)
    ensures word & 1 == 1 <==> (word & 31) & 1 != 0
  {
  }

  lemma SyspTree(s: SysFields, e: Option<SysEntry>, table: SysTable, v: Insn, p: Operand)
    requires e == table(false, s.op1, s.crn, s.crm, s.op2) && p == RegPairOf(s.rt)
    ensures s.rt & 1 != 0 && s.rt != 31 ==> SyspOf(s, table, v) == v
    ensures !(s.rt & 1 != 0 && s.rt != 31) && IsTlbi(e) ==> SyspOf(s, table, v) == TlbipOf(s, e.value, v)
    ensures !(s.rt & 1 != 0 && s.rt != 31) && !IsTlbi(e) ==>
              var b := WithSysFields(s, v.Set(Code.Sysp)); SyspOf(s, table, v) == if s.rt == 31 then b else b.Push(p)
  {
  }

  lemma SyspIs(word: bv32, s: SysFields, table: SysTable, v: Insn)
    requires word & 0xfff8_0000 == 0xd548_0000 && s == FieldsOf(word)
    ensures SyspOf(s, table, v) == Outcome(v, SyspRows(word, table))
  {
    var e, row := Selected(word, table), SyspRows(word, table);
    PairFields(word);
    PairIs(word);
    SyspRowsAre(word, s, table);
    SyspTree(s, e, table, v, Pair(word));
    if s.rt & 1 != 0 && s.rt != 31 {
    } else if IsTlbi(e) {
      TlbipIs(word, s, e.value, v, row);
    } else {
      SyspFieldsIs(word, s, v, Pair(word), row);
    }
  }

  lemma PairBlockIs(word: bv32, f: Gate, table: SysTable, v: Insn)
    requires word & 0xffc0_0000 == 0xd540_0000
    ensures SystemPair(word, f, table, v) == Outcome(v, PairRows(word, f, table))
  {
    var s := FieldsOf(word);
    PairFields(word);
    if f(Feature.D128) {
      if !s.read && s.op0 == 1 {
        SyspIs(word, s, table, v);
      } else {
        PairMoveIs(word, s, f, table, v);
      }
    }
  }

  // --- Reserved words. ---

  function AmxCodeOf(op: bv32, n: bv32): Code {
    if op == 17 then
      if n == 0 then Code.AppleCode(AmxSet) else if n == 1 then Code.AppleCode(AmxClr) else Code.Invalid
    else if Apple.AmxCode(op).Some? then Code.AppleCode(Apple.AmxCode(op).value)
    else Code.Invalid
  }

  lemma AmxOperationIs(word: bv32, op: bv32)
    requires word & 0xffff_fc00 == 0x0020_1000 && op == (word >> 5) & 31
    ensures AmxOperation(word) == Apple.AmxCode(op)
  {
    assert word & 0xffff_ffe0 == 0x0020_1000 | (op << 5);
  }

  lemma AmxState(word: bv32, op: bv32)
    requires word & 0xffff_fc00 == 0x0020_1000 && op == (word >> 5) & 31
    ensures word == 0x0020_1220 <==> op == 17 && word & 31 == 0
    ensures word == 0x0020_1221 <==> op == 17 && word & 31 == 1
  {
  }

  lemma AmxTable(word: bv32, op: bv32, n: bv32, x: Operand)
    requires word & 0xffff_fc00 == 0x0020_1000 && op == (word >> 5) & 31 && n == word & 31 && x == Xn(word)
    ensures Bears(AmxRows(word), AmxCodeOf(op, n), if op == 17 then [] else [x])
  {
    AmxOperationIs(word, op);
    AmxState(word, op);
    if op == 17 { assert Apple.AmxCode(op) == None; }
  }

  lemma AmxTree(op: bv32, n: bv32, v: Insn, x: Operand, c: Code)
    requires c == AmxCodeOf(op, n) && x == XReg(false, n)
    ensures Apple.AmxOf(op, n, v) == if c.Invalid? then v else if op == 17 then v.Set(c) else v.Set(c).Push(x)
    ensures OwnNamed(c)
  {
  }

  lemma AmxIs(word: bv32, v: Insn)
    requires word & 0xffff_fc00 == 0x0020_1000
    ensures Apple.AmxOf((word >> 5) & 31, word & 31, v) == Outcome(v, AmxRows(word))
  {
    var op, n, x := (word >> 5) & 31, word & 31, Xn(word);
    var c := AmxCodeOf(op, n);
    Registers(word);
    AmxTable(word, op, n, x);
    AmxTree(op, n, v, x, c);
    if op == 17 { Zero(v, c, AmxRows(word)); } else { One(v, c, x, AmxRows(word)); }
  }

  lemma GxfTable(word: bv32, sub: bv32, n: bv32, f: Gate, x: Operand)
    requires word & 0xffff_fc00 == 0x0020_1400 && sub == (word >> 5) & 31 && n == word & 31 && x == Imm(n)
    ensures Bears(ReservedRows(word, f), GxfCode(sub, n, f), if sub == 0 then [] else [x])
  {
    NoAmxRow(word);
  }

  lemma NoAmxRow(word: bv32)
    requires word & 0xffff_fc00 != 0x0020_1000
    ensures AmxRows(word) == None
  {
  }

  function GxfCode(sub: bv32, n: bv32, f: Gate): Code {
    if !f(Feature.Gxf) then Code.Invalid
    else if sub == 0 && n == 0 then Code.AppleCode(Gexit)
    else if sub == 1 then Code.AppleCode(Genter)
    else Code.Invalid
  }

  lemma GxfTree(word: bv32, sub: bv32, n: bv32, f: Gate, v: Insn, x: Operand, c: Code)
    requires word & 0xffff_fc00 == 0x0020_1400 && sub == (word >> 5) & 31 && n == word & 31 && x == Imm(n)
    requires c == GxfCode(sub, n, f)
    ensures Apple.AppleOf(word, f, v) == if c.Invalid? then v else if sub == 0 then v.Set(c) else v.Set(c).Push(x)
    ensures OwnNamed(c)
  {
  }

  lemma GxfIs(word: bv32, f: Gate, v: Insn)
    requires word & 0xffff_fc00 == 0x0020_1400
    ensures Apple.AppleOf(word, f, v) == Outcome(v, ReservedRows(word, f))
  {
    var sub, n, row := (word >> 5) & 31, word & 31, ReservedRows(word, f);
    GxfTable(word, sub, n, f, Imm(n));
    GxfTree(word, sub, n, f, v, Imm(n), GxfCode(sub, n, f));
    if sub == 0 { Zero(v, GxfCode(sub, n, f), row); } else { One(v, GxfCode(sub, n, f), Imm(n), row); }
  }

  lemma AmxReserved(word: bv32, f: Gate)
    requires word & 0xffff_fc00 == 0x0020_1000
    ensures ReservedRows(word, f) == if f(Feature.AppleAmx) then AmxRows(word) else None
  {
  }

  lemma AppleIs(word: bv32, f: Gate, v: Insn)
    requires word & 0xffff_f800 == 0x0020_1000
    ensures Apple.AppleOf(word, f, v) == Outcome(v, ReservedRows(word, f))
  {
    if word & 0xffff_fc00 == 0x0020_1000 {
      AmxReserved(word, f);
      AmxIs(word, v);
    } else {
      GxfIs(word, f, v);
    }
  }

  lemma ReservedTree(word: bv32, f: FeatureSet, others: DecodeTree.Others, v: Insn)
    requires word >> 16 == 0 || word >> 31 == 0
    ensures DecodeTree.Reserved(word, f, others, v) ==
            if word >> 16 == 0 then DecodeTree.UdfOf(word, v)
            else if word & 0xffff_f800 == 0x0020_1000 then Apple.AppleOf(word, f.Has, v)
            else v
  {
  }

  lemma UdfIs(word: bv32, f: Gate, v: Insn, row: Option<Row>)
    requires word >> 16 == 0 && row == ReservedRows(word, f)
    ensures DecodeTree.UdfOf(word, v) == Outcome(v, row)
  {
    UdfRow(word, f);
    One(v, Code.Udf, Imm(word), row);
  }

  lemma UdfRow(word: bv32, f: Gate)
    requires word >> 16 == 0
    ensures ReservedRows(word, f) == Some(Plain(Code.Udf, [Imm(word)], Feature.Base)) && word & 0xffff == word
  {
  }

  lemma ReservedIs(word: bv32, f: FeatureSet, others: DecodeTree.Others, v: Insn, row: Option<Row>)
    requires (word >> 16 == 0 || word >> 31 == 0) && row == ReservedRows(word, f.Has)
    ensures DecodeTree.Reserved(word, f, others, v) == Outcome(v, row)
  {
    ReservedTree(word, f, others, v);
    if word >> 16 == 0 {
      UdfIs(word, f.Has, v, row);
    } else if word & 0xffff_f800 == 0x0020_1000 {
      AppleIs(word, f.Has, v);
    } else {
      NoReservedRow(word, f.Has);
    }
  }

  lemma NoReservedRow(word: bv32, f: Gate)
    requires word >> 16 != 0 && word & 0xffff_f800 != 0x0020_1000
    ensures ReservedRows(word, f) == None
  {
    NoAmxRow(word);
  }

  // --- Every word. ---

  lemma SystemIs(word: bv32, f: Gate, table: SysTable, v: Insn)
    requires word & 0xffc0_0000 == 0xd500_0000
    ensures System(word, f, table, v) == Outcome(v, Rows(word, v.ip, f, table))
  {
    var s := FieldsOf(word);
    if word & 0xffd8_0000 == 0xd500_0000 {
      Op0Is(word, f, v);
    } else if word & 0xffd8_0000 == 0xd508_0000 {
      SysIs(word, f, table, v);
    } else {
      MoveIs(word, v);
    }
  }

  lemma BlockRows(word: bv32, ip: U64, f: Gate, table: SysTable)
    ensures word & 0xff00_0000 == 0xd400_0000 ==> Rows(word, ip, f, table) == ExceptionRows(word, f)
    ensures word & 0xffc0_0000 == 0xd540_0000 ==> Rows(word, ip, f, table) == PairRows(word, f, table)
    ensures word & 0xffc0_0000 == 0xd580_0000 ==> Rows(word, ip, f, table) == TchangeRows(word, f)
  {
  }

  lemma RegisterBlockRows(word: bv32, ip: U64, f: Gate, table: SysTable)
    requires word & 0xfe00_0000 == 0xd600_0000
    ensures Rows(word, ip, f, table) == RegisterRows(word, f)
  {
  }

  lemma LabelRows(word: bv32, ip: U64, f: Gate, table: SysTable)
    ensures word & 0xfe00_0000 == 0x5400_0000 ==> Rows(word, ip, f, table) == ConditionalRows(word, ip, f)
    ensures word & 0x7e00_0000 == 0x7400_0000 ==> Rows(word, ip, f, table) == FusedRows(word, ip, f)
    ensures word & 0x7c00_0000 == 0x1400_0000 ==> Rows(word, ip, f, table) == JumpRows(word, ip)
  {
  }

  lemma CompareBlockRows(word: bv32, ip: U64, f: Gate, table: SysTable)
    ensures word & 0x7e00_0000 == 0x3400_0000 ==> Rows(word, ip, f, table) == CompareRows(word, ip)
    ensures word & 0x7e00_0000 == 0x3600_0000 ==> Rows(word, ip, f, table) == TestRows(word, ip)
  {
  }

  lemma LabelBits(word: bv32)
    ensures ClassOf(word).CondBlock? ==> word & 0xfe00_0000 == 0x5400_0000
    ensures ClassOf(word).CmpbrBlock? ==> word & 0x7e00_0000 == 0x7400_0000
  {
  }

  lemma OutsideRows(word: bv32, ip: U64, f: Gate, table: SysTable)
    requires ClassOf(word).Outside?
    ensures Rows(word, ip, f, table) == ReservedRows(word, f)
  {
  }

  lemma BlockIs(c: BranchSpec.Class, word: bv32, f: Gate, table: SysTable, v: Insn)
    requires c == ClassOf(word) && (c.SystemBlock? || c.PairBlock? || c.Exceptions? || c.TchangeBlock?)
    ensures BranchIn(c, word, f, table, v) == Outcome(v, Rows(word, v.ip, f, table))
  {
    RoundTrip.ClassBits(word);
    BlockRows(word, v.ip, f, table);
    if c.SystemBlock? {
      SystemIs(word, f, table, v);
    } else if c.PairBlock? {
      PairBlockIs(word, f, table, v);
    } else if c.Exceptions? {
      ExceptionIs(word, f, v);
    } else {
      TchangeIs(word, f, v);
    }
  }

  lemma JumpClassIs(c: BranchSpec.Class, word: bv32, f: Gate, table: SysTable, v: Insn)
    requires c == ClassOf(word) && !(c.SystemBlock? || c.PairBlock? || c.Exceptions? || c.TchangeBlock? || c.Outside?)
    ensures Jump(c, word, f, v) == Outcome(v, Rows(word, v.ip, f, table))
  {
    RoundTrip.ClassBits(word);
    LabelBits(word);
    LabelRows(word, v.ip, f, table);
    CompareBlockRows(word, v.ip, f, table);
    LowRegisters(word);
    if c.RegBranch? {
      RegisterBlockRows(word, v.ip, f, table);
      RegisterIs(word, f, v, Xn(word >> 5), XnSp(word), Xn(word));
    } else if c.CondBlock? {
      ConditionalIs(word, f, v);
    } else if c.CompareBlock? {
      CompareIs(word, v);
    } else if c.TestBlock? {
      TestIs(word, v);
    } else if c.CmpbrBlock? {
      FusedIs(word, f, v);
    } else {
      JumpIs(word, v);
    }
  }

  lemma NothingOutside(word: bv32, f: Gate)
    requires DecodeTree.Op0Of(word) == 10 || DecodeTree.Op0Of(word) == 11
    ensures ReservedRows(word, f) == None
  {
    assert word >> 16 != 0 && word & 0xffff_f800 != 0x0020_1000;
    NoReservedRow(word, f);
  }

  // The branch and system group decodes a word to its row.
  lemma BranchIs(word: bv32, f: Gate, table: SysTable, v: Insn)
    requires DecodeTree.Op0Of(word) == 10 || DecodeTree.Op0Of(word) == 11
    ensures Branch(word, f, table, v) == Outcome(v, Rows(word, v.ip, f, table))
  {
    var c := ClassOf(word);
    if c.SystemBlock? || c.PairBlock? || c.Exceptions? || c.TchangeBlock? {
      BlockIs(c, word, f, table, v);
    } else if c.Outside? {
      OutsideRows(word, v.ip, f, table);
      NothingOutside(word, f);
    } else {
      JumpClassIs(c, word, f, table, v);
    }
  }

  // CBZ and CBNZ are told apart by word<24>, whatever the width.
  lemma CompareNames(word: bv32, f: Gate, table: SysTable, v: Insn)
    requires word & 0x7e00_0000 == 0x3400_0000
    ensures Branch(word, f, table, v).mnemonic == if word & 0x0100_0000 == 0 then Mnemonic.Cbz else Mnemonic.Cbnz
  {
    BranchIs(word, f, table, v);
    CompareBlockRows(word, v.ip, f, table);
  }

  // So does the decoder, for every word of the groups decoded here.
  lemma DecoderIsTable(word: bv32, ip: U64, f: FeatureSet, table: SysTable, others: DecodeTree.Others)
    requires DecodeTree.Modelled(word)
    ensures DecodeTree.DecodeWord(word, ip, f, table, others)
            == Outcome(NewInvalid(word, ip), Rows(word, ip, f.Has, table))
  {
    var v := NewInvalid(word, ip);
    if DecodeTree.Op0Of(word) == 0 {
      ReservedIs(word, f, others, v, ReservedRows(word, f.Has));
      OutsideOf0(word);
      OutsideRows(word, ip, f.Has, table);
    } else {
      BranchIs(word, f.Has, table, v);
    }
  }

  // Every other word goes to the decoder of its group, by word<28:25>; two of the sixteen
  // values have none.
  lemma OtherGroups(word: bv32, ip: U64, f: FeatureSet, table: SysTable, others: DecodeTree.Others)
    ensures var d := DecodeTree.DecodeWord(word, ip, f, table, others);
            && (word & 0x1e00_0000 == 0x0200_0000 || word & 0x1e00_0000 == 0x0600_0000 ==> d == NewInvalid(word, ip))
            && (word & 0x1e00_0000 == 0x0400_0000 ==> d == others(DecodeTree.Group.Sve, word, ip, f))
            && (word & 0x1c00_0000 == 0x1000_0000 ==> d == others(DecodeTree.Group.DataProcessingImm, word, ip, f))
            && (word & 0x0a00_0000 == 0x0800_0000 ==> d == others(DecodeTree.Group.LoadsStores, word, ip, f))
            && (word & 0x0e00_0000 == 0x0a00_0000 ==> d == others(DecodeTree.Group.DataProcessingReg, word, ip, f))
            && (word & 0x0e00_0000 == 0x0e00_0000 ==> d == others(DecodeTree.Group.SimdFp, word, ip, f))
            && (word & 0x9e00_0000 == 0x8000_0000 ==> d == others(DecodeTree.Group.Sme, word, ip, f))
  {
    Op0Parts(word);
  }

  lemma Op0Parts(word: bv32)
    ensures var op0 := DecodeTree.Op0Of(word);
            && (word & 0x1e00_0000 == 0x0200_0000 <==> op0 == 1) && (word & 0x1e00_0000 == 0x0600_0000 <==> op0 == 3)
            && (word & 0x1e00_0000 == 0x0400_0000 <==> op0 == 2) && (word & 0x1e00_0000 == 0 <==> op0 == 0)
            && (word & 0x1c00_0000 == 0x1000_0000 <==> op0 == 8 || op0 == 9)
            && (word & 0x0a00_0000 == 0x0800_0000 <==> op0 == 4 || op0 == 6 || op0 == 12 || op0 == 14)
            && (word & 0x0e00_0000 == 0x0a00_0000 <==> op0 == 5 || op0 == 13)
            && (word & 0x0e00_0000 == 0x0e00_0000 <==> op0 == 7 || op0 == 15)
  {
  }

  lemma OutsideOf0(word: bv32)
    requires DecodeTree.Op0Of(word) == 0
    ensures ClassOf(word).Outside?
  {
  }
}
