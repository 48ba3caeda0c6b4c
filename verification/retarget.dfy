/** Direct branches: where they reach, and what retargeting one means. Setting a new
    target and encoding succeeds exactly within reach, and the word it gives decodes
    to the edited instruction. */
module Retarget {
  import opened Wrappers
  import opened Ints
  import opened Fields
  import opened Isa
  import opened Instructions
  import opened EditHistory
  import opened Encoding
  import opened BranchSpec
  import opened BranchEncode
  import opened BranchLaws
  import opened RoundTrip
  import Relocation

  // --- Replacing the immediate field of a word. ---

  function With26(word: bv32, x: bv32): bv32 { (word & 0xfc00_0000) | (x & 0x03ff_ffff) }
  function With19(word: bv32, x: bv32): bv32 { (word & 0xff00_001f) | ((x & 0x7_ffff) << 5) }
  function With14(word: bv32, x: bv32): bv32 { (word & 0xfff8_001f) | ((x & 0x3fff) << 5) }
  function With9(word: bv32, x: bv32): bv32 { (word & 0xffff_c01f) | ((x & 0x1ff) << 5) }

  lemma Field26Keeps(word: bv32, x: bv32)
    ensures var w := With26(word, x); Bit(w, 31) == Bit(word, 31) && w & 0xfc00_0000 == word & 0xfc00_0000
  {
  }

  lemma Field19Reads(word: bv32, x: bv32)
    ensures var w := With19(word, x); Bits(w, 5, 19) == x & 0x7_ffff
  {
  }

  lemma Field19Keeps(word: bv32, x: bv32)
    ensures var w := With19(word, x);
            Bits(w, 0, 4) == Bits(word, 0, 4) && Bits(w, 0, 5) == Bits(word, 0, 5) && Bit(w, 4) == Bit(word, 4)
  {
  }

  lemma Field19KeepsBits(word: bv32, x: bv32)
    ensures var w := With19(word, x); Bit(w, 24) == Bit(word, 24) && Bit(w, 31) == Bit(word, 31)
  {
  }

  lemma Field14KeepsTop(word: bv32, x: bv32)
    ensures With14(word, x) & 0xff00_0000 == word & 0xff00_0000
  {
  }

  lemma Field9Keeps(word: bv32, x: bv32)
    ensures var w := With9(word, x);
            Bits(w, 0, 5) == Bits(word, 0, 5) && Bit(w, 14) == Bit(word, 14) && Bits(w, 14, 2) == Bits(word, 14, 2)
  {
  }

  lemma Field9KeepsHigh(word: bv32, x: bv32)
    ensures var w := With9(word, x);
            && Bits(w, 21, 3) == Bits(word, 21, 3) && Bits(w, 16, 5) == Bits(word, 16, 5)
            && Bits(w, 15, 6) == Bits(word, 15, 6)
  {
  }

  lemma Field9KeepsBits(word: bv32, x: bv32)
    ensures var w := With9(word, x); Bit(w, 24) == Bit(word, 24) && Bit(w, 31) == Bit(word, 31)
  {
  }

  lemma Field9KeepsTop(word: bv32, x: bv32)
    ensures With9(word, x) & 0xff00_0000 == word & 0xff00_0000
  {
  }

  predicate Fits(x: bv32, s: Span) {
    match s
    case Imm26 => x & 0x03ff_ffff == x
    case Imm19 => x & 0x7_ffff == x
    case Imm14 => x & 0x3fff == x
    case Imm9 => x & 0x1ff == x
  }

  // The word of a field value.
  lemma FieldWord(k: nat, s: Span) returns (x: bv32)
    requires k < 2 * Half(s)
    ensures x as int == k && Low32(k) == x && Fits(x, s)
  {
    x := WordOf(k);
    FitsBelow(x, k, s);
  }

  lemma FitsBelow(x: bv32, k: nat, s: Span)
    requires x as int == k && k < 2 * Half(s)
    ensures Fits(x, s)
  {
    if s.Imm26? {
      Fits26(x);
    } else if s.Imm19? {
      Fits19(x);
    } else if s.Imm14? {
      Fits14(x);
    } else {
      Fits9(x);
    }
  }

  lemma Fits26(x: bv32)
    requires x as int < 0x400_0000
    ensures x & 0x03ff_ffff == x
  {
    assert x <= 0x03ff_ffff;
  }

  lemma Fits19(x: bv32)
    requires x as int < 0x8_0000
    ensures x & 0x7_ffff == x
  {
    assert x <= 0x7_ffff;
  }

  lemma Fits14(x: bv32)
    requires x as int < 0x4000
    ensures x & 0x3fff == x
  {
    assert x <= 0x3fff;
  }

  lemma Fits9(x: bv32)
    requires x as int < 0x200
    ensures x & 0x1ff == x
  {
    assert x <= 0x1ff;
  }

  // --- The classes of direct branches. ---

  // The span of the immediate of a direct branch.
  function SpanOf(word: bv32): Option<Span> {
    match ClassOf(word)
    case CondBlock => if Bit(word, 24) == 0 then Some(Imm19) else None
    case CompareBlock => Some(Imm19)
    case TestBlock => Some(Imm14)
    case CmpbrBlock => Some(Imm9)
    case ImmBranch => Some(Imm26)
    case _ => None
  }

  // The decoded instruction, with another label.
  function Relabelled(d: Insn, t: U64): Insn {
    if d.ops == [] then d else d.(ops := d.ops[|d.ops| - 1 := Label(t)])
  }

  lemma ClassKept(word: bv32, w: bv32)
    requires w & 0xff00_0000 == word & 0xff00_0000
    requires ClassOf(word).CondBlock? || ClassOf(word).CompareBlock? || ClassOf(word).TestBlock?
             || ClassOf(word).CmpbrBlock?
    ensures ClassOf(w) == ClassOf(word)
  {
  }

  lemma ClassKept26(word: bv32, w: bv32)
    requires w & 0xfc00_0000 == word & 0xfc00_0000 && ClassOf(word).ImmBranch?
    ensures ClassOf(w).ImmBranch?
  {
  }

  // A word whose field is x has the label x resolves to.
  lemma LabelIs(w: bv32, ip: U64, s: Span, k: nat, t: U64)
    requires k < 2 * Half(s) && ImmBits(w, s) as int == k && Target(ip, k, s) == t
    ensures LabelAt(ip, w, s) == Label(t)
  {
    FieldNumber(w, s);
  }

  lemma PushRelabelled(v: Insn, a: Operand, b: Operand, t: U64)
    requires |v.ops| < MAX_OPERANDS && b == Label(t)
    ensures v.Push(b) == Relabelled(v.Push(a), t)
  {
  }

  lemma CondRelabels(word: bv32, x: bv32, k: nat, t: U64, f: Gate, v: Insn)
    requires Bit(word, 24) == 0 && v.ops == []
    requires k < 2 * Half(Imm19) && x as int == k && Fits(x, Imm19) && Target(v.ip, k, Imm19) == t
    ensures CondBranch(With19(word, x), f, v) == Relabelled(CondBranch(word, f, v), t)
  {
    var w := With19(word, x);
    Field19Reads(word, x);
    Field19Keeps(word, x);
    Field19KeepsBits(word, x);
    LabelIs(w, v.ip, Imm19, k, t);
    CondTargetRelabels(word, w, if Bit(word, 4) == 0 then Code.BCond else Code.BcCond, t, v);
  }

  lemma CondTargetRelabels(word: bv32, w: bv32, c: Code, t: U64, v: Insn)
    requires Bits(w, 0, 4) == Bits(word, 0, 4) && LabelAt(v.ip, w, Imm19) == Label(t)
    ensures CondTarget(w, v.Set(c)) == Relabelled(CondTarget(word, v.Set(c)), t)
  {
    var cond := Operand.Cond(ConditionFromU4(Bits(word, 0, 4)));
    PushRelabelled(v.Set(c).Push(cond), LabelAt(v.ip, word, Imm19), Label(t), t);
  }

  lemma CompareRelabels(word: bv32, x: bv32, k: nat, t: U64, v: Insn)
    requires k < 2 * Half(Imm19) && x as int == k && Fits(x, Imm19) && Target(v.ip, k, Imm19) == t
    ensures CompareBranch(With19(word, x), v) == Relabelled(CompareBranch(word, v), t)
  {
    var w := With19(word, x);
    Field19Reads(word, x);
    Field19Keeps(word, x);
    Field19KeepsBits(word, x);
    LabelIs(w, v.ip, Imm19, k, t);
    var base := v.Set(CompareBranchCode(Bit(word, 24), Bit(word, 31)))
                 .Push(PlainReg(false, WidthOf(Bit(word, 31)), Bits(word, 0, 5)));
    PushRelabelled(base, LabelAt(v.ip, word, Imm19), Label(t), t);
  }

  lemma TestRelabels(word: bv32, x: bv32, k: nat, t: U64, v: Insn)
    requires k < 2 * Half(Imm14) && x as int == k && Fits(x, Imm14) && Target(v.ip, k, Imm14) == t
    ensures TestBranch(With14(word, x), v) == Relabelled(TestBranch(word, v), t)
  {
    var w := With14(word, x);
    LabelIs(w, v.ip, Imm14, k, t);
    TestPartsRelabel(word, w, t, v);
  }

  lemma TestPartsRelabel(word: bv32, w: bv32, t: U64, v: Insn)
    requires Bits(w, 0, 5) == Bits(word, 0, 5) && Bits(w, 19, 5) == Bits(word, 19, 5)
    requires Bit(w, 24) == Bit(word, 24) && Bit(w, 31) == Bit(word, 31) && LabelAt(v.ip, w, Imm14) == Label(t)
    ensures TestBranch(w, v) == Relabelled(TestBranch(word, v), t)
  {
    ThreeRelabelled(if Bit(word, 24) == 1 then Code.Tbnz else Code.Tbz,
                    PlainReg(false, WidthOf(Bit(word, 31)), Bits(word, 0, 5)), ImmUnsigned(BitPosition(word) as int),
                    LabelAt(v.ip, word, Imm14), t, v);
  }

  lemma ThreeRelabelled(c: Code, a: Operand, b: Operand, l: Operand, t: U64, v: Insn)
    ensures v.Set(c).Push(a).Push(b).Push(Label(t)) == Relabelled(v.Set(c).Push(a).Push(b).Push(l), t)
  {
    PushRelabelled(v.Set(c).Push(a).Push(b), l, Label(t), t);
  }

  lemma CmpbrRelabels(word: bv32, x: bv32, k: nat, t: U64, f: Gate, v: Insn)
    requires v.ops == []
    requires k < 2 * Half(Imm9) && x as int == k && Fits(x, Imm9) && Target(v.ip, k, Imm9) == t
    ensures CmpbrOf(With9(word, x), f, v) == Relabelled(CmpbrOf(word, f, v), t)
  {
    var w := With9(word, x);
    Field9Keeps(word, x);
    Field9KeepsHigh(word, x);
    Field9KeepsBits(word, x);
    LabelWith9(word, x, k, t, v.ip);
    CmpbrRegRelabels(word, w, t, v);
    CmpbrImmRelabels(word, w, t, v);
    CmpbrHalves(word, w, t, f, v);
  }

  lemma LabelWith9(word: bv32, x: bv32, k: nat, t: U64, ip: U64)
    requires k < 2 * Half(Imm9) && x as int == k && Fits(x, Imm9) && Target(ip, k, Imm9) == t
    ensures LabelAt(ip, With9(word, x), Imm9) == Label(t)
  {
    LabelIs(With9(word, x), ip, Imm9, k, t);
  }

  lemma CmpbrHalves(word: bv32, w: bv32, t: U64, f: Gate, v: Insn)
    requires v.ops == [] && Bit(w, 24) == Bit(word, 24)
    requires CmpbrReg(w, v) == Relabelled(CmpbrReg(word, v), t) && CmpbrImm(w, v) == Relabelled(CmpbrImm(word, v), t)
    ensures CmpbrOf(w, f, v) == Relabelled(CmpbrOf(word, f, v), t)
  {
  }

  lemma CmpbrRegRelabels(word: bv32, w: bv32, t: U64, v: Insn)
    requires v.ops == [] && LabelAt(v.ip, w, Imm9) == Label(t)
    requires Bits(w, 0, 5) == Bits(word, 0, 5) && Bits(w, 14, 2) == Bits(word, 14, 2)
    requires Bits(w, 21, 3) == Bits(word, 21, 3)
    requires Bits(w, 16, 5) == Bits(word, 16, 5) && Bit(w, 31) == Bit(word, 31)
    ensures CmpbrReg(w, v) == Relabelled(CmpbrReg(word, v), t)
  {
    var wd, c := WidthOf(Bit(word, 31)), CmpbrRegCode(Bits(word, 14, 2), Bits(word, 21, 3));
    if c.Some? {
      var base := v.Set(c.value).Push(PlainReg(false, wd, Bits(word, 0, 5)))
      .Push(PlainReg(false, wd, Bits(word, 16, 5)));
      PushRelabelled(base, LabelAt(v.ip, word, Imm9), Label(t), t);
    }
  }

  lemma CmpbrImmRelabels(word: bv32, w: bv32, t: U64, v: Insn)
    requires v.ops == [] && LabelAt(v.ip, w, Imm9) == Label(t)
    requires Bits(w, 0, 5) == Bits(word, 0, 5) && Bit(w, 14) == Bit(word, 14) && Bits(w, 21, 3) == Bits(word, 21, 3)
    requires Bits(w, 15, 6) == Bits(word, 15, 6) && Bit(w, 31) == Bit(word, 31)
    ensures CmpbrImm(w, v) == Relabelled(CmpbrImm(word, v), t)
  {
    var c := CmpbrImmCode(Bits(word, 21, 3));
    if c.Some? {
      var base := v.Set(c.value).Push(PlainReg(false, WidthOf(Bit(word, 31)), Bits(word, 0, 5)))
                   .Push(ImmUnsigned(Bits(word, 15, 6) as int));
      PushRelabelled(base, LabelAt(v.ip, word, Imm9), Label(t), t);
    }
  }

  lemma UncondRelabels(word: bv32, x: bv32, k: nat, t: U64, v: Insn)
    requires k < 2 * Half(Imm26) && x as int == k && Fits(x, Imm26) && Target(v.ip, k, Imm26) == t
    ensures UncondBranchImm(With26(word, x), v) == Relabelled(UncondBranchImm(word, v), t)
  {
    var w := With26(word, x);
    Field26Keeps(word, x);
    LabelIs(w, v.ip, Imm26, k, t);
    PushRelabelled(v.Set(if Bit(word, 31) == 1 then Code.BlImm else Code.BUncond), LabelAt(v.ip, word, Imm26),
                   Label(t), t);
  }

  // --- The encoder on an edited branch. ---

  lemma FlagIrrelevantTest(d: Insn, x: bv32, m: bool)
    ensures EncTestBranch(d.(word := x, modified := m)) == EncTestBranch(d)
  {
    var e := d.(word := x, modified := m);
    assert RegNum(e, 0) == RegNum(d, 0) && ImmU32(e, 1) == ImmU32(d, 1)
           && RelField(e, 2, Imm14) == RelField(d, 2, Imm14);
  }

  lemma FlagIrrelevantCmpbr(d: Insn, x: bv32, m: bool)
    ensures EncCmpbr(d.(word := x, modified := m)) == EncCmpbr(d)
  {
    var facets, imm9 := CmpbrFacets(d.code), RelField(d, 2, Imm9);
    if imm9.Ok? {
      FlagIrrelevantCmpbrReg(d, x, m, facets.0, facets.1, Low32(imm9.value));
      FlagIrrelevantCmpbrImm(d, x, m, facets.2, Low32(imm9.value));
    }
  }

  lemma FlagIrrelevantCmpbrReg(d: Insn, x: bv32, m: bool, size: bv32, cc: Option<bv32>, imm9: bv32)
    ensures EncCmpbrReg(d.(word := x, modified := m), size, cc, imm9) == EncCmpbrReg(d, size, cc, imm9)
  {
  }

  lemma FlagIrrelevantCmpbrImm(d: Insn, x: bv32, m: bool, cc: Option<bv32>, imm9: bv32)
    ensures EncCmpbrImm(d.(word := x, modified := m), cc, imm9) == EncCmpbrImm(d, cc, imm9)
  {
  }

  // --- The operands of a direct branch: its label comes last, and is the target. ---

  // The slot of the label.
  function SlotOf(word: bv32): nat {
    match ClassOf(word)
    case TestBlock | CmpbrBlock => 2
    case ImmBranch => 0
    case _ => 1
  }

  ghost predicate DirectShape(d: Insn, n: nat, t: U64) {
    d.IsDirectBranch() && |d.ops| == n + 1 && d.ops[n] == Label(t) && forall i | 0 <= i < n :: !d.ops[i].Label?
  }

  lemma CondDirect(c: Code, m: Mnemonic)
    requires m == Mnemonic.B || m == Own(Code.BcCond) || m == Own(Code.BlImm)
    ensures IsDirect(FlowControlFor(m, c))
  {
  }

  lemma CondShape(word: bv32, f: Gate, v: Insn)
    requires Bit(word, 24) == 0 && v.IsInvalid()
    ensures var d := CondBranch(word, f, v);
            d.IsInvalid() || DirectShape(d, 1, Target(v.ip, ImmField(word, Imm19), Imm19))
  {
    CondIs(word, f, v);
    CondTargetShape(word, Code.BCond, v);
    CondTargetShape(word, Code.BcCond, v);
  }

  lemma CondIs(word: bv32, f: Gate, v: Insn)
    requires Bit(word, 24) == 0
    ensures || CondBranch(word, f, v) == v
            || CondBranch(word, f, v) == CondTarget(word, v.Set(Code.BCond))
            || CondBranch(word, f, v) == CondTarget(word, v.Set(Code.BcCond))
  {
  }

  lemma TwoShape(c: Code, a: Operand, t: U64, v: Insn)
    requires IsDirect(FlowControlFor(MnemonicOf(c), c)) && !a.Label?
    ensures DirectShape(v.Set(c).Push(a).Push(Label(t)), 1, t)
  {
  }

  lemma CondTargetShape(word: bv32, c: Code, v: Insn)
    requires c == Code.BCond || c == Code.BcCond
    ensures DirectShape(CondTarget(word, v.Set(c)), 1, Target(v.ip, ImmField(word, Imm19), Imm19))
  {
    CondDirect(c, MnemonicOf(c));
    TwoShape(c, Operand.Cond(ConditionFromU4(Bits(word, 0, 4))), Target(v.ip, ImmField(word, Imm19), Imm19), v);
  }

  lemma CompareShape(word: bv32, v: Insn)
    ensures DirectShape(CompareBranch(word, v), 1, Target(v.ip, ImmField(word, Imm19), Imm19))
  {
    var c := CompareBranchCode(Bit(word, 24), Bit(word, 31));
    TwoShape(c, PlainReg(false, WidthOf(Bit(word, 31)), Bits(word, 0, 5)),
             Target(v.ip, ImmField(word, Imm19), Imm19), v);
  }

  lemma ThreeShape(c: Code, a: Operand, b: Operand, t: U64, v: Insn)
    requires IsDirect(FlowControlFor(MnemonicOf(c), c)) && !a.Label? && !b.Label?
    ensures DirectShape(v.Set(c).Push(a).Push(b).Push(Label(t)), 2, t)
  {
  }

  lemma TestCodeDirect(c: Code)
    requires c == Code.Tbz || c == Code.Tbnz
    ensures IsDirect(FlowControlFor(MnemonicOf(c), c))
  {
  }

  lemma TestShape(word: bv32, v: Insn)
    ensures DirectShape(TestBranch(word, v), 2, Target(v.ip, ImmField(word, Imm14), Imm14))
  {
    var c := if Bit(word, 24) == 1 then Code.Tbnz else Code.Tbz;
    TestCodeDirect(c);
    ThreeShape(c, PlainReg(false, WidthOf(Bit(word, 31)), Bits(word, 0, 5)), ImmUnsigned(BitPosition(word) as int),
               Target(v.ip, ImmField(word, Imm14), Imm14), v);
  }

  lemma UncondShape(word: bv32, v: Insn)
    ensures DirectShape(UncondBranchImm(word, v), 0, Target(v.ip, ImmField(word, Imm26), Imm26))
  {
    var c := if Bit(word, 31) == 1 then Code.BlImm else Code.BUncond;
    CondDirect(c, MnemonicOf(c));
  }

  lemma CmpbrDirect(c: Code)
    requires IsCmpbr(c)
    ensures IsDirect(FlowControlFor(MnemonicOf(c), c))
  {
  }

  lemma CmpbrRegShape(word: bv32, v: Insn)
    requires v.IsInvalid()
    ensures CmpbrReg(word, v).IsInvalid() || DirectShape(CmpbrReg(word, v), 2, Target(v.ip, ImmField(word, Imm9), Imm9))
  {
    var w, c := WidthOf(Bit(word, 31)), CmpbrRegCode(Bits(word, 14, 2), Bits(word, 21, 3));
    if c.Some? {
      CmpbrRegCodeInverts(Bits(word, 14, 2), Bits(word, 21, 3));
      CmpbrDirect(c.value);
      ThreeShape(c.value, PlainReg(false, w, Bits(word, 0, 5)), PlainReg(false, w, Bits(word, 16, 5)),
                 Target(v.ip, ImmField(word, Imm9), Imm9), v);
    }
  }

  lemma CmpbrImmShape(word: bv32, v: Insn)
    requires v.IsInvalid()
    ensures CmpbrImm(word, v).IsInvalid() || DirectShape(CmpbrImm(word, v), 2, Target(v.ip, ImmField(word, Imm9), Imm9))
  {
    var c := CmpbrImmCode(Bits(word, 21, 3));
    if c.Some? {
      CmpbrImmCodeInverts(Bits(word, 21, 3));
      CmpbrDirect(c.value);
      ThreeShape(c.value, PlainReg(false, WidthOf(Bit(word, 31)), Bits(word, 0, 5)),
                 ImmUnsigned(Bits(word, 15, 6) as int),
                 Target(v.ip, ImmField(word, Imm9), Imm9), v);
    }
  }

  lemma CmpbrShape(word: bv32, f: Gate, v: Insn)
    requires v.IsInvalid()
    ensures var d := CmpbrOf(word, f, v); d.IsInvalid() || DirectShape(d, 2, Target(v.ip, ImmField(word, Imm9), Imm9))
  {
    CmpbrRegShape(word, v);
    CmpbrImmShape(word, v);
  }

  lemma JumpShape(c: BranchSpec.Class, word: bv32, f: Gate, s: Span, v: Insn)
    requires c == ClassOf(word) && SpanOf(word) == Some(s) && v.IsInvalid()
    ensures var d := Jump(c, word, f, v);
            d.IsInvalid() || DirectShape(d, SlotOf(word), Target(v.ip, ImmField(word, s), s))
  {
    if c.CondBlock? {
      CondShape(word, f, v);
    } else if c.CompareBlock? {
      CompareShape(word, v);
    } else if c.TestBlock? {
      TestShape(word, v);
    } else if c.CmpbrBlock? {
      CmpbrShape(word, f, v);
    } else if c.ImmBranch? {
      UncondShape(word, v);
    }
  }

  // The group's decoding of a direct branch.
  lemma BranchIsJump(word: bv32, f: Gate, table: SysTable, v: Insn)
    requires SpanOf(word).Some?
    ensures Branch(word, f, table, v) == Jump(ClassOf(word), word, f, v)
  {
  }

  lemma FirstLabelIs(d: Insn, n: nat, t: U64)
    requires DirectShape(d, n, t)
    ensures d.NearBranchTarget() == t && d.HasLabel()
  {
    FirstLabelAt(d.ops, n);
    assert d.ops[n].Label?;
  }

  // near_branch_target is the resolved target, a multiple of four within reach of the
  // class, and every target within reach is some field's.
  lemma BranchReach(word: bv32, f: Gate, table: SysTable, s: Span, ip: U64)
    requires SpanOf(word) == Some(s) && !Branch(word, f, table, NewInvalid(word, ip)).IsInvalid()
    ensures var d := Branch(word, f, table, NewInvalid(word, ip));
            && d.IsDirectBranch() && d.NearBranchTarget() == Target(ip, ImmField(word, s), s)
            && Reachable(d.NearBranchTarget(), ip, s)
  {
    var v := NewInvalid(word, ip);
    BranchIsJump(word, f, table, v);
    JumpShape(ClassOf(word), word, f, s, v);
    FirstLabelIs(Jump(ClassOf(word), word, f, v), SlotOf(word), Target(ip, ImmField(word, s), s));
    ExactReach(Target(ip, ImmField(word, s), s), ip, s);
  }

  // --- set_near_branch_target, then encode. ---

  lemma {:induction false} EditReaches(ops: seq<Operand>, t: U64, n: nat, from: nat)
    requires from <= n < |ops| && ops[n].Label? && forall i | 0 <= i < n :: !ops[i].Label?
    ensures EditFirst(ops, Edit.SetNearBranchTarget(t), from) == Some(ops[n := Label(t)])
    decreases n - from
  {
    if from < n { EditReaches(ops, t, n, from + 1); }
  }

  lemma EditIsRelabelling(d: Insn, n: nat, was: U64, t: U64)
    requires DirectShape(d, n, was) && n < MAX_OPERANDS
    ensures Edited(d, Edit.SetNearBranchTarget(t)) == Some(Relabelled(d, t).(modified := true))
  {
    EditReaches(d.ops, t, n, 0);
  }

  // The word with the field of its span replaced.
  function WithField(word: bv32, s: Span, x: bv32): bv32 {
    match s
    case Imm26 => With26(word, x)
    case Imm19 => With19(word, x)
    case Imm14 => With14(word, x)
    case Imm9 => With9(word, x)
  }

  lemma StaysInClass(word: bv32, s: Span, x: bv32)
    requires SpanOf(word) == Some(s)
    ensures ClassOf(WithField(word, s, x)) == ClassOf(word)
    ensures ClassOf(word).CondBlock? ==> Bit(WithField(word, s, x), 24) == Bit(word, 24)
  {
    if s.Imm26? {
      Field26Keeps(word, x);
      ClassKept26(word, With26(word, x));
    } else if s.Imm19? {
      StaysIn19(word, x);
    } else if s.Imm14? {
      Field14KeepsTop(word, x);
      ClassKept(word, With14(word, x));
    } else {
      Field9KeepsTop(word, x);
      ClassKept(word, With9(word, x));
    }
  }

  lemma StaysIn19(word: bv32, x: bv32)
    requires SpanOf(word) == Some(Imm19)
    ensures ClassOf(With19(word, x)) == ClassOf(word) && Bit(With19(word, x), 24) == Bit(word, 24)
  {
    Field19KeepsBits(word, x);
    ClassKept(word, With19(word, x));
  }

  lemma JumpRelabels(c: BranchSpec.Class, word: bv32, s: Span, x: bv32, k: nat, t: U64, f: Gate, v: Insn)
    requires c == ClassOf(word) && SpanOf(word) == Some(s) && v.ops == []
    requires k < 2 * Half(s) && x as int == k && Fits(x, s) && Target(v.ip, k, s) == t
    ensures Jump(c, WithField(word, s, x), f, v) == Relabelled(Jump(c, word, f, v), t)
  {
    if c.CondBlock? {
      CondRelabels(word, x, k, t, f, v);
    } else if c.CmpbrBlock? {
      CmpbrRelabels(word, x, k, t, f, v);
    } else {
      PlainRelabels(c, word, s, x, k, t, f, v);
    }
  }

  lemma PlainRelabels(c: BranchSpec.Class, word: bv32, s: Span, x: bv32, k: nat, t: U64, f: Gate, v: Insn)
    requires c == ClassOf(word) && SpanOf(word) == Some(s) && v.ops == [] && !c.CondBlock? && !c.CmpbrBlock?
    requires k < 2 * Half(s) && x as int == k && Fits(x, s) && Target(v.ip, k, s) == t
    ensures Jump(c, WithField(word, s, x), f, v) == Relabelled(Jump(c, word, f, v), t)
  {
    PlainClassRelabels(c, word, s, x, k, t, f, v);
  }

  lemma PlainClassRelabels(c: BranchSpec.Class, word: bv32, s: Span, x: bv32, k: nat, t: U64, f: Gate, v: Insn)
    requires (c.CompareBlock? && s == Imm19) || (c.TestBlock? && s == Imm14) || (c.ImmBranch? && s == Imm26)
    requires k < 2 * Half(s) && x as int == k && Fits(x, s) && Target(v.ip, k, s) == t
    ensures Jump(c, WithField(word, s, x), f, v) == Relabelled(Jump(c, word, f, v), t)
  {
    if c.CompareBlock? {
      CompareJumpRelabels(word, x, k, t, f, v);
    } else if c.TestBlock? {
      TestJumpRelabels(word, x, k, t, f, v);
    } else {
      UncondJumpRelabels(word, x, k, t, f, v);
    }
  }

  lemma UncondJumpRelabels(word: bv32, x: bv32, k: nat, t: U64, f: Gate, v: Insn)
    requires k < 2 * Half(Imm26) && x as int == k && Fits(x, Imm26) && Target(v.ip, k, Imm26) == t
    ensures Jump(ImmBranch, WithField(word, Imm26, x), f, v) == Relabelled(Jump(ImmBranch, word, f, v), t)
  {
    UncondRelabels(word, x, k, t, v);
  }

  lemma CompareJumpRelabels(word: bv32, x: bv32, k: nat, t: U64, f: Gate, v: Insn)
    requires k < 2 * Half(Imm19) && x as int == k && Fits(x, Imm19) && Target(v.ip, k, Imm19) == t
    ensures Jump(CompareBlock, WithField(word, Imm19, x), f, v) == Relabelled(Jump(CompareBlock, word, f, v), t)
  {
    CompareRelabels(word, x, k, t, v);
  }

  lemma TestJumpRelabels(word: bv32, x: bv32, k: nat, t: U64, f: Gate, v: Insn)
    requires k < 2 * Half(Imm14) && x as int == k && Fits(x, Imm14) && Target(v.ip, k, Imm14) == t
    ensures Jump(TestBlock, WithField(word, Imm14, x), f, v) == Relabelled(Jump(TestBlock, word, f, v), t)
  {
    TestRelabels(word, x, k, t, v);
  }

  // The encoder of a class, on any instruction with an encoding of that class.
  function ClassEncoder(c: BranchSpec.Class, d: Insn): Encoded {
    match c
    case CondBlock => EncCondBranch(d)
    case CompareBlock => EncCompareBranch(d)
    case TestBlock => EncTestBranch(d)
    case CmpbrBlock => EncCmpbr(d)
    case ImmBranch => EncUncondBranchImm(d)
    case _ => Err(Unsupported)
  }

  predicate CodeOfClass(c: BranchSpec.Class, code: Code) {
    match c
    case CondBlock => IsCondCode(code)
    case CompareBlock => IsCompareCode(code)
    case TestBlock => IsTestCode(code)
    case CmpbrBlock => IsCmpbr(code)
    case ImmBranch => IsUncondCode(code)
    case _ => false
  }

  lemma ClassEncodes(c: BranchSpec.Class, d: Insn, names: SysNames)
    requires CodeOfClass(c, d.code)
    ensures Encode(d, names) == ClassEncoder(c, d)
  {
    match c
    case CondBlock => CondFamily(d.code);
    case CompareBlock => CompareFamily(d.code);
    case TestBlock => TestFamily(d.code);
    case CmpbrBlock => CmpbrFamily(d.code);
    case ImmBranch => UncondFamily(d.code);
    case _ =>
  }

  lemma FlagFree(c: BranchSpec.Class, d: Insn, x: bv32, m: bool)
    ensures ClassEncoder(c, d.(word := x, modified := m)) == ClassEncoder(c, d)
  {
    FlagIrrelevantTest(d, x, m);
    FlagIrrelevantCmpbr(d, x, m);
  }

  lemma CondCodes(word: bv32, f: Gate, v: Insn)
    requires Bit(word, 24) == 0 && v.IsInvalid()
    ensures var d := CondBranch(word, f, v); d.IsInvalid() || d.code == Code.BCond || d.code == Code.BcCond
  {
  }

  lemma CondGroup(c: Code)
    ensures c == Code.BCond || c == Code.BcCond ==> IsCondCode(c)
  {
  }

  lemma CmpbrCodes(word: bv32, f: Gate, v: Insn)
    requires v.IsInvalid()
    ensures var d := CmpbrOf(word, f, v); d.IsInvalid() || IsCmpbr(d.code)
  {
    CmpbrRegCodeInverts(Bits(word, 14, 2), Bits(word, 21, 3));
    CmpbrImmCodeInverts(Bits(word, 21, 3));
  }

  lemma JumpCodes(c: BranchSpec.Class, word: bv32, f: Gate, v: Insn)
    requires c == ClassOf(word) && SpanOf(word).Some? && v.IsInvalid()
    ensures var d := Jump(c, word, f, v); d.IsInvalid() || CodeOfClass(c, d.code)
  {
    match c
    case CondBlock =>
      CondCodes(word, f, v);
      CondGroup(Jump(c, word, f, v).code);
    case CompareBlock => CompareCodes(word, v);
    case TestBlock => TestCodes(word, v);
    case CmpbrBlock => CmpbrCodes(word, f, v);
    case ImmBranch => UncondCodes(word, v);
    case _ =>
  }

  // The edit of the public interface.
  ghost function Retargeted(d: Insn, t: U64): Insn
    requires d.WellFormed()
  {
    Apply(d, Edit.SetNearBranchTarget(t))
  }

  lemma RetargetedIs(d: Insn, n: nat, was: U64, t: U64)
    requires DirectShape(d, n, was) && n < MAX_OPERANDS
    ensures d.WellFormed() && Retargeted(d, t) == Relabelled(d, t).(modified := true)
    ensures Relabelled(d, t).Op(n) == Label(t) && Relabelled(d, t).code == d.code && Relabelled(d, t).ip == d.ip
  {
    EditIsRelabelling(d, n, was, t);
  }

  lemma OutOfReachRefused(c: BranchSpec.Class, word: bv32, s: Span, t: U64, f: Gate, names: SysNames, v: Insn)
    requires c == ClassOf(word) && SpanOf(word) == Some(s) && v.IsInvalid() && v.ops == []
    requires var d := Jump(c, word, f, v); !d.IsInvalid() && d.ip == v.ip && !Reachable(t, v.ip, s)
    ensures Encode(Relabelled(Jump(c, word, f, v), t).(modified := true), names).Err?
  {
    var d := Jump(c, word, f, v);
    JumpShape(c, word, f, s, v);
    JumpCodes(c, word, f, v);
    RetargetedIs(d, SlotOf(word), Target(v.ip, ImmField(word, s), s), t);
    BeyondReach(t, v.ip, s);
    LabelRefused(c, word, s, t, names, Relabelled(d, t).(modified := true));
  }

  lemma BeyondReach(t: U64, ip: U64, s: Span)
    requires !Reachable(t, ip, s)
    ensures RelImm(t, ip, s).None?
  {
    ExactReach(t, ip, s);
  }

  lemma LabelRefused(c: BranchSpec.Class, word: bv32, s: Span, t: U64, names: SysNames, e: Insn)
    requires c == ClassOf(word) && SpanOf(word) == Some(s) && CodeOfClass(c, e.code)
    requires e.Op(SlotOf(word)) == Label(t) && RelImm(t, e.ip, s).None?
    ensures Encode(e, names).Err?
  {
    ClassEncodes(c, e, names);
  }

  lemma InReachEncodes(c: BranchSpec.Class, word: bv32, s: Span, t: U64, f: Gate, names: SysNames, v: Insn)
    returns (w: bv32)
    requires c == ClassOf(word) && SpanOf(word) == Some(s) && v.IsInvalid() && v.ops == []
    requires var d := Jump(c, word, f, v); !d.IsInvalid() && Reachable(t, v.ip, s)
    ensures ClassOf(w) == c && Jump(c, w, f, v) == Relabelled(Jump(c, word, f, v), t)
    ensures Encode(Relabelled(Jump(c, word, f, v), t).(modified := true), names) == Ok(w)
  {
    var d := Jump(c, word, f, v);
    ExactReach(t, v.ip, s);
    var k := RelImm(t, v.ip, s).value;
    FieldToTarget(t, v.ip, s);
    var x := FieldWord(k, s);
    w := WithField(word, s, x);
    StaysInClass(word, s, x);
    JumpRelabels(c, word, s, x, k, t, f, v);
    var e := Relabelled(d, t);
    JumpCodes(c, word, f, v);
    JumpClass(c, w, f, names, v);
    ClassEncodes(c, e, names);
    ClassEncodes(c, e.(modified := true), names);
    FlagFree(c, e, e.word, true);
  }

  lemma InReachDecodes(c: BranchSpec.Class, word: bv32, w: bv32, t: U64, f: Gate, ip: U64)
    requires c == ClassOf(word) && SpanOf(word).Some?
    requires var v := NewInvalid(word, ip); Jump(c, w, f, v) == Relabelled(Jump(c, word, f, v), t)
    ensures Jump(c, w, f, NewInvalid(w, ip))
            == Relabelled(Jump(c, word, f, NewInvalid(word, ip)), t).(word := w, modified := false)
  {
    var v := NewInvalid(word, ip);
    Relocation.JumpFollows(c, w, f, v, Relocation.Origin(w, ip));
    Relocation.NoDistanceNoShift(Jump(c, w, f, v).ops);
    Relocation.JumpFollows(c, word, f, v, Relocation.Origin(w, ip));
    Relocation.NoDistanceNoShift(Jump(c, word, f, v).ops);
  }

  // What retargeting d to t does, in terms of the words of one class.
  ghost predicate RetargetsTo(c: BranchSpec.Class, d: Insn, f: Gate, names: SysNames, s: Span, ip: U64, t: U64) {
    && d.WellFormed() && Edited(d, Edit.SetNearBranchTarget(t)).Some?
    && var r := Encode(Retargeted(d, t), names);
       && (r.Ok? <==> Reachable(t, ip, s))
       && (r.Ok? ==> ClassOf(r.value) == c
                     && Jump(c, r.value, f, NewInvalid(r.value, ip))
                        == Retargeted(d, t).(word := r.value, modified := false))
  }

  lemma RetargetJump(c: BranchSpec.Class, word: bv32, f: Gate, names: SysNames, s: Span, ip: U64, t: U64)
    requires c == ClassOf(word) && SpanOf(word) == Some(s) && !Jump(c, word, f, NewInvalid(word, ip)).IsInvalid()
    ensures RetargetsTo(c, Jump(c, word, f, NewInvalid(word, ip)), f, names, s, ip, t)
  {
    var v := NewInvalid(word, ip);
    var d := Jump(c, word, f, v);
    JumpShape(c, word, f, s, v);
    RetargetedIs(d, SlotOf(word), Target(ip, ImmField(word, s), s), t);
    EditIsRelabelling(d, SlotOf(word), Target(ip, ImmField(word, s), s), t);
    Relocation.JumpFollows(c, word, f, v, Relocation.Origin(word, ip));
    if Reachable(t, ip, s) {
      var w := InReachEncodes(c, word, s, t, f, names, v);
      InReachDecodes(c, word, w, t, f, ip);
    } else {
      OutOfReachRefused(c, word, s, t, f, names, v);
    }
  }

  // Retargeting a decoded direct branch always applies; encoding the result succeeds
  // exactly when the target is within reach of the class, and then the word it gives
  // decodes to the edited instruction.
  lemma RetargetEncodesIffReachable(word: bv32, f: Gate, table: SysTable, names: SysNames, s: Span, ip: U64, t: U64)
    requires SpanOf(word) == Some(s) && !Branch(word, f, table, NewInvalid(word, ip)).IsInvalid()
    ensures var d := Branch(word, f, table, NewInvalid(word, ip));
            && d.WellFormed() && Edited(d, Edit.SetNearBranchTarget(t)).Some?
            && (Encode(Retargeted(d, t), names).Ok? <==> Reachable(t, ip, s))
            && (Encode(Retargeted(d, t), names).Ok? ==>
                  var w := Encode(Retargeted(d, t), names).value;
                  Branch(w, f, table, NewInvalid(w, ip)) == Retargeted(d, t).(word := w, modified := false))
  {
    var c := ClassOf(word);
    var d := Jump(c, word, f, NewInvalid(word, ip));
    BranchIsJump(word, f, table, NewInvalid(word, ip));
    RetargetJump(c, word, f, names, s, ip, t);
    if Encode(Retargeted(d, t), names).Ok? {
      var w := Encode(Retargeted(d, t), names).value;
      BranchInJump(c, w, f, table, NewInvalid(w, ip));
    }
  }

  lemma BranchInJump(c: BranchSpec.Class, word: bv32, f: Gate, table: SysTable, v: Insn)
    requires c == ClassOf(word) && (c.CondBlock? || c.CompareBlock? || c.TestBlock? || c.CmpbrBlock? || c.ImmBranch?)
    ensures Branch(word, f, table, v) == Jump(c, word, f, v)
  {
  }
}
