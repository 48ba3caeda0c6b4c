/** `src/decode/mod.rs`: the entry point of the decoder, and the theorems of the groups
    stated for the words it routes to them. */
module DecodeTree {
  import opened Wrappers
  import opened Ints
  import opened Features
  import opened Isa
  import opened Instructions
  import opened EditHistory
  import opened Encoding
  import opened BranchSpec
  import opened BranchValidity
  import opened BranchEncode
  import BranchDecode
  import RoundTrip
  import CanonicalForm
  import Relocation
  import Monotone
  import Gates
  import Apple
  import SysAliasLaws

  // The groups whose decoders are not part of this model.
  datatype Group = Sme | Sve | DataProcessingImm | LoadsStores | DataProcessingReg | SimdFp

  // What those decoders make of a word at an address.
  type Others = (Group, bv32, U64, FeatureSet) -> Insn

  ghost predicate Proper(others: Others) {
    forall g, word, ip, f :: others(g, word, ip, f).WellFormed()
  }

  // op0 = word<28:25>.
  function Op0Of(word: bv32): bv32 { (word >> 25) & 15 }

  function GroupOf(op0: bv32): Group {
    if op0 == 2 then Group.Sve
    else if op0 == 8 || op0 == 9 then DataProcessingImm
    else if op0 == 4 || op0 == 6 || op0 == 12 || op0 == 14 then LoadsStores
    else if op0 == 5 || op0 == 13 then DataProcessingReg
    else SimdFp
  }

  function UdfOf(word: bv32, v: Insn): Insn {
    v.Set(Code.Udf).Push(ImmUnsigned((word & 0xffff) as int))
  }

  // UDF, the Apple clusters, and SME in the half with word<31> set.
  function Reserved(word: bv32, f: FeatureSet, others: Others, v: Insn): Insn {
    if word >> 16 == 0 then UdfOf(word, v)
    else if word & 0xffff_f800 == 0x0020_1000 then Apple.AppleOf(word, f.Has, v)
    else if word >> 31 == 1 then others(Group.Sme, word, v.ip, f)
    else v
  }

  ghost function DecodeWord(word: bv32, ip: U64, f: FeatureSet, table: SysTable, others: Others): Insn {
    var v, op0 := NewInvalid(word, ip), Op0Of(word);
    if op0 == 0 then Reserved(word, f, others, v)
    else if op0 == 1 || op0 == 3 then v
    else if op0 == 10 || op0 == 11 then Branch(word, f.Has, table, v)
    else others(GroupOf(op0), word, ip, f)
  }

  // Stands for the decoder of another group filling its output.
  method RunOther(g: Group, word: bv32, ip: U64, f: FeatureSet, others: Others, out: Instruction)
    requires out.Valid() && Proper(others)
    modifies out, out.operands
    ensures out.Valid()
    ensures out.View() == others(g, word, ip, f)
  {
    var v := others(g, word, ip, f);
    out.word, out.ip, out.code, out.mnemonic := v.word, v.ip, v.code, v.mnemonic;
    out.opCount := |v.ops|;
    out.flags := if v.modified then 1 else 0;
    forall i | 0 <= i < MAX_OPERANDS {
      out.operands[i] := v.Op(i);
    }
    assert out.operands[..out.opCount] == v.ops;
  }

  method DecodeUdf(word: bv32, out: Instruction)
    requires out.Valid()
    modifies out, out.operands
    ensures out.Valid()
    ensures out.View() == UdfOf(word, old(out.View()))
  {
    out.Set(Code.Udf);
    out.PushOperand(ImmUnsigned((word & 0xffff) as int));
  }

  method DecodeReserved(word: bv32, ip: U64, f: FeatureSet, others: Others, out: Instruction)
    requires out.Valid() && out.ip == ip && Proper(others)
    modifies out, out.operands
    ensures out.Valid()
    ensures out.View() == Reserved(word, f, others, old(out.View()))
  {
    if word >> 16 == 0 {
      DecodeUdf(word, out);
      return;
    }
    if word & 0xffff_f800 == 0x0020_1000 {
      Apple.DecodeApple(word, f, out);
      return;
    }
    if word >> 31 == 1 {
      RunOther(Group.Sme, word, ip, f, others, out);
    }
  }

  // out may hold anything: a previous decode leaves no trace.
  method DecodeInto(word: bv32, ip: U64, f: FeatureSet, table: SysTable, others: Others, out: Instruction)
    requires out.operands.Length == MAX_OPERANDS && Proper(others)
    modifies out, out.operands
    ensures out.Valid()
    ensures out.View() == DecodeWord(word, ip, f, table, others)
  {
    out.Reset(word, ip);
    var op0 := Op0Of(word);
    if op0 == 0 {
      DecodeReserved(word, ip, f, others, out);
    } else if op0 == 1 || op0 == 3 {
    } else if op0 == 10 || op0 == 11 {
      BranchDecode.Decode(word, ip, f, table, out);
    } else {
      RunOther(GroupOf(op0), word, ip, f, others, out);
    }
  }

  // --- The words this model decodes itself. ---

  // UDF, Apple and the unallocated reserved words; the branch and system group.
  predicate Modelled(word: bv32) {
    (Op0Of(word) == 0 && (word >> 16 == 0 || word >> 31 == 0)) || Op0Of(word) == 10 || Op0Of(word) == 11
  }

  // Every class of the branch group lies within its two op0 values.
  lemma ClassesAreRouted(word: bv32)
    ensures !ClassOf(word).Outside? ==> Op0Of(word) == 10 || Op0Of(word) == 11
  {
  }

  // --- Encoding, by group of the encoding. ---

  function EncodeInsn(v: Insn, names: SysNames): Encoded {
    if v.code.AppleCode? then Apple.EncodeApple(v) else Encode(v, names)
  }

  lemma AppleIsUnsupported(v: Insn, names: SysNames)
    ensures v.code.AppleCode? ==> Encode(v, names) == Err(Unsupported)
  {
  }

  lemma UdfCode(d: Insn, names: SysNames)
    requires d.code.Udf?
    ensures Encode(d, names) == EncUdf(d)
  {
  }

  lemma EncodesUdf(d: Insn, n: U64)
    requires d.Op(0) == ImmUnsigned(n) && n <= 0xffff
    ensures EncUdf(d) == Ok(Low32(n))
  {
  }

  lemma UdfOperand(n: U64, v: Insn)
    ensures var d := v.Set(Code.Udf).Push(ImmUnsigned(n)); d.code == Code.Udf && d.Op(0) == ImmUnsigned(n)
  {
  }

  lemma UdfLeaf(n: U64, v: Insn, names: SysNames)
    requires n <= 0xffff
    ensures Encode(v.Set(Code.Udf).Push(ImmUnsigned(n)), names) == Ok(Low32(n))
  {
    UdfOperand(n, v);
    UdfCode(v.Set(Code.Udf).Push(ImmUnsigned(n)), names);
    EncodesUdf(v.Set(Code.Udf).Push(ImmUnsigned(n)), n);
  }

  lemma UdfWordIs(word: bv32)
    requires word >> 16 == 0
    ensures word & 0xffff == word && word <= 0xffff
  {
  }

  lemma UdfRoundTrip(word: bv32, v: Insn, names: SysNames)
    requires word >> 16 == 0
    ensures Encode(UdfOf(word, v), names) == Ok(word)
  {
    UdfEncodes(word, v, names);
    Low32Of(word);
  }

  lemma UdfIs(word: bv32, v: Insn) returns (n: U64)
    requires word >> 16 == 0
    ensures n == word as int && n <= 0xffff && UdfOf(word, v) == v.Set(Code.Udf).Push(ImmUnsigned(n))
  {
    UdfWordIs(word);
    Below16(word);
    n := word as int;
  }

  lemma UdfEncodes(word: bv32, v: Insn, names: SysNames)
    requires word >> 16 == 0
    ensures Encode(UdfOf(word, v), names) == Ok(Low32(word as int))
  {
    var n := UdfIs(word, v);
    UdfLeaf(n, v, names);
  }

  // The word the tree's own encoder gives back.
  ghost function CanonicalOf(word: bv32, f: FeatureSet, table: SysTable): bv32 {
    if Op0Of(word) == 0 then word else RoundTrip.CanonicalWord(word, f.Has, table)
  }

  lemma ReservedRoundTrip(word: bv32, f: FeatureSet, others: Others, names: SysNames, v: Insn)
    requires (word >> 16 == 0 || word >> 31 == 0) && v.IsInvalid()
    ensures var d := Reserved(word, f, others, v); d.IsInvalid() || EncodeInsn(d, names) == Ok(word)
  {
    var d := Reserved(word, f, others, v);
    if word >> 16 == 0 {
      UdfRoundTrip(word, v, names);
    } else {
      Apple.EncodeOfDecode(word, f.Has, v);
    }
  }

  lemma BranchRoundTrip(word: bv32, f: FeatureSet, table: SysTable, names: SysNames, v: Insn)
    requires v.IsInvalid() && SysAliasLaws.Paired(table, names)
    ensures var d := Branch(word, f.Has, table, v);
            d.IsInvalid() || EncodeInsn(d, names) == Ok(RoundTrip.CanonicalWord(word, f.Has, table))
  {
    var d := Branch(word, f.Has, table, v);
    RoundTrip.EncodeOfDecode(word, f.Has, table, names, v);
    AppleIsUnsupported(d, names);
  }

  // Decode, then encode: the canonical word.
  lemma TreeRoundTrip(word: bv32, ip: U64, f: FeatureSet, table: SysTable, others: Others, names: SysNames)
    requires Modelled(word) && SysAliasLaws.Paired(table, names)
    ensures var d := DecodeWord(word, ip, f, table, others);
            d.IsInvalid() || EncodeInsn(d, names) == Ok(CanonicalOf(word, f, table))
  {
    if Op0Of(word) == 0 {
      ReservedRoundTrip(word, f, others, names, NewInvalid(word, ip));
    } else {
      BranchRoundTrip(word, f, table, names, NewInvalid(word, ip));
    }
  }

  // --- Relocation. ---

  lemma UdfMoves(word: bv32, v: Insn, q: Relocation.Origin)
    requires v.ops == []
    ensures Relocation.Moves(UdfOf(word, v), UdfOf(word, Relocation.From(v, q)), q)
    ensures Relocation.NoLabels(UdfOf(word, v))
    ensures Relocation.SameHead(UdfOf(word, v), v)
  {
  }

  lemma AmxMoves(op: bv32, operand: bv32, v: Insn, q: Relocation.Origin)
    requires v.ops == []
    ensures var d := Apple.AmxOf(op, operand, v);
            && Relocation.Moves(d, Apple.AmxOf(op, operand, Relocation.From(v, q)), q) && Relocation.NoLabels(d)
            && Relocation.SameHead(d, v)
  {
  }

  lemma GxfMoves(sub: bv32, imm5: bv32, v: Insn, q: Relocation.Origin)
    requires v.ops == []
    ensures var d := Apple.GxfOf(sub, imm5, v);
            && Relocation.Moves(d, Apple.GxfOf(sub, imm5, Relocation.From(v, q)), q) && Relocation.NoLabels(d)
            && Relocation.SameHead(d, v)
  {
  }

  lemma ReservedMoves(word: bv32, f: FeatureSet, others: Others, v: Insn, q: Relocation.Origin)
    requires v.ops == [] && (word >> 16 == 0 || word >> 31 == 0)
    ensures var d := Reserved(word, f, others, v);
            && Relocation.Moves(d, Reserved(word, f, others, Relocation.From(v, q)), q) && Relocation.NoLabels(d)
            && Relocation.SameHead(d, v)
  {
    UdfMoves(word, v, q);
    AmxMoves((word >> 5) & 31, word & 31, v, q);
    GxfMoves((word >> 5) & 31, word & 31, v, q);
  }

  lemma BlindRelocates(a: Insn, b: Insn, q: Relocation.Origin)
    requires Relocation.Moves(a, b, q) && Relocation.NoLabels(a) && !a.modified && a.word == q.word
    ensures Moved(a, q.ip) == b.(modified := a.HasLabel())
  {
    NoLabelNoShift(a.ops, Sub(q.ip, a.ip));
  }

  // Decoding at p and moving to q is decoding at q, marked exactly when a label moved.
  lemma TreeCommutesWithRelocation(word: bv32, f: FeatureSet, table: SysTable, others: Others, p: U64, q: U64)
    requires Modelled(word)
    ensures var a, b := DecodeWord(word, p, f, table, others), DecodeWord(word, q, f, table, others);
            Moved(a, q) == b.(modified := a.HasLabel())
  {
    if Op0Of(word) == 0 {
      var there := Relocation.Origin(word, q);
      ReservedMoves(word, f, others, NewInvalid(word, p), there);
      BlindRelocates(DecodeWord(word, p, f, table, others), DecodeWord(word, q, f, table, others), there);
    } else {
      Relocation.DecodingCommutesWithRelocation(word, f.Has, table, p, q);
    }
  }

  // --- What two words that decode alike have in common. ---

  lemma BranchElsewhere(word: bv32, y: bv32, ip: U64, f: FeatureSet, table: SysTable, names: SysNames)
    requires SysAliasLaws.Paired(table, names)
    ensures var d := Branch(word, f.Has, table, NewInvalid(word, ip));
            && d.word == word && d.ip == ip && !d.modified
            && (d.IsInvalid() || EncodeInsn(d.(word := y), names) == Ok(RoundTrip.CanonicalWord(word, f.Has, table)))
  {
    Relocation.RecordedWordFree(word, f.Has, table, NewInvalid(word, ip), y);
    BranchRoundTrip(word, f, table, names, NewInvalid(y, ip));
  }

  lemma ReservedElsewhere(word: bv32, y: bv32, ip: U64, f: FeatureSet, others: Others, names: SysNames)
    requires word >> 16 == 0 || word >> 31 == 0
    ensures var d := Reserved(word, f, others, NewInvalid(word, ip));
            && d.word == word && d.ip == ip && !d.modified
            && (d.IsInvalid() || EncodeInsn(d.(word := y), names) == Ok(word))
  {
    ReservedMoves(word, f, others, NewInvalid(word, ip), Relocation.Origin(y, ip));
    ReservedRoundTrip(word, f, others, names, NewInvalid(y, ip));
  }

  // What a word decodes to encodes to its canonical form, whatever word it records.
  lemma RoundTripElsewhere(word: bv32, y: bv32, ip: U64, f: FeatureSet, table: SysTable, others: Others,
                           names: SysNames)
    requires Modelled(word) && SysAliasLaws.Paired(table, names)
    ensures var d := DecodeWord(word, ip, f, table, others);
            && d.word == word && d.ip == ip && !d.modified
            && (d.IsInvalid() || EncodeInsn(d.(word := y), names) == Ok(CanonicalOf(word, f, table)))
  {
    if Op0Of(word) == 0 {
      ReservedElsewhere(word, y, ip, f, others, names);
    } else {
      BranchElsewhere(word, y, ip, f, table, names);
    }
  }

  lemma CanonicalOfExact(word: bv32, f: FeatureSet, table: SysTable)
    requires CanonicalForm.Exact(word, f.Has, table)
    ensures CanonicalOf(word, f, table) == word
  {
    CanonicalForm.ExactIff(word, f.Has, table);
  }

  // Two words that decode at one address to the same encoding, mnemonic and operands have
  // one canonical form: they differ in ignored fields only, and not at all if both hold
  // those at their fixed values.
  lemma DecodeLosesOnlyIgnoredFields(a: bv32, b: bv32, ip: U64, f: FeatureSet, table: SysTable, others: Others,
                                     names: SysNames)
    requires Modelled(a) && Modelled(b) && SysAliasLaws.Paired(table, names)
    requires !DecodeWord(a, ip, f, table, others).IsInvalid()
    requires SameMeaning(DecodeWord(a, ip, f, table, others), DecodeWord(b, ip, f, table, others))
    ensures CanonicalOf(a, f, table) == CanonicalOf(b, f, table)
    ensures CanonicalForm.Exact(a, f.Has, table) && CanonicalForm.Exact(b, f.Has, table) ==> a == b
  {
    var d, e := DecodeWord(a, ip, f, table, others), DecodeWord(b, ip, f, table, others);
    RoundTripElsewhere(a, a, ip, f, table, others, names);
    RoundTripElsewhere(b, a, ip, f, table, others, names);
    assert d.(word := a) == e.(word := a);
    if CanonicalForm.Exact(a, f.Has, table) { CanonicalOfExact(a, f, table); }
    if CanonicalForm.Exact(b, f.Has, table) { CanonicalOfExact(b, f, table); }
  }

  // --- Features. ---

  lemma GateOf(f: FeatureSet, g: FeatureSet)
    requires f.Within(g)
    ensures BranchValidity.Within(f.Has, g.Has)
  {
    forall x: Feature | f.Has(x)
      ensures g.Has(x)
    {
      WithinKeeps(f, g, x);
    }
  }

  // Enabling more extensions never turns a valid word invalid.
  lemma TreeValidityIsMonotone(word: bv32, ip: U64, f: FeatureSet, g: FeatureSet, table: SysTable, others: Others)
    requires Modelled(word) && f.Within(g)
    ensures DecodeWord(word, ip, g, table, others).IsInvalid() ==> DecodeWord(word, ip, f, table, others).IsInvalid()
  {
    GateOf(f, g);
    if Op0Of(word) != 0 {
      Monotone.ValidityIsMonotone(word, f.Has, g.Has, table, NewInvalid(word, ip));
    }
  }

  lemma UdfFeature(word: bv32, v: Insn)
    ensures FeatureOf(UdfOf(word, v).code) == Feature.Base
  {
  }

  // Whatever is decoded has its extension enabled, SMSTART and SMSTOP apart.
  lemma TreeGateSoundness(word: bv32, ip: U64, f: FeatureSet, table: SysTable, others: Others)
    requires Modelled(word)
    ensures var d := DecodeWord(word, ip, f, table, others);
            d.IsInvalid() || d.code == Code.Smstart || d.code == Code.Smstop || f.Has(FeatureOf(d.code))
  {
    var v := NewInvalid(word, ip);
    if Op0Of(word) == 0 {
      ReservedGated(word, f, others, v);
    } else {
      Gates.GateSoundness(word, f.Has, table, v);
    }
  }

  lemma ReservedGated(word: bv32, f: FeatureSet, others: Others, v: Insn)
    requires (word >> 16 == 0 || word >> 31 == 0) && v.IsInvalid()
    ensures var d := Reserved(word, f, others, v); d.IsInvalid() || f.Has(FeatureOf(d.code))
  {
    UdfFeature(word, v);
    Apple.AppleGateSoundness(word, f.Has, v);
  }
}
