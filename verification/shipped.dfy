/** What the theorems of the branch group say of the directory the repository ships. */
module ShippedDirectory {
  import opened Wrappers
  import opened Ints
  import opened Features
  import opened Isa
  import opened BranchSpec
  import opened SysDirectory
  import opened Info
  import SysListing
  import SysRows
  import CanonicalForm
  import CommittedEdits
  import DecodedFlow
  import DecodedInfo
  import DecodeTree
  import FlagReport

  lemma SoleIsSilent(m: Mnemonic)
    requires SysListing.Alone(m)
    ensures !FlagReport.NamesFlags(m)
  {
  }

  lemma ListIsSilent(m: Mnemonic)
    requires m.At? || m.Brb? || m.Dc? || m.Gic? || m.Gicr?
    ensures !FlagReport.NamesFlags(m)
  {
  }

  lemma OtherListIsSilent(m: Mnemonic)
    requires m.Gsb? || m.Ic? || m.Mlbi? || m.Plbi? || m.Tlbi?
    ensures !FlagReport.NamesFlags(m)
  {
  }

  lemma ListedIsSilent(m: Mnemonic)
    requires m in SysListing.Listing()
    ensures !FlagReport.NamesFlags(m)
  {
    SysListing.ListedIs(m);
    if SysListing.Alone(m) {
      SoleIsSilent(m);
    } else if m.At? || m.Brb? || m.Dc? || m.Gic? || m.Gicr? {
      ListIsSilent(m);
    } else {
      OtherListIsSilent(m);
    }
  }

  lemma RowIsSilent(rows: seq<Row>, i: nat)
    requires SysRows.Shipped(rows) && i < |rows|
    ensures !FlagReport.NamesFlags(rows[i].entry.mnem)
  {
    var m, k := SysRows.ShippedRow(rows, i);
    ListedIsSilent(m);
  }

  lemma EntryIsSilent(rows: seq<Row>, read: bool, op1: bv32, crn: bv32, crm: bv32, op2: bv32, t: SysEntry)
    requires SysRows.Shipped(rows) && TableOf(rows)(read, op1, crn, crm, op2) == Some(t)
    ensures !FlagReport.NamesFlags(t.mnem)
  {
    var i := FindAt(rows, 0, read, op1, crn, crm, op2);
    RowIsSilent(rows, i);
  }

  // No row is named after an operation on the flags.
  lemma NamesOperations(rows: seq<Row>)
    requires SysRows.Shipped(rows)
    ensures FlagReport.NamesOperations(TableOf(rows))
  {
    forall read: bool, op1: bv32, crn: bv32, crm: bv32, op2: bv32, t: SysEntry
      | TableOf(rows)(read, op1, crn, crm, op2) == Some(t)
      ensures !FlagReport.NamesFlags(t.mnem)
    {
      EntryIsSilent(rows, read, op1, crn, crm, op2, t);
    }
  }

  lemma ListedIsAlias(m: Mnemonic)
    requires m in SysListing.Listing()
    ensures DecodedFlow.IsAlias(m)
  {
    SysListing.ListedIs(m);
  }

  // So its rows transfer no control.
  lemma OperationsOnly(rows: seq<Row>)
    requires SysRows.Shipped(rows)
    ensures DecodedFlow.OperationsOnly(TableOf(rows))
  {
    forall read: bool, op1: bv32, crn: bv32, crm: bv32, op2: bv32, t: SysEntry
      | TableOf(rows)(read, op1, crn, crm, op2) == Some(t)
      ensures DecodedFlow.IsAlias(t.mnem)
    {
      var i := FindAt(rows, 0, read, op1, crn, crm, op2);
      var m, k := SysRows.ShippedRow(rows, i);
      ListedIsAlias(m);
    }
  }

  // Decode, then encode, with the shipped directory on both sides: the canonical word.
  lemma RoundTrip(word: bv32, ip: U64, f: FeatureSet, rows: seq<Row>, others: DecodeTree.Others)
    requires DecodeTree.Modelled(word) && SysRows.Shipped(rows)
    ensures var d := DecodeTree.DecodeWord(word, ip, f, TableOf(rows), others);
            || d.IsInvalid()
            || DecodeTree.EncodeInsn(d, NamesOf(rows)) == Ok(DecodeTree.CanonicalOf(word, f, TableOf(rows)))
  {
    SysRows.ShippedIsPaired(rows);
    DecodeTree.TreeRoundTrip(word, ip, f, TableOf(rows), others, NamesOf(rows));
  }

  // Which is the word itself iff its ignored fields hold their fixed values.
  lemma ExactRoundTrip(word: bv32, ip: U64, f: FeatureSet, rows: seq<Row>, others: DecodeTree.Others)
    requires DecodeTree.Modelled(word) && SysRows.Shipped(rows)
    ensures var d := DecodeTree.DecodeWord(word, ip, f, TableOf(rows), others);
            d.IsInvalid() || (DecodeTree.EncodeInsn(d, NamesOf(rows)) == Ok(word) <==>
                              DecodeTree.Op0Of(word) == 0 || CanonicalForm.Exact(word, f.Has, TableOf(rows)))
  {
    RoundTrip(word, ip, f, rows, others);
    CanonicalForm.ExactIff(word, f.Has, TableOf(rows));
  }

  // Through every history of edits and commits, is_modified is false only where word() is
  // what the value encodes to, exactly if the word it was decoded from is such a word.
  lemma UnmarkedIsItsWordIff(word: bv32, ip: U64, f: FeatureSet, rows: seq<Row>, others: DecodeTree.Others)
    requires DecodeTree.Modelled(word) && SysRows.Shipped(rows)
    requires !DecodeTree.DecodeWord(word, ip, f, TableOf(rows), others).IsInvalid()
    ensures var d := DecodeTree.DecodeWord(word, ip, f, TableOf(rows), others);
            && d.WellFormed()
            && (CommittedEdits.AlwaysFaithful(d, NamesOf(rows)) <==>
                  DecodeTree.Op0Of(word) == 0 || CanonicalForm.Exact(word, f.Has, TableOf(rows)))
  {
    var d := DecodeTree.DecodeWord(word, ip, f, TableOf(rows), others);
    DecodedInfo.DecodedIsOrdinary(word, ip, f, TableOf(rows), others);
    ExactRoundTrip(word, ip, f, rows, others);
    SysRows.ShippedIsPaired(rows);
    DecodeTree.RoundTripElsewhere(word, word, ip, f, TableOf(rows), others, NamesOf(rows));
    CommittedEdits.UnmarkedIsItsWordIff(d, NamesOf(rows));
  }

  // The scalar flags are right for every word but the named exceptions.
  lemma FlagsRightIff(word: bv32, ip: U64, f: FeatureSet, rows: seq<Row>, others: DecodeTree.Others, t: Tables)
    requires DecodeTree.Modelled(word) && SysRows.Shipped(rows)
    ensures var info := InfoOf(DecodeTree.DecodeWord(word, ip, f, TableOf(rows), others), t);
            && (info.flagsRead == FlagReport.InputsFlags(word, f.Has) <==> !FlagReport.ReadWrong(word, f.Has))
            && (info.flagsWritten == FlagReport.OutputsFlags(word, f.Has) <==> !FlagReport.WriteWrong(word, f.Has))
  {
    NamesOperations(rows);
    FlagReport.ReadRightIff(word, ip, f, TableOf(rows), others, t);
    FlagReport.WriteRightIff(word, ip, f, TableOf(rows), others, t);
  }
}
