/** `src/tables/sysins.rs`: the flat directory of SYS aliases and its two linear
    searches. The entries are arbitrary; what is proved is what the entries must
    satisfy for the two searches to be inverse. */
module SysDirectory {
  import opened Wrappers
  import opened Isa
  import opened BranchSpec
  import opened BranchEncode
  import opened SystemLaws
  import opened SysAliasLaws

  datatype Row = Row(read: bool, op1: bv32, crn: bv32, crm: bv32, op2: bv32, entry: SysEntry)

  predicate Selects(t: Row, read: bool, op1: bv32, crn: bv32, crm: bv32, op2: bv32) {
    t.read == read && t.op1 == op1 && t.crn == crn && t.crm == crm && t.op2 == op2
  }

  predicate Named(t: Row, m: Mnemonic, name: Option<Keyword>) {
    t.entry.mnem == m && t.entry.name == name
  }

  // The first row of a selector from position i on.
  function Find(rows: seq<Row>, i: nat, read: bool, op1: bv32, crn: bv32, crm: bv32, op2: bv32): Option<Row>
    requires i <= |rows|
    decreases |rows| - i
  {
    if i == |rows| then None
    else if Selects(rows[i], read, op1, crn, crm, op2) then Some(rows[i])
    else Find(rows, i + 1, read, op1, crn, crm, op2)
  }

  function FindNamed(rows: seq<Row>, i: nat, m: Mnemonic, name: Option<Keyword>): Option<Row>
    requires i <= |rows|
    decreases |rows| - i
  {
    if i == |rows| then None
    else if Named(rows[i], m, name) then Some(rows[i])
    else FindNamed(rows, i + 1, m, name)
  }

  method Lookup(rows: seq<Row>, read: bool, op1: bv32, crn: bv32, crm: bv32, op2: bv32) returns (r: Option<Row>)
    ensures r == Find(rows, 0, read, op1, crn, crm, op2)
  {
    var i := 0;
    while i < |rows|
      invariant i <= |rows|
      invariant Find(rows, 0, read, op1, crn, crm, op2) == Find(rows, i, read, op1, crn, crm, op2)
    {
      if Selects(rows[i], read, op1, crn, crm, op2) {
        return Some(rows[i]);
      }
      i := i + 1;
    }
    return None;
  }

  method LookupByName(rows: seq<Row>, m: Mnemonic, name: Option<Keyword>) returns (r: Option<Row>)
    ensures r == FindNamed(rows, 0, m, name)
  {
    var i := 0;
    while i < |rows|
      invariant i <= |rows|
      invariant FindNamed(rows, 0, m, name) == FindNamed(rows, i, m, name)
    {
      if Named(rows[i], m, name) {
        return Some(rows[i]);
      }
      i := i + 1;
    }
    return None;
  }

  // No operation of a mnemonic is listed twice.
  ghost predicate DistinctNames(rows: seq<Row>) {
    forall i, j | 0 <= i < |rows| && 0 <= j < |rows| && Named(rows[j], rows[i].entry.mnem, rows[i].entry.name) :: i == j
  }

  // What the encoder assumes of the operand layout of a row.
  predicate WellShaped(t: Row) {
    var e := t.entry;
    && e.mnem != Own(Code.Sys) && e.mnem != Own(Code.Sysl)
    && ((e.mnem == Mnemonic.Cfp || e.mnem == Mnemonic.Dvp || e.mnem == Mnemonic.Cpp) ==> AtRctx(t))
    && (e.name.None? <==> e.mnem == Mnemonic.Apas || e.mnem == Mnemonic.Trcit)
    && (!e.kwFirst <==> e.mnem == Mnemonic.Gicr) && (!e.kwFirst ==> e.needsRt)
  }

  // The selectors the decoder resolves before the directory.
  predicate AtRctx(t: Row) {
    !t.read && t.crn == 7 && t.crm == 3 && t.op1 == 3 && (t.op2 == 4 || t.op2 == 5 || t.op2 == 7)
  }

  ghost predicate WellFormed(rows: seq<Row>) {
    DistinctNames(rows) && forall i | 0 <= i < |rows| :: WellShaped(rows[i])
  }

  // The two searches as the decoder and the encoder use them.
  function ByRow(t: Option<Row>): Option<SysEntry> {
    match t case None => None case Some(x) => Some(x.entry)
  }

  function ByName(t: Option<Row>): Option<NamedEntry> {
    match t
    case None => None
    case Some(x) => Some(NamedEntry(x.op1, x.crn, x.crm, x.op2, x.entry.needsRt, x.entry.kwFirst))
  }

  function TableOf(rows: seq<Row>): SysTable {
    (read: bool, op1: bv32, crn: bv32, crm: bv32, op2: bv32) => ByRow(Find(rows, 0, read, op1, crn, crm, op2))
  }

  function NamesOf(rows: seq<Row>): SysNames {
    (m: Mnemonic, name: Option<Keyword>) => ByName(FindNamed(rows, 0, m, name))
  }

  lemma {:induction false} FindAt(rows: seq<Row>, i: nat, read: bool, op1: bv32, crn: bv32, crm: bv32, op2: bv32)
    returns (k: nat)
    requires i <= |rows| && Find(rows, i, read, op1, crn, crm, op2).Some?
    ensures i <= k < |rows| && Find(rows, i, read, op1, crn, crm, op2) == Some(rows[k])
    ensures Selects(rows[k], read, op1, crn, crm, op2)
    decreases |rows| - i
  {
    if Selects(rows[i], read, op1, crn, crm, op2) {
      k := i;
    } else {
      k := FindAt(rows, i + 1, read, op1, crn, crm, op2);
    }
  }

  lemma {:induction false} FindNamedAt(rows: seq<Row>, k: nat, i: nat)
    requires i <= k < |rows| && DistinctNames(rows)
    ensures FindNamed(rows, i, rows[k].entry.mnem, rows[k].entry.name) == Some(rows[k])
    decreases k - i
  {
    if i < k { FindNamedAt(rows, k, i + 1); }
  }

  // In a well-formed directory the encoder finds every row the decoder printed.
  lemma DirectoryIsPaired(rows: seq<Row>)
    requires WellFormed(rows)
    ensures Paired(TableOf(rows), NamesOf(rows))
  {
    forall s: SysFields | InRange(s) && EntryOf(s, TableOf(rows)).Some?
                          && (RctxAlias(s).None? || EntryOf(s, TableOf(rows)).value.mnem == Mnemonic.Tlbi)
      ensures EntryPaired(s, EntryOf(s, TableOf(rows)).value, NamesOf(rows))
    {
      var k := FindAt(rows, 0, s.read, s.op1, s.crn, s.crm, s.op2);
      FindNamedAt(rows, k, 0);
      RctxRow(s, rows[k]);
    }
  }

  lemma RctxRow(s: SysFields, t: Row)
    requires Selects(t, s.read, s.op1, s.crn, s.crm, s.op2)
    ensures AtRctx(t) <==> RctxAlias(s).Some?
  {
  }
}
