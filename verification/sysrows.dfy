/** The rows of `src/tables/sysins.rs`, in whichever order they stand: the decoder and the
    encoder read them in lockstep, which discharges what the theorems of the group ask of
    a directory. */
module SysRows {
  import opened Wrappers
  import opened Isa
  import opened BranchSpec
  import opened BranchEncode
  import opened SysAliasLaws
  import opened SysDirectory
  import opened SysOps
  import SysListing

  function NameOf(name: string): Option<Keyword> {
    if name == "" then None else if name == "rctx" then Some(Keyword.Rctx) else Some(Operation(name))
  }

  // GICR alone reads, and has its register first.
  function RowOf(m: Mnemonic, t: Op): Row {
    Row(m.Gicr?, t.op1, t.crn, t.crm, t.op2, SysEntry(m, NameOf(t.name), t.needsRt, !m.Gicr?))
  }

  function RowsOf(m: Mnemonic, s: seq<Op>): seq<Row> {
    seq(|s|, i requires 0 <= i < |s| => RowOf(m, s[i]))
  }

  // The rows of some mnemonics, given the operations of each.
  function RowsOfAll(ms: seq<Mnemonic>, ops: Mnemonic -> seq<Op>): seq<Row> {
    if ms == [] then [] else RowsOfAll(ms[..|ms| - 1], ops) + RowsOf(ms[|ms| - 1], ops(ms[|ms| - 1]))
  }

  // The rows of the table, in any order.
  ghost predicate Shipped(rows: seq<Row>) {
    multiset(rows) == multiset(RowsOfAll(SysListing.Listing(), SysListing.OpsOf))
  }

  // --- No name comes twice. ---

  lemma RowsAreDistinct(m: Mnemonic, s: seq<Op>)
    requires Distinct(s)
    ensures DistinctNames(RowsOf(m, s))
  {
    forall i, j | 0 <= i < |s| && 0 <= j < |s| && Named(RowsOf(m, s)[j], m, NameOf(s[i].name))
      ensures i == j
    {
      assert s[i].name == s[j].name;
    }
  }

  lemma ApartJoin(x: seq<Row>, y: seq<Row>, m: Mnemonic)
    requires DistinctNames(x) && DistinctNames(y)
    requires forall i | 0 <= i < |x| :: x[i].entry.mnem != m
    requires forall i | 0 <= i < |y| :: y[i].entry.mnem == m
    ensures DistinctNames(x + y)
  {
    var s := x + y;
    forall i, j | 0 <= i < |s| && 0 <= j < |s| && Named(s[j], s[i].entry.mnem, s[i].entry.name)
      ensures i == j
    {
      if i >= |x| && j >= |x| {
        assert Named(y[j - |x|], y[i - |x|].entry.mnem, y[i - |x|].entry.name);
      }
    }
  }

  lemma {:induction false} AllAreDistinct(ms: seq<Mnemonic>, ops: Mnemonic -> seq<Op>)
    requires forall i, j | 0 <= i < j < |ms| :: ms[i] != ms[j]
    requires forall m: Mnemonic :: Distinct(ops(m))
    ensures DistinctNames(RowsOfAll(ms, ops))
    ensures forall i | 0 <= i < |RowsOfAll(ms, ops)| :: RowsOfAll(ms, ops)[i].entry.mnem in ms
  {
    if ms == [] {
    } else {
      var n := |ms| - 1;
      AllAreDistinct(ms[..n], ops);
      RowsAreDistinct(ms[n], ops(ms[n]));
      ApartJoin(RowsOfAll(ms[..n], ops), RowsOf(ms[n], ops(ms[n])), ms[n]);
    }
  }

  lemma ListingIsDistinct()
    ensures DistinctNames(RowsOfAll(SysListing.Listing(), SysListing.OpsOf))
  {
    var ms := SysListing.Listing();
    forall i, j | 0 <= i < j < |ms|
      ensures ms[i] != ms[j]
    {
      SysListing.ListingInPlace(i);
      SysListing.ListingInPlace(j);
    }
    forall m: Mnemonic
      ensures Distinct(SysListing.OpsOf(m))
    {
      SysListing.OpsAreKeyed(m);
    }
    AllAreDistinct(ms, SysListing.OpsOf);
  }

  // --- Any order. ---

  lemma TwiceIn(rows: seq<Row>, i: nat, j: nat)
    requires i < j < |rows| && rows[i] == rows[j]
    ensures multiset(rows)[rows[i]] >= 2
  {
    assert rows == rows[..j] + [rows[j]] + rows[j + 1..];
    assert rows[i] in rows[..j];
  }

  lemma DistinctNamesOnce(rows: seq<Row>, x: Row)
    requires DistinctNames(rows)
    ensures multiset(rows)[x] <= 1
  {
    if i :| 0 <= i < |rows| && rows[i] == x {
      assert rows == rows[..i] + [x] + rows[i + 1..];
      forall j | 0 <= j < |rows| && j != i
        ensures rows[j] != x
      {
        assert Named(rows[j], rows[i].entry.mnem, rows[i].entry.name) ==> i == j;
      }
      assert x !in rows[..i] && x !in rows[i + 1..];
    }
  }

  lemma OrderIsFree(rows: seq<Row>, others: seq<Row>)
    requires DistinctNames(rows) && multiset(rows) == multiset(others)
    ensures DistinctNames(others)
  {
    forall i, j | 0 <= i < |others| && 0 <= j < |others|
                  && Named(others[j], others[i].entry.mnem, others[i].entry.name)
      ensures i == j
    {
      var p := SameRow(rows, others, i);
      var q := SameRow(rows, others, j);
      assert Named(rows[q], rows[p].entry.mnem, rows[p].entry.name);
      DistinctNamesOnce(rows, others[i]);
      if i < j { TwiceIn(others, i, j); }
      if j < i { TwiceIn(others, j, i); }
    }
  }

  lemma SameRow(rows: seq<Row>, others: seq<Row>, i: nat) returns (p: nat)
    requires multiset(rows) == multiset(others) && i < |others|
    ensures p < |rows| && rows[p] == others[i]
  {
    assert others[i] in multiset(others);
    p :| 0 <= p < |rows| && rows[p] == others[i];
  }

  // --- Every row has the operand layout the encoder assumes. ---

  lemma {:induction false} RowIsListed(ms: seq<Mnemonic>, ops: Mnemonic -> seq<Op>, i: nat)
    returns (m: Mnemonic, k: nat)
    requires i < |RowsOfAll(ms, ops)|
    ensures m in ms && k < |ops(m)| && RowsOfAll(ms, ops)[i] == RowOf(m, ops(m)[k])
  {
    var n := |ms| - 1;
    var x := RowsOfAll(ms[..n], ops);
    if i < |x| {
      m, k := RowIsListed(ms[..n], ops, i);
    } else {
      m, k := ms[n], i - |x|;
    }
  }

  // A row of the directory, wherever it stands.
  lemma ShippedRow(rows: seq<Row>, i: nat) returns (m: Mnemonic, k: nat)
    requires Shipped(rows) && i < |rows|
    ensures m in SysListing.Listing() && k < |SysListing.OpsOf(m)| && rows[i] == RowOf(m, SysListing.OpsOf(m)[k])
  {
    var p := SameRow(RowsOfAll(SysListing.Listing(), SysListing.OpsOf), rows, i);
    m, k := RowIsListed(SysListing.Listing(), SysListing.OpsOf, p);
  }

  lemma RowIsShaped(m: Mnemonic, t: Op)
    requires m != Own(Code.Sys) && m != Own(Code.Sysl) && (m.Gicr? ==> t.needsRt)
    requires t.name == "" <==> SysListing.Wordless(m)
    requires m.Cfp? || m.Dvp? || m.Cpp? ==> AtRctx(RowOf(m, t))
    ensures WellShaped(RowOf(m, t))
  {
  }

  lemma SoleAtRctx(m: Mnemonic)
    requires m.Cfp? || m.Dvp? || m.Cpp?
    ensures AtRctx(RowOf(m, SysListing.SoleOp(m)))
  {
  }

  lemma OpIsShaped(m: Mnemonic, k: nat)
    requires m != Own(Code.Sys) && m != Own(Code.Sysl) && k < |SysListing.OpsOf(m)|
    ensures WellShaped(RowOf(m, SysListing.OpsOf(m)[k]))
  {
    SysListing.OpsAreKeyed(m);
    if m.Gicr? { SysListing.ReadersTakeRegister(m); }
    if m.Cfp? || m.Dvp? || m.Cpp? { SoleAtRctx(m); }
    RowIsShaped(m, SysListing.OpsOf(m)[k]);
  }

  lemma ListedMnemonic(m: Mnemonic)
    requires m in SysListing.Listing()
    ensures m != Own(Code.Sys) && m != Own(Code.Sysl)
  {
    SysListing.ListedIs(m);
  }

  // The decoder and the encoder read the shipped rows in lockstep.
  lemma ShippedIsPaired(rows: seq<Row>)
    requires Shipped(rows)
    ensures WellFormed(rows) && Paired(TableOf(rows), NamesOf(rows))
  {
    ListingIsDistinct();
    OrderIsFree(RowsOfAll(SysListing.Listing(), SysListing.OpsOf), rows);
    forall i | 0 <= i < |rows|
      ensures WellShaped(rows[i])
    {
      var m, k := ShippedRow(rows, i);
      ListedMnemonic(m);
      OpIsShaped(m, k);
    }
    DirectoryIsPaired(rows);
  }
}
