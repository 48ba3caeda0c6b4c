/** Which operations each mnemonic of the directory has. */
module SysListing {
  import opened Isa
  import opened SysOps

  // The mnemonics of the directory: those with a list, and those with one operation.
  function Listing(): seq<Mnemonic> {
    [At, Brb, Dc, Gic, Gicr, Gsb, Ic, Mlbi, Plbi, Tlbi, Apas, Trcit, Cfp, Dvp, Cosp, Cpp]
  }

  function ListOf(m: Mnemonic): seq<Op> {
    if m.At? then Spelt(AtStems())
    else if m.Brb? then Spelt(BrbStems())
    else if m.Dc? then DcOps()
    else if m.Gic? then Spelt(GicStems())
    else if m.Gicr? then Spelt(GicrStems())
    else if m.Gsb? then Spelt(GsbStems())
    else if m.Ic? then Spelt(IcStems())
    else if m.Mlbi? then Spelt(MlbiStems())
    else if m.Plbi? then Spelt(PlbiStems())
    else if m.Tlbi? then TlbiOps()
    else []
  }

  predicate Alone(m: Mnemonic) { m.Apas? || m.Trcit? || m.Cfp? || m.Dvp? || m.Cosp? || m.Cpp? }

  function SoleOp(m: Mnemonic): Op {
    if m.Apas? then Op("", 6, 7, 0, 0, true)
    else if m.Trcit? then Op("", 3, 7, 2, 7, true)
    else Op("rctx", 3, 7, 3, if m.Cfp? then 4 else if m.Dvp? then 5 else if m.Cosp? then 6 else 7, true)
  }

  function OpsOf(m: Mnemonic): seq<Op> { if Alone(m) then [SoleOp(m)] else ListOf(m) }

  predicate Several(m: Mnemonic) {
    m.At? || m.Brb? || m.Dc? || m.Gic? || m.Gicr? || m.Gsb? || m.Ic? || m.Mlbi? || m.Plbi? || m.Tlbi?
  }

  lemma ListedIs(m: Mnemonic)
    requires m in Listing()
    ensures Alone(m) || Several(m)
  {
    var i :| 0 <= i < |Listing()| && Listing()[i] == m;
    ListingInPlace(i);
  }

  predicate Wordless(m: Mnemonic) { m.Apas? || m.Trcit? }

  // No keyword comes twice, and none is missing unless the mnemonic has none.
  ghost predicate Keyed(s: seq<Op>, wordless: bool) {
    Distinct(s) && forall i | 0 <= i < |s| :: s[i].name == "" <==> wordless
  }

  lemma WithinIsKeyed(s: seq<Op>)
    requires s == [] || Within(s, "!", "~")
    ensures Keyed(s, false)
  {
    forall i | 0 <= i < |s|
      ensures s[i].name != ""
    {
      assert Splits("!", s[i].name, 0);
    }
  }

  lemma SoleName(m: Mnemonic)
    requires Alone(m)
    ensures |SoleOp(m).name| == 0 <==> Wordless(m)
  {
  }

  lemma SoleIsKeyed(t: Op, wordless: bool)
    requires |t.name| == 0 <==> wordless
    ensures Keyed([t], wordless)
  {
  }

  lemma ListWithin(m: Mnemonic)
    ensures ListOf(m) == [] || Within(ListOf(m), "!", "~")
  {
    if m.At? { AtStemsWithin(); }
    else if m.Brb? { BrbStemsWithin(); }
    else if m.Dc? { DcWithin(); }
    else if m.Gic? { GicStemsWithin(); }
    else if m.Gicr? { GicrStemsWithin(); }
    else if m.Gsb? { GsbStemsWithin(); }
    else if m.Ic? { IcStemsWithin(); }
    else if m.Mlbi? { MlbiStemsWithin(); }
    else if m.Plbi? { PlbiStemsWithin(); }
    else if m.Tlbi? { TlbiWithin(); }
  }

  // No mnemonic lists a keyword twice, and two have none.
  lemma OpsAreKeyed(m: Mnemonic)
    ensures Keyed(OpsOf(m), Wordless(m))
  {
    if Alone(m) {
      SoleName(m);
      SoleIsKeyed(SoleOp(m), Wordless(m));
    } else {
      ListWithin(m);
      WithinIsKeyed(ListOf(m));
    }
  }

  function Place(m: Mnemonic): int {
    if m.At? then 0 else if m.Brb? then 1 else if m.Dc? then 2 else if m.Gic? then 3
    else if m.Gicr? then 4 else if m.Gsb? then 5 else if m.Ic? then 6 else if m.Mlbi? then 7
    else if m.Plbi? then 8 else if m.Tlbi? then 9 else if m.Apas? then 10 else if m.Trcit? then 11
    else if m.Cfp? then 12 else if m.Dvp? then 13 else if m.Cosp? then 14 else 15
  }

  lemma ListingInPlace(i: nat)
    requires i < |Listing()|
    ensures Place(Listing()[i]) == i
  {
  }

  lemma ReadersTakeRegister(m: Mnemonic)
    requires m.Gicr?
    ensures forall i | 0 <= i < |OpsOf(m)| :: OpsOf(m)[i].needsRt
  {
    GicrTakesRegister();
  }
}
