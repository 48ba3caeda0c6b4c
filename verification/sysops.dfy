/** `src/tables/sysins.rs`: the operations of the SYS directory, by mnemonic, and that no
    mnemonic lists a keyword twice. Keywords are grouped by a common stem; those of TLBI
    and PLBI are a stem, a shareability scope and an optional "nxs". */
module SysOps {
  // --- Texts. ---

  // From position k on, a comes before b.
  predicate Before(a: string, b: string, k: nat)
    decreases |b| - k
  {
    k < |b| && (k >= |a| || a[k] < b[k] || (a[k] == b[k] && Before(a, b, k + 1)))
  }

  // It does so at a position both have, so that whatever extends a comes before whatever
  // extends b.
  predicate Splits(a: string, b: string, k: nat)
    decreases |b| - k
  {
    k < |a| && k < |b| && (a[k] < b[k] || (a[k] == b[k] && Splits(a, b, k + 1)))
  }

  lemma {:induction false} BeforeIsStrict(a: string, k: nat)
    ensures !Before(a, a, k)
    decreases |a| - k
  {
    if k < |a| { BeforeIsStrict(a, k + 1); }
  }

  lemma {:induction false} BeforeChains(a: string, b: string, c: string, k: nat)
    requires Before(a, b, k) && Before(b, c, k)
    ensures Before(a, c, k)
    decreases |b| - k
  {
    if k < |a| && a[k] == b[k] == c[k] { BeforeChains(a, b, c, k + 1); }
  }

  lemma {:induction false} SplitsChains(a: string, b: string, c: string, k: nat)
    requires Splits(a, b, k) && Splits(b, c, k)
    ensures Splits(a, c, k)
    decreases |b| - k
  {
    if a[k] == b[k] == c[k] { SplitsChains(a, b, c, k + 1); }
  }

  lemma {:induction false} SplitsExtends(a: string, x: string, b: string, y: string, k: nat)
    requires Splits(a, b, k)
    ensures Splits(a + x, b + y, k) && a + x != b + y
    decreases |b| - k
  {
    assert (a + x)[k] == a[k] && (b + y)[k] == b[k];
    if a[k] == b[k] { SplitsExtends(a, x, b, y, k + 1); }
  }

  // --- Lists of operations. ---

  // The keyword, the selector, and whether the operation takes a register.
  datatype Op = Op(name: string, op1: bv32, crn: bv32, crm: bv32, op2: bv32, needsRt: bool)

  datatype Ops = End | One(op: Op, rest: Ops) | Five(a: Op, b: Op, c: Op, d: Op, e: Op, rest: Ops)

  function Listed(l: Ops): seq<Op> {
    match l
    case End => []
    case One(a, rest) => [a] + Listed(rest)
    case Five(a, b, c, d, e, rest) => [a] + ([b] + ([c] + ([d] + ([e] + Listed(rest)))))
  }

  predicate Follows(a: Op, l: Ops) {
    match l
    case End => true
    case One(b, _) => Before(a.name, b.name, 0)
    case Five(b, _, _, _, _, _) => Before(a.name, b.name, 0)
  }

  predicate Ascending(l: Ops) {
    match l
    case End => true
    case One(a, rest) => Follows(a, rest) && Ascending(rest)
    case Five(a, b, c, d, e, rest) =>
      && Before(a.name, b.name, 0) && Before(b.name, c.name, 0) && Before(c.name, d.name, 0)
      && Before(d.name, e.name, 0) && Follows(e, rest) && Ascending(rest)
  }

  ghost predicate Sorted(s: seq<Op>) {
    forall i, j | 0 <= i < j < |s| :: Before(s[i].name, s[j].name, 0)
  }

  ghost predicate Distinct(s: seq<Op>) {
    forall i, j | 0 <= i < j < |s| :: s[i].name != s[j].name
  }

  lemma SortedIsDistinct(s: seq<Op>)
    requires Sorted(s)
    ensures Distinct(s)
  {
    forall i, j | 0 <= i < j < |s|
      ensures s[i].name != s[j].name
    {
      BeforeIsStrict(s[i].name, 0);
    }
  }

  lemma Prepend(a: Op, s: seq<Op>)
    requires Sorted(s) && (s == [] || Before(a.name, s[0].name, 0))
    ensures Sorted([a] + s)
  {
    forall j | 0 <= j < |s|
      ensures Before(a.name, s[j].name, 0)
    {
      if j > 0 { BeforeChains(a.name, s[0].name, s[j].name, 0); }
    }
  }

  lemma {:induction false} AscendingIsSorted(l: Ops)
    requires Ascending(l)
    ensures Sorted(Listed(l))
  {
    match l
    case End =>
    case One(a, rest) =>
      AscendingIsSorted(rest);
      Prepend(a, Listed(rest));
    case Five(a, b, c, d, e, rest) =>
      AscendingIsSorted(rest);
      Prepend(e, Listed(rest));
      Prepend(d, [e] + Listed(rest));
      Prepend(c, [d] + ([e] + Listed(rest)));
      Prepend(b, [c] + ([d] + ([e] + Listed(rest))));
      Prepend(a, [b] + ([c] + ([d] + ([e] + Listed(rest)))));
  }

  // --- Stems. ---

  // The CRm of an operation on this element, the inner and the outer shareable domain.
  datatype Crms = Crms(here: bv32, inner: bv32, outer: bv32)

  // A stem with its endings; or with the six endings of TLBI and PLBI, op2 being
  // another one in the outer domain of some.
  datatype Stems =
    | Done
    | Stem(name: string, endings: Ops, rest: Stems)
    | Scoped(name: string, op1: bv32, crn: bv32, crms: Crms, op2: bv32, outerOp2: bv32, needsRt: bool, rest: Stems)

  // "nxs" is one CRn up for TLBI, and CRm<3> for PLBI.
  function Six(op1: bv32, crn: bv32, crms: Crms, op2: bv32, outerOp2: bv32, needsRt: bool): Ops {
    var up, bit := if crn == 8 then 9 else crn, if crn == 8 then 0 else 8;
    Five(Op("", op1, crn, crms.here, op2, needsRt),
         Op("is", op1, crn, crms.inner, op2, needsRt),
         Op("isnxs", op1, up, crms.inner | bit, op2, needsRt),
         Op("nxs", op1, up, crms.here | bit, op2, needsRt),
         Op("os", op1, crn, crms.outer, outerOp2, needsRt),
         One(Op("osnxs", op1, up, crms.outer | bit, outerOp2, needsRt), End))
  }

  lemma SixAscend(op1: bv32, crn: bv32, crms: Crms, op2: bv32, outerOp2: bv32, needsRt: bool)
    ensures Ascending(Six(op1, crn, crms, op2, outerOp2, needsRt))
  {
    assert Before("", "is", 0) && Before("is", "isnxs", 0) && Before("isnxs", "nxs", 0);
    assert Before("nxs", "os", 0) && Before("os", "osnxs", 0);
  }

  function Under(stem: string, s: seq<Op>): seq<Op> {
    seq(|s|, i requires 0 <= i < |s| => s[i].(name := stem + s[i].name))
  }

  function Spelt(l: Stems): seq<Op> {
    match l
    case Done => []
    case Stem(name, endings, rest) => Under(name, Listed(endings)) + Spelt(rest)
    case Scoped(name, op1, crn, crms, op2, outerOp2, needsRt, rest) =>
      Under(name, Listed(Six(op1, crn, crms, op2, outerOp2, needsRt))) + Spelt(rest)
  }

  // Each stem splits from the next, the first from lo and the last from hi.
  predicate Apart(l: Stems, lo: string, hi: string) {
    match l
    case Done => Splits(lo, hi, 0)
    case Stem(name, endings, rest) => Splits(lo, name, 0) && Ascending(endings) && Apart(rest, name, hi)
    case Scoped(name, _, _, _, _, _, _, rest) => Splits(lo, name, 0) && Apart(rest, name, hi)
  }

  ghost predicate Within(s: seq<Op>, lo: string, hi: string) {
    && Distinct(s) && Splits(lo, hi, 0)
    && forall i | 0 <= i < |s| :: Splits(lo, s[i].name, 0) && Splits(s[i].name, hi, 0)
  }

  lemma UnderIsDistinct(stem: string, s: seq<Op>)
    requires Distinct(s)
    ensures Distinct(Under(stem, s))
  {
    forall i, j | 0 <= i < j < |s|
      ensures stem + s[i].name != stem + s[j].name
    {
      assert (stem + s[i].name)[|stem|..] == s[i].name && (stem + s[j].name)[|stem|..] == s[j].name;
    }
  }

  lemma StemOnTop(stem: string, s: seq<Op>, y: seq<Op>, lo: string, hi: string)
    requires Distinct(s) && Splits(lo, stem, 0) && Within(y, stem, hi)
    ensures Within(Under(stem, s) + y, lo, hi)
  {
    var x := Under(stem, s);
    UnderIsDistinct(stem, s);
    SplitsChains(lo, stem, hi, 0);
    forall i | 0 <= i < |x|
      ensures Splits(lo, x[i].name, 0) && Splits(x[i].name, hi, 0)
    {
      SplitsExtends(lo, "", stem, s[i].name, 0);
      SplitsExtends(stem, s[i].name, hi, "", 0);
      assert lo + "" == lo && hi + "" == hi;
    }
    forall j | 0 <= j < |y|
      ensures Splits(lo, y[j].name, 0)
      ensures forall i | 0 <= i < |x| :: x[i].name != y[j].name
    {
      SplitsChains(lo, stem, y[j].name, 0);
      forall i | 0 <= i < |x|
        ensures x[i].name != y[j].name
      {
        SplitsExtends(stem, s[i].name, y[j].name, "", 0);
        assert y[j].name + "" == y[j].name;
      }
    }
  }

  lemma {:induction false} ApartIsWithin(l: Stems, lo: string, hi: string)
    requires Apart(l, lo, hi)
    ensures Within(Spelt(l), lo, hi)
  {
    match l
    case Done =>
    case Stem(name, endings, rest) =>
      ApartIsWithin(rest, name, hi);
      AscendingIsSorted(endings);
      SortedIsDistinct(Listed(endings));
      StemOnTop(name, Listed(endings), Spelt(rest), lo, hi);
    case Scoped(name, op1, crn, crms, op2, outerOp2, needsRt, rest) =>
      var six := Six(op1, crn, crms, op2, outerOp2, needsRt);
      ApartIsWithin(rest, name, hi);
      SixAscend(op1, crn, crms, op2, outerOp2, needsRt);
      AscendingIsSorted(six);
      SortedIsDistinct(Listed(six));
      StemOnTop(name, Listed(six), Spelt(rest), lo, hi);
  }

  lemma WithinJoin(x: seq<Op>, y: seq<Op>, lo: string, mid: string, hi: string)
    requires Within(x, lo, mid) && Within(y, mid, hi)
    ensures Within(x + y, lo, hi)
  {
    SplitsChains(lo, mid, hi, 0);
    forall i | 0 <= i < |x|
      ensures Splits(x[i].name, hi, 0)
      ensures forall j | 0 <= j < |y| :: x[i].name != y[j].name
    {
      SplitsChains(x[i].name, mid, hi, 0);
      forall j | 0 <= j < |y|
        ensures x[i].name != y[j].name
      {
        SplitsChains(x[i].name, mid, y[j].name, 0);
        SplitsExtends(x[i].name, "", y[j].name, "", 0);
        assert x[i].name + "" == x[i].name && y[j].name + "" == y[j].name;
      }
    }
    forall j | 0 <= j < |y|
      ensures Splits(lo, y[j].name, 0)
    {
      SplitsChains(lo, mid, y[j].name, 0);
    }
  }

  // --- The rows. ---

  function AtStems(): Stems {
    Stem("s12e", One(Op("0r", 4, 7, 8, 6, true), One(Op("0w", 4, 7, 8, 7, true), One(Op("1r", 4, 7, 8, 4, true),
         One(Op("1w", 4, 7, 8, 5, true), End)))),
    Stem("s1e", Five(Op("0r", 0, 7, 8, 2, true), Op("0w", 0, 7, 8, 3, true), Op("1a", 0, 7, 9, 2, true),
         Op("1r", 0, 7, 8, 0, true), Op("1rp", 0, 7, 9, 0, true), Five(Op("1w", 0, 7, 8, 1, true),
         Op("1wp", 0, 7, 9, 1, true), Op("2a", 4, 7, 9, 2, true), Op("2r", 4, 7, 8, 0, true),
         Op("2w", 4, 7, 8, 1, true), One(Op("3a", 6, 7, 9, 2, true), One(Op("3r", 6, 7, 8, 0, true),
         One(Op("3w", 6, 7, 8, 1, true), End))))), Done))
  }

  lemma AtStemsWithin()
    ensures Within(Spelt(AtStems()), "!", "~")
  {
    ApartIsWithin(AtStems(), "!", "~");
  }

  function BrbStems(): Stems {
    Stem("i", One(Op("all", 1, 7, 2, 4, false), One(Op("nj", 1, 7, 2, 5, false), End)), Done)
  }

  lemma BrbStemsWithin()
    ensures Within(Spelt(BrbStems()), "!", "~")
  {
    ApartIsWithin(BrbStems(), "!", "~");
  }

  function DcCg(): Stems {
    Stem("cgd", Five(Op("sw", 0, 7, 10, 6, true), Op("vac", 3, 7, 10, 5, true), Op("vadp", 3, 7, 13, 5, true),
         Op("vaoc", 3, 7, 11, 7, true), Op("vap", 3, 7, 12, 5, true), End),
    Stem("cgs", One(Op("w", 0, 7, 10, 4, true), End),
    Stem("cgv", One(Op("ac", 3, 7, 10, 3, true), One(Op("adp", 3, 7, 13, 3, true),
         One(Op("ap", 3, 7, 12, 3, true), End))), Done)))
  }

  lemma DcCgWithin()
    ensures Within(Spelt(DcCg()), "!", "ch")
  {
    ApartIsWithin(DcCg(), "!", "ch");
  }

  function DcCigd(): Stems {
    Stem("cigd", Five(Op("pae", 4, 7, 14, 7, true), Op("papa", 6, 7, 14, 5, true), Op("sw", 0, 7, 14, 6, true),
         Op("vac", 3, 7, 14, 5, true), Op("vaoc", 3, 7, 15, 7, true), One(Op("vaps", 0, 7, 15, 5, true), End)), Done)
  }

  lemma DcCigdWithin()
    ensures Within(Spelt(DcCigd()), "ch", "cigr")
  {
    ApartIsWithin(DcCigd(), "ch", "cigr");
  }

  function DcCi(): Stems {
    Stem("cigs", One(Op("w", 0, 7, 14, 4, true), End),
    Stem("cigv", One(Op("ac", 3, 7, 14, 3, true), End),
    Stem("cip", One(Op("ae", 4, 7, 14, 0, true), One(Op("apa", 6, 7, 14, 1, true), End)),
    Stem("cis", One(Op("w", 0, 7, 14, 2, true), End),
    Stem("civ", One(Op("ac", 3, 7, 14, 1, true), One(Op("aoc", 3, 7, 15, 0, true),
         One(Op("aps", 0, 7, 15, 1, true), End))), Done)))))
  }

  lemma DcCiWithin()
    ensures Within(Spelt(DcCi()), "cigr", "cj")
  {
    ApartIsWithin(DcCi(), "cigr", "cj");
  }

  function DcRest(): Stems {
    Stem("cs", One(Op("w", 0, 7, 10, 2, true), End),
    Stem("cv", Five(Op("ac", 3, 7, 10, 1, true), Op("adp", 3, 7, 13, 1, true), Op("aoc", 3, 7, 11, 0, true),
         Op("ap", 3, 7, 12, 1, true), Op("au", 3, 7, 11, 1, true), End),
    Stem("g", One(Op("bva", 3, 7, 4, 7, true), One(Op("va", 3, 7, 4, 3, true), One(Op("zva", 3, 7, 4, 4, true),
         End))),
    Stem("i", Five(Op("gdsw", 0, 7, 6, 6, true), Op("gdvac", 0, 7, 6, 5, true), Op("gsw", 0, 7, 6, 4, true),
         Op("gvac", 0, 7, 6, 3, true), Op("sw", 0, 7, 6, 2, true), One(Op("vac", 0, 7, 6, 1, true), End)),
    Stem("z", One(Op("gbva", 3, 7, 4, 5, true), One(Op("va", 3, 7, 4, 1, true), End)), Done)))))
  }

  lemma DcRestWithin()
    ensures Within(Spelt(DcRest()), "cj", "~")
  {
    ApartIsWithin(DcRest(), "cj", "~");
  }

  function GicStems(): Stems {
    Stem("cd", Five(Op("aff", 0, 12, 1, 3, true), Op("di", 0, 12, 2, 0, true), Op("dis", 0, 12, 1, 0, true),
         Op("en", 0, 12, 1, 1, true), Op("eoi", 0, 12, 1, 7, false), One(Op("hm", 0, 12, 2, 1, true),
         One(Op("pend", 0, 12, 1, 4, true), One(Op("pri", 0, 12, 1, 2, true), One(Op("rcfg", 0, 12, 1, 5, true),
         End))))),
    Stem("ld", Five(Op("aff", 6, 12, 1, 3, true), Op("di", 6, 12, 2, 0, true), Op("dis", 6, 12, 1, 0, true),
         Op("en", 6, 12, 1, 1, true), Op("hm", 6, 12, 2, 1, true), One(Op("pend", 6, 12, 1, 4, true),
         One(Op("pri", 6, 12, 1, 2, true), One(Op("rcfg", 6, 12, 1, 5, true), End)))),
    Stem("vd", Five(Op("aff", 4, 12, 1, 3, true), Op("di", 4, 12, 2, 0, true), Op("dis", 4, 12, 1, 0, true),
         Op("en", 4, 12, 1, 1, true), Op("hm", 4, 12, 2, 1, true), One(Op("pend", 4, 12, 1, 4, true),
         One(Op("pri", 4, 12, 1, 2, true), One(Op("rcfg", 4, 12, 1, 5, true), End)))), Done)))
  }

  lemma GicStemsWithin()
    ensures Within(Spelt(GicStems()), "!", "~")
  {
    ApartIsWithin(GicStems(), "!", "~");
  }

  function GicrStems(): Stems {
    Stem("cd", One(Op("ia", 0, 12, 3, 0, true), One(Op("nmia", 0, 12, 3, 1, true), End)), Done)
  }

  lemma GicrStemsWithin()
    ensures Within(Spelt(GicrStems()), "!", "~")
  {
    ApartIsWithin(GicrStems(), "!", "~");
  }

  function GsbStems(): Stems {
    Stem("ack", One(Op("", 0, 12, 0, 1, false), End),
    Stem("sys", One(Op("", 0, 12, 0, 0, false), End), Done))
  }

  lemma GsbStemsWithin()
    ensures Within(Spelt(GsbStems()), "!", "~")
  {
    ApartIsWithin(GsbStems(), "!", "~");
  }

  function IcStems(): Stems {
    Stem("i", One(Op("allu", 0, 7, 5, 0, false), One(Op("alluis", 0, 7, 1, 0, false),
         One(Op("vau", 3, 7, 5, 1, true), End))), Done)
  }

  lemma IcStemsWithin()
    ensures Within(Spelt(IcStems()), "!", "~")
  {
    ApartIsWithin(IcStems(), "!", "~");
  }

  function MlbiStems(): Stems {
    Stem("alle1", One(Op("", 4, 7, 0, 4, false), End),
    Stem("v", One(Op("malle1", 4, 7, 0, 5, false), One(Op("pide1", 4, 7, 0, 6, true),
         One(Op("pmge1", 4, 7, 0, 7, true), End))), Done))
  }

  lemma MlbiStemsWithin()
    ensures Within(Spelt(MlbiStems()), "!", "~")
  {
    ApartIsWithin(MlbiStems(), "!", "~");
  }

  function PlbiStems(): Stems {
    Scoped("alle1", 4, 10, Crms(7, 3, 1), 4, 4, false,
    Scoped("alle2", 4, 10, Crms(7, 3, 1), 0, 0, false,
    Scoped("alle3", 6, 10, Crms(7, 3, 1), 0, 0, false,
    Scoped("aside1", 0, 10, Crms(7, 3, 1), 2, 2, true,
    Scoped("permae1", 0, 10, Crms(7, 3, 1), 3, 3, true,
    Scoped("perme1", 0, 10, Crms(7, 3, 1), 1, 1, true,
    Scoped("perme2", 4, 10, Crms(7, 3, 1), 1, 1, true,
    Scoped("perme3", 6, 10, Crms(7, 3, 1), 1, 1, true,
    Scoped("vmalle1", 0, 10, Crms(7, 3, 1), 0, 0, false, Done)))))))))
  }

  lemma PlbiStemsWithin()
    ensures Within(Spelt(PlbiStems()), "!", "~")
  {
    ApartIsWithin(PlbiStems(), "!", "~");
  }

  function TlbiAtoP(): Stems {
    Scoped("alle1", 4, 8, Crms(7, 3, 1), 4, 4, false,
    Scoped("alle2", 4, 8, Crms(7, 3, 1), 0, 0, false,
    Scoped("alle3", 6, 8, Crms(7, 3, 1), 0, 0, false,
    Scoped("aside1", 0, 8, Crms(7, 3, 1), 2, 2, true,
    Scoped("ipas2e1", 4, 8, Crms(4, 0, 4), 1, 0, true,
    Scoped("ipas2le1", 4, 8, Crms(4, 0, 4), 5, 4, true,
    Stem("paall", One(Op("", 6, 8, 7, 4, false), One(Op("nxs", 6, 9, 7, 4, false),
         One(Op("os", 6, 8, 1, 4, false), One(Op("osnxs", 6, 9, 1, 4, false), End)))), Done)))))))
  }

  lemma TlbiAtoPWithin()
    ensures Within(Spelt(TlbiAtoP()), "!", "q")
  {
    ApartIsWithin(TlbiAtoP(), "!", "q");
  }

  function TlbiRi(): Stems {
    Scoped("ripas2e1", 4, 8, Crms(4, 0, 4), 2, 3, true,
    Scoped("ripas2le1", 4, 8, Crms(4, 0, 4), 6, 7, true,
    Stem("rpa", One(Op("los", 6, 8, 4, 7, true), One(Op("losnxs", 6, 9, 4, 7, true),
         One(Op("os", 6, 8, 4, 3, true), One(Op("osnxs", 6, 9, 4, 3, true), End)))),
    Scoped("rvaae1", 0, 8, Crms(6, 2, 5), 3, 3, true,
    Scoped("rvaale1", 0, 8, Crms(6, 2, 5), 7, 7, true, Done)))))
  }

  lemma TlbiRiWithin()
    ensures Within(Spelt(TlbiRi()), "q", "rvab")
  {
    ApartIsWithin(TlbiRi(), "q", "rvab");
  }

  function TlbiRv(): Stems {
    Scoped("rvae1", 0, 8, Crms(6, 2, 5), 1, 1, true,
    Scoped("rvae2", 4, 8, Crms(6, 2, 5), 1, 1, true,
    Scoped("rvae3", 6, 8, Crms(6, 2, 5), 1, 1, true,
    Scoped("rvale1", 0, 8, Crms(6, 2, 5), 5, 5, true,
    Scoped("rvale2", 4, 8, Crms(6, 2, 5), 5, 5, true,
    Scoped("rvale3", 6, 8, Crms(6, 2, 5), 5, 5, true, Done))))))
  }

  lemma TlbiRvWithin()
    ensures Within(Spelt(TlbiRv()), "rvab", "t")
  {
    ApartIsWithin(TlbiRv(), "rvab", "t");
  }

  function TlbiVa(): Stems {
    Scoped("vaae1", 0, 8, Crms(7, 3, 1), 3, 3, true,
    Scoped("vaale1", 0, 8, Crms(7, 3, 1), 7, 7, true,
    Scoped("vae1", 0, 8, Crms(7, 3, 1), 1, 1, true,
    Scoped("vae2", 4, 8, Crms(7, 3, 1), 1, 1, true,
    Scoped("vae3", 6, 8, Crms(7, 3, 1), 1, 1, true,
    Scoped("vale1", 0, 8, Crms(7, 3, 1), 5, 5, true,
    Scoped("vale2", 4, 8, Crms(7, 3, 1), 5, 5, true,
    Scoped("vale3", 6, 8, Crms(7, 3, 1), 5, 5, true, Done))))))))
  }

  lemma TlbiVaWithin()
    ensures Within(Spelt(TlbiVa()), "t", "vb")
  {
    ApartIsWithin(TlbiVa(), "t", "vb");
  }

  function TlbiVm(): Stems {
    Scoped("vmalle1", 0, 8, Crms(7, 3, 1), 0, 0, false,
    Scoped("vmalls12e1", 4, 8, Crms(7, 3, 1), 6, 6, false,
    Scoped("vmallws2e1", 4, 8, Crms(6, 2, 5), 2, 2, false, Done)))
  }

  lemma TlbiVmWithin()
    ensures Within(Spelt(TlbiVm()), "vb", "~")
  {
    ApartIsWithin(TlbiVm(), "vb", "~");
  }

  // --- The operations of a mnemonic. ---

  lemma GicrTakesRegister()
    ensures forall i | 0 <= i < |Spelt(GicrStems())| :: Spelt(GicrStems())[i].needsRt
  {
  }

  function DcOps(): seq<Op> { Spelt(DcCg()) + Spelt(DcCigd()) + Spelt(DcCi()) + Spelt(DcRest()) }

  lemma DcWithin()
    ensures Within(DcOps(), "!", "~")
  {
    DcCgWithin();
    DcCigdWithin();
    DcCiWithin();
    DcRestWithin();
    WithinJoin(Spelt(DcCg()), Spelt(DcCigd()), "!", "ch", "cigr");
    WithinJoin(Spelt(DcCg()) + Spelt(DcCigd()), Spelt(DcCi()), "!", "cigr", "cj");
    WithinJoin(Spelt(DcCg()) + Spelt(DcCigd()) + Spelt(DcCi()), Spelt(DcRest()), "!", "cj", "~");
  }

  function TlbiR(): seq<Op> { Spelt(TlbiRi()) + Spelt(TlbiRv()) }

  lemma TlbiRWithin()
    ensures Within(TlbiR(), "q", "t")
  {
    TlbiRiWithin();
    TlbiRvWithin();
    WithinJoin(Spelt(TlbiRi()), Spelt(TlbiRv()), "q", "rvab", "t");
  }

  function TlbiV(): seq<Op> { Spelt(TlbiVa()) + Spelt(TlbiVm()) }

  lemma TlbiVWithin()
    ensures Within(TlbiV(), "t", "~")
  {
    TlbiVaWithin();
    TlbiVmWithin();
    WithinJoin(Spelt(TlbiVa()), Spelt(TlbiVm()), "t", "vb", "~");
  }

  function TlbiOps(): seq<Op> { Spelt(TlbiAtoP()) + TlbiR() + TlbiV() }

  lemma TlbiWithin()
    ensures Within(TlbiOps(), "!", "~")
  {
    TlbiAtoPWithin();
    TlbiRWithin();
    TlbiVWithin();
    WithinJoin(Spelt(TlbiAtoP()), TlbiR(), "!", "q", "t");
    WithinJoin(Spelt(TlbiAtoP()) + TlbiR(), TlbiV(), "!", "t", "~");
  }
}
