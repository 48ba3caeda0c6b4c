/** `src/sysreg.rs`: system-register selectors, packed into sixteen bits and rendered as
    text. */
module SystemRegisters {
  import opened Wrappers
  import opened BranchSpec
  import Ints

  // --- The packed selector. ---

  function Op0(r: bv32): bv32 { (r >> 14) & 3 }

  function Op1(r: bv32): bv32 { (r >> 11) & 7 }

  function CRn(r: bv32): bv32 { (r >> 7) & 15 }

  function CRm(r: bv32): bv32 { (r >> 3) & 15 }

  function Op2(r: bv32): bv32 { r & 7 }

  // A selector is its fields...
  lemma PackOfFields(r: bv32)
    requires r < 0x1_0000
    ensures SysRegOf(Op0(r), Op1(r), CRn(r), CRm(r), Op2(r)) == r
  {
  }

  // ...and keeps exactly the fields that fit: two bits of op0, whatever is announced
  // for it.
  lemma FieldsOfPack(op0: bv32, op1: bv32, crn: bv32, crm: bv32, op2: bv32)
    ensures var r := SysRegOf(op0, op1, crn, crm, op2);
            && r < 0x1_0000
            && (Op0(r) == op0 <==> op0 < 4) && (Op1(r) == op1 <==> op1 < 8) && (CRn(r) == crn <==> crn < 16)
            && (CRm(r) == crm <==> crm < 16) && (Op2(r) == op2 <==> op2 < 8)
  {
  }

  lemma FieldRanges(r: bv32)
    ensures Op0(r) as int < 4 && Op1(r) as int < 8 && CRn(r) as int < 16
    ensures CRm(r) as int < 16 && Op2(r) as int < 8
  {
  }

  // --- Decimal digits. ---

  function Digit(d: nat): char
    requires d < 10
  {
    '0' + (d as char)
  }

  // The canonical decimal form.
  function Decimal(n: nat): (s: string)
    ensures s != []
  {
    if n < 10 then [Digit(n)] else Decimal(n / 10) + [Digit(n % 10)]
  }

  function ValueOf(s: string): int {
    if s == [] then 0 else 10 * ValueOf(s[..|s| - 1]) + (s[|s| - 1] as int - '0' as int)
  }

  predicate IsDigit(c: char) { '0' <= c <= '9' }

  // It is canonical: digits only, read back as the number, without a leading zero.
  lemma {:induction false} DecimalIsCanonical(n: nat)
    ensures forall i | 0 <= i < |Decimal(n)| :: IsDigit(Decimal(n)[i])
    ensures ValueOf(Decimal(n)) == n
    ensures Decimal(n)[0] == '0' <==> n == 0
  {
    if n >= 10 {
      DecimalIsCanonical(n / 10);
      assert Decimal(n)[..|Decimal(n)| - 1] == Decimal(n / 10);
      assert Decimal(n)[0] == Decimal(n / 10)[0];
    } else {
      assert Decimal(n)[..0] == [];
      assert ValueOf([]) == 0;
    }
  }

  function Pow10(k: nat): nat { if k == 0 then 1 else 10 * Pow10(k - 1) }

  lemma DecimalInjective(m: nat, n: nat)
    requires Decimal(m) == Decimal(n)
    ensures m == n
  {
    DecimalIsCanonical(m);
    DecimalIsCanonical(n);
  }

  // --- Writing into a byte buffer. ---

  class ByteSink {
    const buf: array<char>
    var len: nat
    var ok: bool

    ghost predicate Valid()
      reads this
    {
      len <= buf.Length
    }

    ghost function Text(): string
      requires Valid()
      reads this, buf
    {
      buf[..len]
    }

    constructor (buf: array<char>)
      ensures this.buf == buf && Valid() && Text() == "" && ok
    {
      this.buf := buf;
      len, ok := 0, true;
    }

    // All of s or nothing; a refusal is remembered.
    method WriteStr(s: string) returns (done: bool)
      requires Valid()
      modifies this, buf
      ensures Valid()
      ensures done == (|old(Text())| + |s| <= buf.Length)
      ensures Text() == if done then old(Text()) + s else old(Text())
      ensures ok == (old(ok) && done)
    {
      if len + |s| > buf.Length {
        ok := false;
        return false;
      }
      forall i | 0 <= i < |s| { buf[len + i] := s[i]; }
      len := len + |s|;
      return true;
    }

    // write_dec: the digits go through ten bytes of scratch.
    method WriteDec(n: nat) returns (done: bool)
      requires Valid() && n < 0x1_0000_0000
      modifies this, buf
      ensures Valid()
      ensures done == (|old(Text())| + |Decimal(n)| <= buf.Length)
      ensures Text() == if done then old(Text()) + Decimal(n) else old(Text())
      ensures ok == (old(ok) && done)
    {
      if n == 0 {
        done := WriteStr("0");
        return;
      }
      var tmp, i := LayDigits(n);
      done := WriteStr(tmp[i..]);
    }
  }

  // The scratch of write_dec.
  method LayDigits(n: nat) returns (tmp: array<char>, i: nat)
    requires 0 < n < 0x1_0000_0000
    ensures fresh(tmp) && tmp.Length == 10 && i <= 10
    ensures tmp[i..] == Decimal(n)
  {
    tmp := new char[10](_ => '0');
    var v := n;
    i := tmp.Length;
    PowTen();
    ghost var whole := Decimal(n);
    while v > 0
      invariant i <= tmp.Length && v < Pow10(i)
      invariant whole == (if v > 0 then Decimal(v) else "") + tmp[i..]
      decreases v
    {
      ghost var laid := tmp[i..];
      i := i - 1;
      tmp[i] := Digit(v % 10);
      assert tmp[i..] == [Digit(v % 10)] + laid;
      NextDigit(v, i, laid);
      v := v / 10;
    }
  }

  // Laying one digit keeps what is laid and what is left to lay.
  lemma NextDigit(v: nat, i: nat, laid: string)
    requires 0 < v < Pow10(i + 1)
    ensures v / 10 < Pow10(i)
    ensures Decimal(v) + laid == (if v / 10 > 0 then Decimal(v / 10) else "") + ([Digit(v % 10)] + laid)
  {
    if v >= 10 { assert Decimal(v) == Decimal(v / 10) + [Digit(v % 10)]; }
  }

  lemma PowTen()
    ensures Pow10(10) == 10_000_000_000
  {
    assert Pow10(5) == 100_000;
    assert Pow10(10) == 100_000 * Pow10(5);
  }

  // --- Rendering. ---

  // The name directory.
  type Names = bv32 -> Option<string>

  datatype Selector = Selector(op0: nat, op1: nat, crn: nat, crm: nat, op2: nat)

  function Split(r: bv32): Selector {
    Selector(Op0(r) as int, Op1(r) as int, CRn(r) as int, CRm(r) as int, Op2(r) as int)
  }

  // render's generic form, without the leading s that its documentation shows.
  function Generic(s: Selector): string {
    Decimal(s.op0) + "_" + Decimal(s.op1) + "_c" + Decimal(s.crn) + "_c" + Decimal(s.crm) + "_" + Decimal(s.op2)
  }

  function GenericText(r: bv32): string { Generic(Split(r)) }

  // What render writes, and the complete token of render_to.
  function Rendered(r: bv32, names: Names): string {
    match names(r)
    case Some(n) => n
    case None => GenericText(r)
  }

  function Token(r: bv32, names: Names): string {
    match names(r)
    case Some(n) => n
    case None => "s" + GenericText(r)
  }

  lemma SplitOfFields(op0: bv32, op1: bv32, crn: bv32, crm: bv32, op2: bv32)
    requires op0 < 4 && op1 < 8 && crn < 16 && crm < 16 && op2 < 8
    ensures Split(SysRegOf(op0, op1, crn, crm, op2)) ==
            Selector(op0 as int, op1 as int, crn as int, crm as int, op2 as int)
  {
    FieldsOfPack(op0, op1, crn, crm, op2);
  }

  lemma InOrder(a: string, b: string, c: string, d: string, e: string)
    ensures "s" + (a + "_" + b + "_c" + c + "_c" + d + "_" + e) == "s" + a + "_" + b + "_c" + c + "_c" + d + "_" + e
  {
  }

  // What a register without a name is written as: its five fields in decimal, in order.
  lemma UnnamedToken(op0: bv32, op1: bv32, crn: bv32, crm: bv32, op2: bv32, names: Names)
    requires op0 < 4 && op1 < 8 && crn < 16 && crm < 16 && op2 < 8
    requires names(SysRegOf(op0, op1, crn, crm, op2)).None?
    ensures Token(SysRegOf(op0, op1, crn, crm, op2), names) ==
            "s" + Decimal(op0 as int) + "_" + Decimal(op1 as int) + "_c" + Decimal(crn as int) + "_c"
            + Decimal(crm as int) + "_" + Decimal(op2 as int)
    ensures "s" + Rendered(SysRegOf(op0, op1, crn, crm, op2), names) == Token(SysRegOf(op0, op1, crn, crm, op2), names)
  {
    SplitOfFields(op0, op1, crn, crm, op2);
    InOrder(Decimal(op0 as int), Decimal(op1 as int), Decimal(crn as int), Decimal(crm as int), Decimal(op2 as int));
  }

  // A register with a name is written as its name.
  lemma NamedToken(r: bv32, names: Names, name: string)
    requires names(r) == Some(name)
    ensures Token(r, names) == Rendered(r, names) == name
  {
  }

  // A field and the mark after it.
  method WriteField(n: nat, mark: string, sink: ByteSink) returns (done: bool)
    requires sink.Valid() && n < 16
    modifies sink, sink.buf
    ensures sink.Valid()
    ensures done == (|old(sink.Text())| + |Decimal(n) + mark| <= sink.buf.Length)
    ensures done ==> sink.Text() == old(sink.Text()) + (Decimal(n) + mark)
    ensures sink.ok == (old(sink.ok) && done)
  {
    done := sink.WriteDec(n);
    if !done { return; }
    done := sink.WriteStr(mark);
  }

  // Two fields and their marks.
  method WriteFields(m: nat, n: nat, markM: string, markN: string, sink: ByteSink) returns (done: bool)
    requires sink.Valid() && m < 16 && n < 16
    modifies sink, sink.buf
    ensures sink.Valid()
    ensures done == (|old(sink.Text())| + |Decimal(m) + markM| + |Decimal(n) + markN| <= sink.buf.Length)
    ensures done ==> sink.Text() == old(sink.Text()) + (Decimal(m) + markM) + (Decimal(n) + markN)
    ensures sink.ok == (old(sink.ok) && done)
  {
    done := WriteField(m, markM, sink);
    if !done { return; }
    done := WriteField(n, markN, sink);
  }

  // Stops at the first piece that does not fit.
  method RenderGeneric(s: Selector, sink: ByteSink) returns (done: bool)
    requires sink.Valid() && s.op0 < 16 && s.op1 < 16 && s.crn < 16 && s.crm < 16 && s.op2 < 16
    modifies sink, sink.buf
    ensures sink.Valid()
    ensures done == (|old(sink.Text())| + |Generic(s)| <= sink.buf.Length)
    ensures done ==> sink.Text() == old(sink.Text()) + Generic(s)
    ensures sink.ok == (old(sink.ok) && done)
  {
    ghost var text := sink.Text();
    done := WriteFields(s.op0, s.op1, "_", "_c", sink);
    if !done { return; }
    done := WriteFields(s.crn, s.crm, "_c", "_", sink);
    if !done { return; }
    done := sink.WriteDec(s.op2);
    if done { FieldsMakeGeneric(text, s); }
  }

  lemma FieldsMakeGeneric(text: string, s: Selector)
    ensures text + (Decimal(s.op0) + "_") + (Decimal(s.op1) + "_c") + (Decimal(s.crn) + "_c") + (Decimal(s.crm) + "_")
            + Decimal(s.op2) == text + Generic(s)
  {
  }

  method Render(r: bv32, names: Names, sink: ByteSink) returns (done: bool)
    requires sink.Valid()
    modifies sink, sink.buf
    ensures sink.Valid()
    ensures done == (|old(sink.Text())| + |Rendered(r, names)| <= sink.buf.Length)
    ensures done ==> sink.Text() == old(sink.Text()) + Rendered(r, names)
    ensures sink.ok == (old(sink.ok) && done)
  {
    var name := names(r);
    if name.Some? {
      done := sink.WriteStr(name.value);
    } else {
      FieldRanges(r);
      done := RenderGeneric(Split(r), sink);
    }
  }

  // The token, or None exactly when the buffer is too small for it.
  method RenderTo(r: bv32, names: Names, buf: array<char>) returns (text: Option<string>)
    modifies buf
    ensures text == if |Token(r, names)| <= buf.Length then Some(Token(r, names)) else None
    ensures text.Some? ==> buf[..|Token(r, names)|] == Token(r, names)
  {
    var name := names(r);
    if name.Some? {
      if |name.value| > buf.Length {
        return None;
      }
      forall i | 0 <= i < |name.value| { buf[i] := name.value[i]; }
      assert buf[..|name.value|] == name.value;
      return Some(buf[..|name.value|]);
    }
    var sink := new ByteSink(buf);
    var done := sink.WriteStr("s");
    assert done ==> sink.Text() == "s";
    done := Render(r, names, sink);
    if !sink.ok {
      return None;
    }
    assert sink.Text() == Token(r, names);
    return Some(buf[..sink.len]);
  }

  // --- No two generic forms are alike. ---

  predicate NoUnderscore(s: string) { forall i | 0 <= i < |s| :: s[i] != '_' }

  lemma DecimalHasNone(n: nat)
    ensures NoUnderscore(Decimal(n))
  {
    DecimalIsCanonical(n);
  }

  lemma MarkIsOutside(b: string, whole: string, i: nat)
    requires NoUnderscore(b) && b <= whole && i < |whole| && whole[i] == '_'
    ensures |b| <= i
  {
    assert forall j | 0 <= j < |b| :: whole[j] == b[j];
  }

  // Text up to a mark is determined by the whole.
  lemma SplitAtMark(a: string, b: string, m: string, s: string, t: string)
    requires NoUnderscore(a) && NoUnderscore(b) && m != "" && m[0] == '_' && a + m + s == b + m + t
    ensures a == b && s == t
  {
    var whole := a + m + s;
    assert whole[|a|] == '_' && whole == b + m + t && whole[|b|] == '_';
    MarkIsOutside(b, whole, |a|);
    MarkIsOutside(a, whole, |b|);
    assert whole[..|a|] == a && whole[..|b|] == b;
    assert whole[|a| + |m|..] == s && whole[|b| + |m|..] == t;
  }

  lemma SplitDecimal(i: nat, j: nat, m: string, s: string, t: string)
    requires m != "" && m[0] == '_' && Decimal(i) + m + s == Decimal(j) + m + t
    ensures i == j && s == t
  {
    DecimalHasNone(i);
    DecimalHasNone(j);
    SplitAtMark(Decimal(i), Decimal(j), m, s, t);
    DecimalInjective(i, j);
  }

  // The generic form after op0, op1 and so on.
  function Tail3(s: Selector): string { Decimal(s.crm) + "_" + Decimal(s.op2) }

  function Tail2(s: Selector): string { Decimal(s.crn) + "_c" + Tail3(s) }

  function Tail1(s: Selector): string { Decimal(s.op1) + "_c" + Tail2(s) }

  lemma GenericInParts(s: Selector)
    ensures Generic(s) == Decimal(s.op0) + "_" + Tail1(s)
  {
  }

  // The generic form determines the fields.
  lemma GenericInjective(a: Selector, b: Selector)
    requires Generic(a) == Generic(b)
    ensures a == b
  {
    GenericInParts(a);
    GenericInParts(b);
    SplitDecimal(a.op0, b.op0, "_", Tail1(a), Tail1(b));
    SplitDecimal(a.op1, b.op1, "_c", Tail2(a), Tail2(b));
    SplitDecimal(a.crn, b.crn, "_c", Tail3(a), Tail3(b));
    SplitDecimal(a.crm, b.crm, "_", Decimal(a.op2), Decimal(b.op2));
    DecimalInjective(a.op2, b.op2);
  }

  lemma SameNumber(x: bv32, y: bv32)
    requires x as int == y as int
    ensures x == y
  {
    Ints.NumberOf32(x);
    Ints.NumberOf32(y);
  }

  lemma SplitInjective(a: bv32, b: bv32)
    requires a < 0x1_0000 && b < 0x1_0000 && Split(a) == Split(b)
    ensures a == b
  {
    SameNumber(Op0(a), Op0(b));
    SameNumber(Op1(a), Op1(b));
    SameNumber(CRn(a), CRn(b));
    SameNumber(CRm(a), CRm(b));
    SameNumber(Op2(a), Op2(b));
    PackOfFields(a);
    PackOfFields(b);
  }

  // Two different registers without a name never render alike, with or without the s.
  lemma UnnamedNeverAlike(a: bv32, b: bv32, names: Names)
    requires a < 0x1_0000 && b < 0x1_0000 && names(a).None? && names(b).None?
    ensures Rendered(a, names) == Rendered(b, names) <==> a == b
    ensures Token(a, names) == Token(b, names) <==> a == b
  {
    var s, t := Split(a), Split(b);
    assert Token(a, names)[1..] == Generic(s) && Token(b, names)[1..] == Generic(t);
    if Generic(s) == Generic(t) {
      GenericInjective(s, t);
      SplitInjective(a, b);
    }
  }

  lemma OneOrTwoDigits(n: nat)
    requires n < 16
    ensures |Decimal(n)| == if n < 10 then 1 else 2
  {
  }

  lemma GenericLength(s: Selector)
    requires s.op0 < 4 && s.op1 < 8 && s.crn < 16 && s.crm < 16 && s.op2 < 8
    ensures |Generic(s)| == 11 + (if s.crn < 10 then 0 else 1) + (if s.crm < 10 then 0 else 1)
  {
    OneOrTwoDigits(s.op0);
    OneOrTwoDigits(s.op1);
    OneOrTwoDigits(s.crn);
    OneOrTwoDigits(s.crm);
    OneOrTwoDigits(s.op2);
  }

  // Fourteen bytes hold the token of every unnamed register; twelve hold the shortest.
  lemma FourteenBytes(r: bv32, names: Names)
    requires names(r).None?
    ensures 12 <= |Token(r, names)| <= 14
    ensures |Token(r, names)| == 14 <==> Split(r).crn >= 10 && Split(r).crm >= 10
  {
    FieldRanges(r);
    GenericLength(Split(r));
  }
}
