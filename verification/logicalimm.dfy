/** Which words are bitmask immediates, and the encoder `src/encode/bits.rs` that
    recovers their fields. */
module LogicalImm {
  import opened Word64
  import opened Wrappers
  import opened Bits

  // What the encoder returns for one element, and for a whole immediate.
  datatype Rotation = Rotation(immr: nat, s: nat)
  datatype Fields = Fields(immN: nat, immr: nat, imms: nat)

  predicate IsSize(e: nat) { e == 2 || e == 4 || e == 8 || e == 16 || e == 32 || e == 64 }

  predicate IsDatasize(m: nat) { m == 32 || m == 64 }

  // v is s + 1 ones in every e positions (neither none nor all), rotated by r,
  // repeated over the low m positions.
  ghost predicate IsRun(v: Word, m: nat, e: nat, s: nat, r: nat) {
    IsSize(e) && e <= m && s + 1 < e && r < e && v == RunPattern(m, e, s, r)
  }

  ghost predicate IsLogical(v: Word, m: nat) {
    exists e: nat, s: nat, r: nat :: IsRun(v, m, e, s, r)
  }

  // --- A run is read off in one way only. ---

  function On(e: nat, s: nat, r: nat, i: nat): bool
    requires e > 0
  {
    (i + r) % e <= s
  }

  // A position that is set while the one before it is not: the start of a run.
  predicate Rises(e: nat, s: nat, r: nat, i: nat)
    requires e > 0
  {
    On(e, s, r, i + 1) && !On(e, s, r, i)
  }

  lemma RisesAtStart(e: nat, s: nat, r: nat, i: nat)
    requires e > 1 && s + 1 < e
    ensures Rises(e, s, r, i) <==> (i + 1 + r) % e == 0
  {
    var a := i + r;
    if a % e == e - 1 {
      ModUnique(a + 1, a / e + 1, 0, e);
    } else {
      ModUnique(a + 1, a / e, a % e + 1, e);
    }
  }

  lemma MultipleVanishes(x: nat, q: nat, e: nat)
    requires e > 0
    ensures (x + q * e) % e == x % e
  {
    assert (x / e + q) * e == (x / e) * e + q * e;
    ModUnique(x + q * e, x / e + q, x % e, e);
  }

  lemma Regroup(a: nat, k: nat, e: nat)
    ensures a * k * e == a * (k * e)
  {
  }

  lemma Periodic(e: nat, s: nat, r: nat, i: nat, m: nat)
    requires IsSize(e) && IsDatasize(m) && e <= m
    ensures On(e, s, r, i % m) == On(e, s, r, i)
  {
    var a, k := i / m, m / e;
    SizeDivides(e, m);
    Regroup(a, k, e);
    assert i + r == i % m + r + a * k * e;
    MultipleVanishes(i % m + r, a * k, e);
  }

  lemma SizeDivides(e: nat, m: nat)
    requires IsSize(e) && IsDatasize(m) && e <= m
    ensures (m / e) * e == m
  {
    if e == 2 {} else if e == 4 {} else if e == 8 {} else if e == 16 {} else if e == 32 {} else {}
  }

  // Equal patterns agree at every natural position, not just below m.
  lemma AgreeEverywhere(m: nat, e: nat, s: nat, r: nat, e': nat, s': nat, r': nat, i: nat)
    requires IsDatasize(m) && IsSize(e) && IsSize(e') && e <= m && e' <= m
    requires RunPattern(m, e, s, r) == RunPattern(m, e', s', r')
    ensures On(e, s, r, i) == On(e', s', r', i)
  {
    Periodic(e, s, r, i, m);
    Periodic(e', s', r', i, m);
    var j := i % m;
    assert RunPattern(m, e, s, r)[j] == On(e, s, r, j);
    assert RunPattern(m, e', s', r')[j] == On(e', s', r', j);
  }

  // The start of a run of pattern (e, s, r) and the start one element later are
  // both starts of (e', s', r'), so e' divides e.
  lemma StartsCoincide(m: nat, e: nat, s: nat, r: nat, e': nat, s': nat, r': nat)
    requires IsDatasize(m)
    requires IsSize(e) && e <= m && s + 1 < e && r < e
    requires IsSize(e') && e' <= m && s' + 1 < e' && r' < e'
    requires RunPattern(m, e, s, r) == RunPattern(m, e', s', r')
    ensures e % e' == 0 && (e - r + r') % e' == 0
  {
    var i := e - r - 1;
    ModUnique(i + 1 + r, 1, 0, e);
    ModUnique(i + e + 1 + r, 2, 0, e);
    StartIsShared(m, e, s, r, e', s', r', i);
    StartIsShared(m, e, s, r, e', s', r', i + e);
    DifferenceDivides(i + 1 + r', e, e');
  }

  lemma StartIsShared(m: nat, e: nat, s: nat, r: nat, e': nat, s': nat, r': nat, i: nat)
    requires IsDatasize(m)
    requires IsSize(e) && e <= m && s + 1 < e
    requires IsSize(e') && e' <= m && s' + 1 < e'
    requires RunPattern(m, e, s, r) == RunPattern(m, e', s', r')
    requires (i + 1 + r) % e == 0
    ensures (i + 1 + r') % e' == 0
  {
    AgreeEverywhere(m, e, s, r, e', s', r', i);
    AgreeEverywhere(m, e, s, r, e', s', r', i + 1);
    RisesAtStart(e, s, r, i);
    RisesAtStart(e', s', r', i);
  }

  lemma DifferenceDivides(a: nat, b: nat, e: nat)
    requires e > 0 && a % e == 0 && (a + b) % e == 0
    ensures b % e == 0
  {
    var q := (a + b) / e - a / e;
    assert q * e == ((a + b) / e) * e - (a / e) * e;
    ModUnique(b, q, 0, e);
  }

  lemma RunIsUnique(v: Word, m: nat, e: nat, s: nat, r: nat, e': nat, s': nat, r': nat)
    requires IsDatasize(m)
    requires IsRun(v, m, e, s, r) && IsRun(v, m, e', s', r')
    ensures e == e' && s == s' && r == r'
  {
    StartsCoincide(m, e, s, r, e', s', r');
    StartsCoincide(m, e', s', r', e, s, r);
    SizesDivide(e, e');
    SameRotation(e, r, r');
    assert r == r';
    AgreeEverywhere(m, e, s, r, e, s', r, e - r + s);
    AgreeEverywhere(m, e, s, r, e, s', r, e - r + s');
    ModUnique(e - r + s + r, 1, s, e);
    ModUnique(e - r + s' + r, 1, s', e);
  }

  lemma SizesDivide(e: nat, e': nat)
    requires e > 0 && e' > 0 && e % e' == 0 && e' % e == 0
    ensures e == e'
  {
    if e < e' { ModUnique(e, 0, e, e'); }
    if e' < e { ModUnique(e', 0, e', e); }
  }

  lemma SameRotation(e: nat, r: nat, r': nat)
    requires r < e && r' < e && (e - r + r') % e == 0
    ensures r == r'
  {
    if r' > r {
      ModUnique(e - r + r', 1, r' - r, e);
    } else if r' < r {
      ModUnique(e - r + r', 0, e - r + r', e);
    }
  }

  // --- encode_bit_masks. ---

  // elem << shift for every multiple of esize below datasize, compared with value.
  method Replicates(elem: Word, esize: nat, datasize: nat, value: Word) returns (b: bool)
    requires IsSize(esize) && IsDatasize(datasize) && esize <= datasize
    requires forall i | esize <= i < 64 :: !elem[i]
    ensures b <==> value == Replicated(elem, esize, datasize)
  {
    var acc := Zero();
    var shift := 0;
    while shift < datasize
      invariant shift % esize == 0 && shift < datasize + esize
      invariant forall i | 0 <= i < 64 :: acc[i] == (i < shift && elem[i % esize])
    {
      forall i: nat | shift <= i < shift + esize
        ensures i % esize == i - shift
      {
        ModStep(i, shift, esize);
      }
      ModStep(shift, shift, esize);
      acc := Or(acc, Shl(elem, shift));
      shift := shift + esize;
    }
    SizeDivides(esize, datasize);
    EndsExactly(shift, datasize, esize);
    b := acc == value;
  }

  lemma EndsExactly(shift: nat, m: nat, e: nat)
    requires e > 0 && shift % e == 0 && (m / e) * e == m && m <= shift < m + e
    ensures shift == m
  {
    var k := shift / e - m / e;
    assert k * e == shift - m;
    if k >= 1 { MulAtLeast(k, e); }
  }

  function Min(a: int, b: int): int {
    if a <= b then a else b
  }

  // How many of the first n positions of a rotated run are set: those before the
  // wrap-around and those after it. All e of them together are s + 1.
  lemma {:induction false} CountRun(v: Word, e: nat, s: nat, r: nat, n: nat)
    requires s + 1 < e <= 64 && r < e && n <= e
    requires v == RunPattern(e, e, s, r)
    ensures CountBelow(v, n) ==
            Min(Min(n, e - r), if r <= s then s + 1 - r else 0) + (if n > e - r then Min(n - (e - r), s + 1) else 0)
  {
    if n > 0 {
      CountRun(v, e, s, r, n - 1);
      var i := n - 1;
      assert v[i] == ((i + r) % e <= s);
      if i + r < e {
        ModUnique(i + r, 0, i + r, e);
      } else {
        ModUnique(i + r, 1, i + r - e, e);
      }
    }
  }

  lemma {:induction false} CountSame(x: Word, y: Word, n: nat, k: nat)
    requires n <= k <= 64
    requires forall i | 0 <= i < n :: x[i] == y[i]
    requires forall i | n <= i < k :: !x[i]
    ensures CountBelow(x, k) == CountBelow(y, n)
    decreases k
  {
    if k > 0 {
      if n < k { CountSame(x, y, n, k - 1); } else { CountSame(x, y, n - 1, k - 1); }
    }
  }

  // v is a single element holding s + 1 ones rotated by r.
  ghost predicate IsElement(v: Word, e: nat, s: nat, r: nat) {
    s + 1 < e && r < e && v == RunPattern(e, e, s, r)
  }

  // One element, as (immr, imms): the rotation found by trying them all.
  method EncodeElement(elem: Word, esize: nat) returns (res: Option<Rotation>)
    requires IsSize(esize)
    requires forall i | esize <= i < 64 :: !elem[i]
    ensures res.Some? ==> IsElement(elem, esize, res.value.s, res.value.immr)
    ensures res.None? ==> forall s: nat, r: nat :: !IsElement(elem, esize, s, r)
  {
    var elem := MaskElement(elem, esize);
    if elem == Zero() || elem == Low(esize) {
      TrivialIsNoElement(elem, esize);
      return None;
    }
    CountProper(elem, esize);
    var count := CountBelow(elem, 64);
    var s := count - 1;
    res := FindRotation(elem, esize, s);
    if res.None? { NoRotationFits(elem, esize, s); }
  }

  // The search loop of encode_element.
  method FindRotation(elem: Word, esize: nat, s: nat) returns (res: Option<Rotation>)
    requires s + 1 < esize <= 64
    ensures res.Some? ==> IsElement(elem, esize, res.value.s, res.value.immr)
    ensures res.None? ==> forall r: nat | r < esize :: !IsElement(elem, esize, s, r)
  {
    var ones := Low(s + 1);
    var r := 0;
    while r < esize
      invariant r <= esize
      invariant forall r': nat | r' < r :: !IsElement(elem, esize, s, r')
    {
      var rotated := Ror(ones, r, esize);
      RotatedOnes(elem, rotated, s, r, esize);
      if rotated == elem {
        return Some(Rotation(r, s));
      }
      r := r + 1;
    }
    return None;
  }

  function MaskElement(elem: Word, esize: nat): (r: Word)
    ensures (forall i | esize <= i < 64 :: !elem[i]) ==> r == elem
  {
    And(elem, Low(esize))
  }

  lemma TrivialIsNoElement(v: Word, e: nat)
    requires IsSize(e) && (v == Zero() || v == Low(e))
    ensures forall s: nat, r: nat :: !IsElement(v, e, s, r)
  {
    forall s: nat, r: nat | IsElement(v, e, s, r)
      ensures false
    {
      RunIsMixed(e, s, r);
    }
  }

  // Trying every rotation of as many ones as v has leaves nothing out.
  lemma NoRotationFits(v: Word, e: nat, s: nat)
    requires IsSize(e) && CountBelow(v, 64) == s + 1
    requires forall r: nat | r < e :: !IsElement(v, e, s, r)
    ensures forall s': nat, r': nat :: !IsElement(v, e, s', r')
  {
    forall s': nat, r': nat
      ensures !IsElement(v, e, s', r')
    {
      if IsElement(v, e, s', r') { ElementCount(v, e, s', r'); }
    }
  }

  lemma ElementCount(v: Word, e: nat, s: nat, r: nat)
    requires IsSize(e) && IsElement(v, e, s, r)
    ensures CountBelow(v, 64) == s + 1
  {
    CountRun(v, e, s, r, e);
    CountSame(v, v, e, 64);
  }

  lemma RotatedOnes(v: Word, w: Word, s: nat, r: nat, e: nat)
    requires s + 1 < e && r < e <= 64
    requires w == Ror(Low(s + 1), r, e)
    ensures w == v <==> IsElement(v, e, s, r)
  {
    RorBits(Low(s + 1), r, e);
  }

  // A run that is neither empty nor full has a set and a clear position.
  lemma RunIsMixed(e: nat, s: nat, r: nat)
    requires IsSize(e) && s + 1 < e && r < e
    ensures RunPattern(e, e, s, r) != Zero() && RunPattern(e, e, s, r) != Low(e)
  {
    var first := RunPosition(e, r, 0);
    var gap := RunPosition(e, r, s + 1);
    assert RunPattern(e, e, s, r)[first] && !RunPattern(e, e, s, r)[gap];
  }

  // The position that a rotation by r brings to p.
  lemma RunPosition(e: nat, r: nat, p: nat) returns (i: nat)
    requires p < e && r < e
    ensures i < e && (i + r) % e == p
  {
    i := (e - r + p) % e;
    ModOfMod(e - r + p, r, e);
    ModUnique(e + p, 1, p, e);
  }

  // A word that is neither empty nor full below e has between 1 and e - 1 ones.
  lemma CountProper(elem: Word, e: nat)
    requires IsSize(e)
    requires forall i | e <= i < 64 :: !elem[i]
    requires elem != Zero() && elem != Low(e)
    ensures 0 < CountBelow(elem, 64) < e
  {
    CountSame(elem, elem, e, 64);
    if CountBelow(elem, e) == 0 { NoneIsZero(elem, e); }
    CountBound(elem, e);
    if CountBelow(elem, e) == e { AllIsLow(elem, e); }
  }

  lemma NoneIsZero(x: Word, n: nat)
    requires n <= 64 && CountBelow(x, n) == 0
    requires forall i | n <= i < 64 :: !x[i]
    ensures x == Zero()
  {
    CountNone(x, n);
  }

  lemma AllIsLow(x: Word, n: nat)
    requires n <= 64 && CountBelow(x, n) == n
    requires forall i | n <= i < 64 :: !x[i]
    ensures x == Low(n)
  {
    CountAll(x, n);
  }

  lemma {:induction false} CountBound(x: Word, n: nat)
    requires n <= 64
    ensures CountBelow(x, n) <= n
  {
    if n > 0 { CountBound(x, n - 1); }
  }

  lemma {:induction false} CountNone(x: Word, n: nat)
    requires n <= 64 && CountBelow(x, n) == 0
    ensures forall i | 0 <= i < n :: !x[i]
  {
    if n > 0 { CountNone(x, n - 1); }
  }

  lemma {:induction false} CountAll(x: Word, n: nat)
    requires n <= 64 && CountBelow(x, n) == n
    ensures forall i | 0 <= i < n :: x[i]
  {
    if n > 0 {
      CountBound(x, n - 1);
      CountAll(x, n - 1);
    }
  }

  // immN and imms for log-size len and S: a leading run of ones, a zero, then S.
  function PackNImms(len: nat, s: nat): (nat, nat)
    requires 1 <= len <= 6
  {
    if len == 6 then (1, s % 64)
    else
      var highOnes := (63 / Pow2(len + 1)) * Pow2(len + 1);
      (0, (highOnes + s % Pow2(len)) % 64)
  }

  lemma PackedFields(e: nat, s: nat)
    requires IsSize(e) && s + 1 < e
    ensures var (n, imms) := PackNImms(Log2(e), s);
            ElementSize(n, imms) == e && imms % e == s && n < 2 && imms < 64
  {
    Powers();
    ModUnique(s, 0, s, e);
    if e == 2 {
      assert PackNImms(1, s) == (0, 60 + s);
    } else if e == 4 {
      assert PackNImms(2, s) == (0, 56 + s);
    } else if e == 8 {
      assert PackNImms(3, s) == (0, 48 + s);
    } else if e == 16 {
      assert PackNImms(4, s) == (0, 32 + s);
    } else if e == 32 {
      assert PackNImms(5, s) == (0, s);
    } else {
      assert PackNImms(6, s) == (1, s);
    }
  }

  lemma Powers()
    ensures Pow2(1) == 2 && Pow2(2) == 4 && Pow2(3) == 8 && Pow2(4) == 16 && Pow2(5) == 32 && Pow2(6) == 64
  {
    assert Pow2(2) == 4 && Pow2(4) == 16;
  }

  lemma MixedEverywhere(m: nat, e: nat, s: nat, r: nat)
    requires IsDatasize(m) && IsSize(e) && e <= m && s + 1 < e && r < e
    ensures RunPattern(m, e, s, r) != Zero() && RunPattern(m, e, s, r) != Low(m)
  {
    RunIsMixed(e, s, r);
    ElementOfRun(m, e, s, r);
    assert And(Zero(), Low(e)) == Zero() && And(Low(m), Low(e)) == Low(e);
  }

  // The low element of a run, and the run rebuilt from it.
  lemma ElementOfRun(m: nat, e: nat, s: nat, r: nat)
    requires IsDatasize(m) && IsSize(e) && e <= m
    ensures And(RunPattern(m, e, s, r), Low(e)) == RunPattern(e, e, s, r)
    ensures Replicated(RunPattern(e, e, s, r), e, m) == RunPattern(m, e, s, r)
  {
    var v, w := RunPattern(m, e, s, r), Replicated(RunPattern(e, e, s, r), e, m);
    forall i | 0 <= i < 64
      ensures v[i] == w[i]
    {
      ModOfMod(i, r, e);
    }
    assert v == w;
  }

  // The fields EncodeBitMasks packs for a run decode back to it.
  lemma PackedRunDecodes(v: Word, m: nat, e: nat, s: nat, r: nat)
    requires IsDatasize(m) && IsRun(v, m, e, s, r)
    ensures var (n, imms) := PackNImms(Log2(e), s);
            var masks := MasksOf(n, imms, r, true, m);
            masks.Some? && masks.value.wmask == v && And(v, Low(m)) == v
  {
    PackedFields(e, s);
    ModUnique(r, 0, r, e);
  }

  // The inverse of DecodeBitMasks: it succeeds exactly on the bitmask immediates, and
  // the fields it returns decode to the value, with immr below the element size.
  method EncodeBitMasks(value: Word, datasize: nat) returns (res: Option<Fields>)
    requires IsDatasize(datasize)
    ensures res.Some? <==> IsLogical(And(value, Low(datasize)), datasize)
    ensures res.Some? ==> IsFieldsOf(res.value, And(value, Low(datasize)), datasize)
  {
    var value := And(value, Low(datasize));
    var full := Low(datasize);
    if value == Zero() || value == full {
      forall e: nat, s: nat, r: nat | IsRun(value, datasize, e, s, r)
        ensures false
      {
        MixedEverywhere(datasize, e, s, r);
      }
      return None;
    }
    var esize := 2;
    while esize <= datasize
      invariant esize in {2, 4, 8, 16, 32, 64, 128}
      invariant forall e: nat, s: nat, r: nat | IsRun(value, datasize, e, s, r) :: e >= esize
      decreases 128 - esize
    {
      assert datasize % esize == 0;
      var elem := And(value, Low(esize));
      var res := TryElement(value, elem, esize, datasize);
      if res.Some? {
        return res;
      }
      assert forall e: nat, s: nat, r: nat | IsRun(value, datasize, e, s, r) :: e != esize;
      esize := 2 * esize;
    }
    return None;
  }

  // (immN, immr, imms) are the fields of v, in the form decode_bit_masks reads.
  ghost predicate IsFieldsOf(fields: Fields, v: Word, m: nat) {
    var Fields(n, immr, imms) := fields;
    n < 2 && imms < 64 && ElementSize(n, imms) > 0 &&
    IsRun(v, m, ElementSize(n, imms), imms % ElementSize(n, imms), immr)
  }

  // The body of the search loop, for one candidate element size.
  method TryElement(value: Word, elem: Word, esize: nat, datasize: nat) returns (res: Option<Fields>)
    requires IsSize(esize) && IsDatasize(datasize) && esize <= datasize
    requires elem == And(value, Low(esize))
    ensures res.Some? <==> exists s: nat, r: nat :: IsRun(value, datasize, esize, s, r)
    ensures res.Some? ==> IsFieldsOf(res.value, value, datasize)
  {
    var periodic := Replicates(elem, esize, datasize, value);
    forall s: nat, r: nat | IsRun(value, datasize, esize, s, r)
      ensures IsElement(elem, esize, s, r) && periodic
    {
      ElementOfRun(datasize, esize, s, r);
    }
    if periodic {
      var enc := EncodeElement(elem, esize);
      if enc.Some? {
        var Rotation(immr, imms) := enc.value;
        var len := Log2(esize);
        var (n, immsField) := PackNImms(len, imms);
        PackedFields(esize, imms);
        ElementOfRun(datasize, esize, imms, immr);
        assert IsRun(value, datasize, esize, imms, immr);
        PackedRunDecodes(value, datasize, esize, imms, immr);
        var m := DecodeBitMasks(n, immsField, immr, true, datasize);
        if m.Some? {
          var got := And(m.value.wmask, Low(datasize));
          if got == value {
            return Some(Fields(n, immr, immsField));
          }
        }
      }
    }
    return None;
  }
}
