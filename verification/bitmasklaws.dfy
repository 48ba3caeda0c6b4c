/** What the bitmask-immediate arithmetic is for: the accepted field triples and the
    bitmask immediates are in bijection, the encoder inverts the decoder, and the
    masks of a bitfield move select exactly the moved field. */
module BitMaskLaws {
  import opened Word64
  import opened Bits
  import opened LogicalImm

  // (immN, imms, immr) is an accepted logical immediate of datasize m with value v.
  // A 32-bit immediate has immN == 0; its callers reject the other case.
  ghost predicate Accepts(immN: nat, imms: nat, immr: nat, m: nat, v: Word) {
    && IsDatasize(m)
    && immN < 2 && imms < 64 && (immN == 1 ==> m == 64)
    && var masks := MasksOf(immN, imms, immr, true, m);
       masks.Some? && masks.value.wmask == v
  }

  // A word is the value of an accepted triple exactly when it is a run of ones,
  // neither empty nor full, rotated and repeated.
  lemma AcceptedIffLogical(v: Word, m: nat)
    requires IsDatasize(m)
    ensures IsLogical(v, m) <==> exists immN, imms, immr :: Accepts(immN, imms, immr, m, v)
  {
    forall immN, imms, immr | Accepts(immN, imms, immr, m, v)
      ensures IsLogical(v, m)
    {
      AcceptedIsRun(immN, imms, immr, m, v);
    }
    if IsLogical(v, m) {
      var e: nat, s: nat, r: nat :| IsRun(v, m, e, s, r);
      PackedFields(e, s);
      PackedRunDecodes(v, m, e, s, r);
      var (n, imms) := PackNImms(Log2(e), s);
      assert Accepts(n, imms, r, m, v);
    }
  }

  lemma AcceptedIsRun(immN: nat, imms: nat, immr: nat, m: nat, v: Word)
    requires Accepts(immN, imms, immr, m, v)
    ensures var e := ElementSize(immN, imms);
            e > 0 && IsRun(v, m, e, imms % e, immr % e)
  {
  }

  // The element size and S determine immN and imms.
  function ImmsBase(e: nat): nat {
    if e >= 32 then 0 else if e == 16 then 32 else if e == 8 then 48 else if e == 4 then 56 else 60
  }

  lemma ImmsSplit(immN: nat, imms: nat)
    requires immN < 2 && imms < 64 && ElementSize(immN, imms) > 0
    ensures var e := ElementSize(immN, imms);
            immN == (if e == 64 then 1 else 0) && imms == ImmsBase(e) + imms % e
  {
    var e := ElementSize(immN, imms);
    var base := ImmsBase(e);
    assert base % e == 0 && base <= imms < base + e;
    ModStep(imms, base, e);
  }

  // The triple behind a value is unique once immr is reduced below the element size.
  lemma AcceptedTripleIsUnique(v: Word, m: nat, immN: nat, imms: nat, immr: nat, immN': nat, imms': nat, immr': nat)
    requires Accepts(immN, imms, immr, m, v) && Accepts(immN', imms', immr', m, v)
    ensures immN == immN' && imms == imms'
    ensures immr % ElementSize(immN, imms) == immr' % ElementSize(immN, imms)
  {
    AcceptedIsRun(immN, imms, immr, m, v);
    AcceptedIsRun(immN', imms', immr', m, v);
    var e, e' := ElementSize(immN, imms), ElementSize(immN', imms');
    RunIsUnique(v, m, e, imms % e, immr % e, e', imms' % e', immr' % e');
    ImmsSplit(immN, imms);
    ImmsSplit(immN', imms');
  }

  // encode_bit_masks after decode_bit_masks: whatever fields the encoder may return for
  // the value of an accepted triple, they are that triple with immr reduced.
  lemma EncodeAfterDecode(v: Word, m: nat, immN: nat, imms: nat, immr: nat, fields: Fields)
    requires Accepts(immN, imms, immr, m, v)
    requires IsFieldsOf(fields, v, m)
    ensures fields == Fields(immN, immr % ElementSize(immN, imms), imms)
  {
    AcceptedIsRun(immN, imms, immr, m, v);
    var e, e' := ElementSize(immN, imms), ElementSize(fields.immN, fields.imms);
    RunIsUnique(v, m, e, imms % e, immr % e, e', fields.imms % e', fields.immr);
    ImmsSplit(immN, imms);
    ImmsSplit(fields.immN, fields.imms);
  }

  // decode_bit_masks after encode_bit_masks: the fields the encoder returns for v decode to v.
  lemma DecodeAfterEncode(v: Word, m: nat, fields: Fields)
    requires IsDatasize(m) && IsFieldsOf(fields, v, m)
    ensures Accepts(fields.immN, fields.imms, fields.immr, m, v)
  {
    var e := ElementSize(fields.immN, fields.imms);
    ModUnique(fields.immr, 0, fields.immr, e);
  }

  // --- Bitfield moves (immediate == false, element as wide as the register). ---

  // wmask AND tmask: the low S-R+1 bits of an extract, or the S+1 bits an insert
  // puts at position m-R.
  lemma BitfieldField(immN: nat, imms: nat, immr: nat, m: nat)
    requires IsDatasize(m) && ElementSize(immN, imms) == m
    ensures var s, r := imms % m, immr % m;
            var masks := MasksOf(immN, imms, immr, false, m);
            masks.Some? &&
            And(masks.value.wmask, masks.value.tmask) == if s >= r then Low(s - r + 1) else Shl(Low(s + 1), m - r)
  {
    MasksExist(immN, imms, immr, m);
    forall i | 0 <= i < 64
      ensures And(MasksOf(immN, imms, immr, false, m).value.wmask, MasksOf(immN, imms, immr, false, m).value.tmask)[i]
              == Field(imms % m, immr % m, m)[i]
    {
      MaskBits(immN, imms, immr, m, i);
      FieldBit(imms % m, immr % m, m, i);
    }
  }

  function Field(s: nat, r: nat, m: nat): Word
    requires IsDatasize(m) && s < m && r < m
  {
    if s >= r then Low(s - r + 1) else Shl(Low(s + 1), m - r)
  }

  lemma MasksExist(immN: nat, imms: nat, immr: nat, m: nat)
    requires IsDatasize(m) && ElementSize(immN, imms) == m
    ensures MasksOf(immN, imms, immr, false, m).Some?
  {
  }

  lemma MaskBits(immN: nat, imms: nat, immr: nat, m: nat, i: nat)
    requires IsDatasize(m) && ElementSize(immN, imms) == m && i < 64
    ensures var s, r := imms % m, immr % m;
            var masks := MasksOf(immN, imms, immr, false, m);
            && masks.Some?
            && (And(masks.value.wmask, masks.value.tmask)[i] <==>
                  i < m && (i + r) % m <= s && (i + 0) % m <= (s - r) % m)
  {
  }

  lemma FieldBit(s: nat, r: nat, m: nat, i: nat)
    requires IsDatasize(m) && s < m && r < m && i < 64
    ensures Field(s, r, m)[i] <==>
            i < m && (i + r) % m <= s && (i + 0) % m <= (s - r) % m
  {
    if i < m { FieldPosition(i, s, r, m); }
  }

  // Adding r below m wraps around at most once.
  lemma AddWraps(i: nat, r: nat, m: nat)
    requires i < m && r < m
    ensures (i + r) % m == if i + r < m then i + r else i + r - m
  {
    if i + r < m { ModUnique(i + r, 0, i + r, m); } else { ModUnique(i + r, 1, i + r - m, m); }
  }

  lemma SubWraps(i: nat, p: nat, m: nat)
    requires i < m && p < m
    ensures (i - p) % m == if i >= p then i - p else i - p + m
  {
    if i >= p { ModUnique(i - p, 0, i - p, m); } else { ModUnique(i - p, -1, i - p + m, m); }
  }

  lemma FieldPosition(i: nat, s: nat, r: nat, m: nat)
    requires i < m && s < m && r < m
    ensures (i + r) % m <= s && (i + 0) % m <= (s - r) % m <==>
            (if s >= r then i < s - r + 1 else m - r <= i < m - r + s + 1)
  {
    AddWraps(i, r, m);
    AddWraps(i, 0, m);
    SubWraps(s, r, m);
  }

  // --- move_wide_preferred. ---

  function MoveWidePreferred(sf: nat, immN: nat, imms: nat, immr: nat): bool {
    var sf, immN, s, r := sf % 2, immN % 2, imms % 64, immr % 64;
    var width := if sf == 1 then 64 else 32;
    if sf == 1 && immN != 1 then false
    else if sf == 0 && !(immN == 0 && s < 32) then false
    else if s < 16 then (0 - r) % 16 <= 15 - s
    else if s >= width - 15 then r % 16 <= s - (width - 15)
    else false
  }

  // All set bits of v lie in one 16-bit field at a multiple of 16: a MOVZ can build it.
  ghost predicate InOneField(v: Word) {
    exists k: nat :: InField(v, k)
  }

  ghost predicate InField(v: Word, k: nat) {
    forall i | 0 <= i < 64 && v[i] :: 16 * k <= i < 16 * k + 16
  }

  // The m-bit complement: what a MOVN would have to build.
  function Complement(v: Word, m: nat): Word {
    seq(64, i requires 0 <= i < 64 => i < m && !v[i])
  }

  // c consecutive set positions (cyclically below m) starting at p fit one field
  // exactly when they do not cross a multiple of 16.
  lemma CyclicRunInField(v: Word, m: nat, p: nat, c: nat)
    requires IsDatasize(m) && p < m && 0 < c <= m
    requires forall i | 0 <= i < 64 :: v[i] <==> i < m && (i - p) % m < c
    ensures InOneField(v) <==> p % 16 + c <= 16
  {
    if p % 16 + c <= 16 {
      forall i | 0 <= i < 64 && v[i]
        ensures 16 * (p / 16) <= i < 16 * (p / 16) + 16
      {
        SubWraps(i, p, m);
      }
      assert InField(v, p / 16);
    } else {
      var b := 16 * (p / 16) + 15;
      var next := if b + 1 == m then 0 else b + 1;
      SubWraps(b, p, m);
      SubWraps(next, p, m);
      assert v[b] && v[next];
      assert forall k: nat :: 16 * k <= b < 16 * k + 16 ==> !(16 * k <= next < 16 * k + 16);
    }
  }

  // For an accepted logical immediate whose element fills the register:
  // up to 16 ones, the answer is exactly "one 16-bit field"; with more ones it is
  // "the complement is one field", but only where R mod 16 leaves two positions
  // to spare; and the complement is one field exactly when R mod 16 <= S - (m - 17).
  lemma MoveWideMeaning(immN: nat, imms: nat, immr: nat, m: nat, v: Word)
    requires Accepts(immN, imms, immr, m, v) && ElementSize(immN, imms) == m && immr < 64
    ensures var s, r, pref := imms % m, immr % m, MoveWidePreferred(m / 64, immN, imms, immr);
            && (s < 16 ==> (pref <==> InOneField(v)))
            && (s >= 16 ==> (InOneField(Complement(v, m)) <==> s >= m - 17 && r % 16 <= s - (m - 17)))
            && (s >= 16 ==> (pref <==> s >= m - 15 && r % 16 <= s - (m - 15)))
  {
    var s, r := imms % m, immr % m;
    AcceptedIsRun(immN, imms, immr, m, v);
    ImmsSplit(immN, imms);
    PreferredCases(immN, imms, immr, m);
    RMod16(immr, m);
    if s < 16 {
      RunField(v, m, s, r);
    } else {
      GapField(v, m, s, r);
    }
  }

  lemma PreferredCases(immN: nat, imms: nat, immr: nat, m: nat)
    requires IsDatasize(m) && immN == m / 64 && imms < m && immr < 64
    ensures MoveWidePreferred(m / 64, immN, imms, immr) <==>
            if imms < 16 then (0 - immr) % 16 <= 15 - imms else imms >= m - 15 && immr % 16 <= imms - (m - 15)
  {
    if m == 64 { PreferredWide(imms, immr); } else { PreferredNarrow(imms, immr); }
  }

  lemma PreferredWide(imms: nat, immr: nat)
    requires imms < 64 && immr < 64
    ensures MoveWidePreferred(1, 1, imms, immr) <==>
            if imms < 16 then (0 - immr) % 16 <= 15 - imms else imms >= 49 && immr % 16 <= imms - 49
  {
  }

  lemma PreferredNarrow(imms: nat, immr: nat)
    requires imms < 32 && immr < 64
    ensures MoveWidePreferred(0, 0, imms, immr) <==>
            if imms < 16 then (0 - immr) % 16 <= 15 - imms else imms >= 17 && immr % 16 <= imms - 17
  {
  }

  lemma RunField(v: Word, m: nat, s: nat, r: nat)
    requires IsRun(v, m, m, s, r) && IsDatasize(m) && s < 16
    ensures InOneField(v) <==> (0 - r) % 16 <= 15 - s
  {
    var p := if r == 0 then 0 else m - r;
    forall i | 0 <= i < 64
      ensures v[i] <==> i < m && (i - p) % m < s + 1
    {
      if i < m {
        AddWraps(i, r, m);
        SubWraps(i, p, m);
      }
    }
    CyclicRunInField(v, m, p, s + 1);
    assert p % 16 == (0 - r) % 16;
  }

  lemma GapField(v: Word, m: nat, s: nat, r: nat)
    requires IsRun(v, m, m, s, r) && IsDatasize(m) && s >= 16
    ensures InOneField(Complement(v, m)) <==> s >= m - 17 && r % 16 <= s - (m - 17)
  {
    var z := m - 1 - s;
    var p := if r <= s + 1 then s + 1 - r else m - r + s + 1;
    forall i | 0 <= i < 64
      ensures Complement(v, m)[i] <==> i < m && (i - p) % m < z
    {
      GapBit(v, m, s, r, p, i);
    }
    CyclicRunInField(Complement(v, m), m, p, z);
    GapAligned(m, s, r, p);
    if z <= 16 { GapStart(p, z, r % 16, m); }
  }

  // The complement of a run is the run of the m - 1 - s positions after it.
  lemma GapBit(v: Word, m: nat, s: nat, r: nat, p: nat, i: nat)
    requires IsRun(v, m, m, s, r) && IsDatasize(m) && i < 64
    requires p == if r <= s + 1 then s + 1 - r else m - r + s + 1
    ensures Complement(v, m)[i] <==> i < m && (i - p) % m < m - 1 - s
  {
    if i < m {
      AddWraps(i, r, m);
      SubWraps(i, p, m);
    }
  }

  lemma GapAligned(m: nat, s: nat, r: nat, p: nat)
    requires IsDatasize(m) && s < m && r < m
    requires p == if r <= s + 1 then s + 1 - r else m - r + s + 1
    ensures (p + (m - 1 - s) + r % 16) % 16 == 0
  {
    assert r == 16 * (r / 16) + r % 16;
  }

  // p + z + rho is a multiple of 16 at the start of the gap.
  lemma GapStart(p: nat, z: nat, rho: nat, m: nat)
    requires rho < 16 && z <= 16 && (p + z + rho) % 16 == 0
    ensures p % 16 + z <= 16 <==> rho + z <= 16
  {
  }

  // Preferred implies movable: one field, or the complement of one.
  lemma MoveWideIsSound(immN: nat, imms: nat, immr: nat, m: nat, v: Word, sf: nat)
    requires Accepts(immN, imms, immr, m, v) && immr < 64 && sf == (if m == 64 then 1 else 0)
    requires MoveWidePreferred(sf, immN, imms, immr)
    ensures ElementSize(immN, imms) == m
    ensures InOneField(v) || InOneField(Complement(v, m))
  {
    MoveWideMeaning(immN, imms, immr, m, v);
  }

  // It is not complete on the MOVN side: this word is the complement of the single
  // field 0xffff at position 0 and is not preferred.
  lemma MoveWideMissesOne()
    ensures exists immN, imms, immr, v ::
              Accepts(immN, imms, immr, 64, v) && ElementSize(immN, imms) == 64 && immr < 64 &&
              InOneField(Complement(v, 64)) && !MoveWidePreferred(1, immN, imms, immr)
  {
    var v := RunPattern(64, 64, 47, 48);
    assert Accepts(1, 47, 48, 64, v);
    MoveWideMeaning(1, 47, 48, 64, v);
  }

  lemma RMod16(immr: nat, m: nat)
    requires IsDatasize(m) && immr < 64
    ensures (immr % m) % 16 == immr % 16 && (0 - immr) % 16 == (0 - immr % m) % 16
  {
    if m == 32 {} else {}
  }
}
