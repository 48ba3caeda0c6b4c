/** `src/features.rs`: the set of architecture extensions a decoder accepts. */
module Features {

  // The extensions that gate the encodings of this model.
  datatype Feature =
    | Base | PAuth | Sme | Tme | Trf | Wfxt | Xs | D128 | Cmpbr | Hbc | PauthLr
    | Tchange | Gcs | Chk | Pcdphint | Dgh | Clrbhb | Tev | AppleAmx | Gxf

  // The discriminant of the source's enum, which counts all 58 extensions.
  function Position(f: Feature): bv64 {
    match f
    case Base => 0
    case PAuth => 4
    case Sme => 7
    case Tme => 9
    case Trf => 10
    case Wfxt => 11
    case Xs => 14
    case D128 => 18
    case Cmpbr => 25
    case Hbc => 35
    case PauthLr => 36
    case Tchange => 49
    case Gcs => 50
    case Chk => 51
    case Pcdphint => 52
    case Dgh => 53
    case Clrbhb => 54
    case Tev => 55
    case AppleAmx => 56
    case Gxf => 57
  }

  predicate IsSet(word: bv64, bit: bv64)
    requires bit < 64
  {
    word & (1 << bit) != 0
  }

  datatype FeatureSet = FeatureSet(features0: bv64, features1: bv64) {

    predicate Has(f: Feature) { HasBit(Position(f)) }

    predicate HasBit(bit: bv64) {
      if bit == 0 then true
      else if bit >= 64 then false
      else IsSet(features0, bit)
    }

    function With(f: Feature): FeatureSet { WithBit(Position(f)) }

    function WithBit(bit: bv64): FeatureSet {
      if bit == 0 || bit >= 64 then this
      else FeatureSet(features0 | (1 << bit), features1 | (1 << bit))
    }

    // Every extension of this set is in the other one.
    predicate Within(other: FeatureSet) {
      features0 & other.features0 == features0
    }
  }

  // Base instructions only, and everything.
  const BASE := FeatureSet(0, 0)
  const ALL := FeatureSet(0xffff_ffff_ffff_ffff, 0xffff_ffff_ffff_ffff)

  lemma WithinKeeps(s: FeatureSet, t: FeatureSet, f: Feature)
    requires s.Within(t) && s.Has(f)
    ensures t.Has(f)
  {
    PositionNamesFeature(f);
    SubsetKeeps(s.features0, t.features0, Position(f));
  }

  lemma SubsetKeeps(x: bv64, y: bv64, bit: bv64)
    requires bit < 64 && x & y == x
    ensures IsSet(x, bit) ==> IsSet(y, bit)
  {
  }

  lemma AllHas(f: Feature)
    ensures ALL.Has(f)
  {
    match f { case _ => }
  }

  lemma BaseHas(f: Feature)
    ensures BASE.Has(f) <==> f.Base?
  {
    PositionNamesFeature(f);
    NothingSet(Position(f));
  }

  lemma NothingSet(bit: bv64)
    requires bit < 64
    ensures !IsSet(0, bit)
  {
  }

  // Enabling f adds f and nothing else.
  lemma WithAdds(s: FeatureSet, f: Feature, g: Feature)
    ensures s.With(f).Has(g) <==> s.Has(g) || g == f
  {
    PositionsApart(f, g);
    BitAdds(s, Position(f), Position(g));
  }

  lemma BitAdds(s: FeatureSet, p: bv64, q: bv64)
    requires p < 64 && q < 64
    ensures s.WithBit(p).HasBit(q) <==> s.HasBit(q) || p == q
  {
    var t := s.WithBit(p);
    if p != 0 {
      WithBitIs(s, p);
      AddsAt(s.features0, t.features0, p, q);
      HasBitIs(s, q);
      HasBitIs(t, q);
    }
  }

  lemma WithBitIs(s: FeatureSet, p: bv64)
    requires 0 < p < 64
    ensures s.WithBit(p).features0 == s.features0 | (1 << p)
  {
  }

  lemma HasBitIs(s: FeatureSet, q: bv64)
    requires q < 64
    ensures s.HasBit(q) <==> q == 0 || IsSet(s.features0, q)
  {
  }

  lemma PositionsApart(f: Feature, g: Feature)
    ensures (Position(f) == Position(g) <==> f == g) && Position(f) < 64 && Position(g) < 64
  {
    PositionNamesFeature(f);
    PositionNamesFeature(g);
  }

  lemma AddsAt(x: bv64, y: bv64, p: bv64, q: bv64)
    requires p < 64 && q < 64 && y == x | (1 << p)
    ensures IsSet(y, q) <==> IsSet(x, q) || p == q
  {
  }

  // The word of a set with one extension beside the base.
  lemma WordsOfOne()
    ensures BASE.With(PAuth).features0 == 0x10 && BASE.With(Sme).features0 == 0x80
    ensures BASE.With(Tme).features0 == 0x200 && BASE.With(Trf).features0 == 0x400
    ensures BASE.With(Wfxt).features0 == 0x800 && BASE.With(Xs).features0 == 0x4000
    ensures BASE.With(D128).features0 == 0x4_0000 && BASE.With(Cmpbr).features0 == 0x200_0000
    ensures BASE.With(Hbc).features0 == 0x8_0000_0000 && BASE.With(PauthLr).features0 == 0x10_0000_0000
    ensures BASE.With(Tchange).features0 == 0x2_0000_0000_0000 && BASE.With(Gcs).features0 == 0x4_0000_0000_0000
    ensures BASE.With(Chk).features0 == 0x8_0000_0000_0000 && BASE.With(Pcdphint).features0 == 0x10_0000_0000_0000
    ensures BASE.With(Dgh).features0 == 0x20_0000_0000_0000 && BASE.With(Clrbhb).features0 == 0x40_0000_0000_0000
    ensures BASE.With(Tev).features0 == 0x80_0000_0000_0000 && BASE.With(AppleAmx).features0 == 0x100_0000_0000_0000
    ensures BASE.With(Gxf).features0 == 0x200_0000_0000_0000
  {
  }

  // No two extensions share a bit.
  function AtPosition(p: bv64): Feature {
    if p == 4 then PAuth else if p == 7 then Sme else if p == 9 then Tme else if p == 10 then Trf
    else if p == 11 then Wfxt else if p == 14 then Xs else if p == 18 then D128 else if p == 25 then Cmpbr
    else if p == 35 then Hbc else if p == 36 then PauthLr else if p == 49 then Tchange else if p == 50 then Gcs
    else if p == 51 then Chk else if p == 52 then Pcdphint else if p == 53 then Dgh else if p == 54 then Clrbhb
    else if p == 55 then Tev else if p == 56 then AppleAmx else if p == 57 then Gxf else Base
  }

  lemma PositionNamesFeature(f: Feature)
    ensures AtPosition(Position(f)) == f && Position(f) < 64
  {
  }
}
