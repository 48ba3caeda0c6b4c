/** Which words of the branch and system group decode at all, and under which
    features: the generic MSR/MRS fallback and monotonicity. */
module BranchValidity {
  import opened Features
  import opened Instructions
  import opened BranchSpec

  ghost predicate Within(f: Gate, g: Gate) {
    forall x: Feature :: f(x) ==> g(x)
  }

  const EVERY: Gate := (x: Feature) => true

  // --- Each class: what one feature set accepts, a larger one accepts. ---

  lemma HintNeverGated(s: SysFields, f: Gate, v: Insn)
    requires v.IsInvalid()
    ensures HintOf(s, f, v).IsInvalid() <==> s.rt != 31
  {
    HintByValid((s.crm << 3) | s.op2, s.crm, s.op2, f, v);
  }

  lemma HintByValid(sel: bv32, crm: bv32, op2: bv32, f: Gate, v: Insn)
    ensures !HintBy(sel, crm, op2, f, v).IsInvalid()
  {
    GatedHintValid(sel, crm, op2, f, v);
  }

  lemma GatedHintValid(sel: bv32, crm: bv32, op2: bv32, f: Gate, v: Insn)
    ensures !GatedHint(sel, crm, op2, f, v).IsInvalid()
  {
  }

  lemma BarrierMonotone(s: SysFields, f: Gate, g: Gate, v: Insn, w: Insn)
    requires Within(f, g) && v.IsInvalid() && w.IsInvalid()
    ensures BarrierOf(s, g, w).IsInvalid() ==> BarrierOf(s, f, v).IsInvalid()
  {
  }

  lemma NamedMonotone(s: SysFields, f: Gate, g: Gate, v: Insn, w: Insn)
    requires Within(f, g) && v.IsInvalid() && w.IsInvalid()
    ensures Op0Named(s, g, w).IsInvalid() ==> Op0Named(s, f, v).IsInvalid()
  {
    if !s.read && s.crn == 2 {
      HintNeverGated(s, f, v);
      HintNeverGated(s, g, w);
    } else if !s.read && s.crn == 3 {
      BarrierMonotone(s, f, g, v, w);
    }
  }

  // The replay with every feature on decides "no feature set names it".
  lemma ReplayDecides(s: SysFields, v: Insn)
    requires v.IsInvalid()
    ensures Unallocated(s) <==> Op0Named(s, EVERY, v).IsInvalid()
  {
    if Op0Named(s, EVERY, v).IsInvalid() {
      forall f: Gate, word, ip
        ensures Op0Named(s, f, NewInvalid(word, ip)).IsInvalid()
      {
        NamedMonotone(s, f, EVERY, NewInvalid(word, ip), v);
      }
    }
    if Unallocated(s) {
      NamedMonotone(s, EVERY, EVERY, v, NewInvalid(0, 0));
    }
  }

  // The named dispatch that finds nothing leaves its output alone.
  lemma InvalidLeavesOut(s: SysFields, f: Gate, v: Insn)
    requires v.IsInvalid()
    ensures Op0Named(s, f, v).IsInvalid() ==> Op0Named(s, f, v) == v
  {
    if !s.read && s.crn == 2 { HintNeverGated(s, f, v); }
  }

  lemma AllocatedNamed(s: SysFields, f: Gate, v: Insn)
    requires v.IsInvalid() && !Op0Named(s, f, v).IsInvalid()
    ensures !Unallocated(s)
  {
    NamedMonotone(s, f, EVERY, v, v);
    ReplayDecides(s, v);
  }

  // FeatureSet::ALL accepts what the gate that lets everything pass accepts.
  lemma AllFeaturesDecide(s: SysFields, v: Insn)
    requires v.IsInvalid()
    ensures Unallocated(s) <==> Op0Named(s, ALL.Has, v).IsInvalid()
  {
    forall x: Feature
      ensures ALL.Has(x)
    {
      AllHas(x);
    }
    NamedMonotone(s, ALL.Has, EVERY, v, v);
    NamedMonotone(s, EVERY, ALL.Has, v, v);
    ReplayDecides(s, v);
  }
}
