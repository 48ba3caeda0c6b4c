/** What any sequence of public edits keeps, and what the two ways of moving an
    instruction mean. */
module EditHistory {
  import opened Wrappers
  import opened Ints
  import opened Isa
  import opened Instructions

  function Run(v: Insn, edits: seq<Edit>): Insn
    requires v.WellFormed()
    ensures Run(v, edits).WellFormed()
    decreases |edits|
  {
    if edits == [] then v
    else
      EditKeepsShape(v, edits[0]);
      Run(Apply(v, edits[0]), edits[1..])
  }

  lemma {:induction false} EditFirstKeepsLength(ops: seq<Operand>, e: Edit, from: nat)
    requires from <= |ops|
    ensures EditFirst(ops, e, from).Some? ==> |EditFirst(ops, e, from).value| == |ops|
    decreases |ops| - from
  {
    if from < |ops| { EditFirstKeepsLength(ops, e, from + 1); }
  }

  lemma EditKeepsShape(v: Insn, e: Edit)
    requires v.WellFormed()
    ensures Apply(v, e).WellFormed()
  {
    EditFirstKeepsLength(v.ops, e, 0);
  }

  // An edit that leaves the value unmarked changed nothing but the address of an
  // instruction without labels, which encodes the same wherever it sits.
  lemma EditMarks(v: Insn, e: Edit)
    requires v.WellFormed()
    ensures v.modified ==> Apply(v, e).modified
    ensures !Apply(v, e).modified ==> Apply(v, e) == v.(ip := Apply(v, e).ip)
    ensures !Apply(v, e).modified && v.HasLabel() ==> Apply(v, e).ip == v.ip
    ensures Apply(v, e).word == v.word
  {
    if e.Relocate? && !v.HasLabel() {
      NoLabelNoShift(v.ops, Sub(e.ip, v.ip));
    }
  }

  lemma NoLabelNoShift(ops: seq<Operand>, delta: U64)
    requires forall i | 0 <= i < |ops| :: !ops[i].Label?
    ensures ShiftLabels(ops, delta) == ops
  {
  }

  // Over any history of edits from a freshly decoded value: the operand list stays
  // within its five slots, the word stays the decoded one, and while the value is
  // not marked modified it is the decoded value, moved only if nothing depends on ip.
  lemma {:induction false} HistoryInvariant(v: Insn, edits: seq<Edit>)
    requires v.WellFormed()
    ensures var w := Run(v, edits);
            && w.WellFormed()
            && w.word == v.word
            && (v.modified ==> w.modified)
            && (!w.modified ==> w == v.(ip := w.ip) && (v.HasLabel() ==> w.ip == v.ip))
    decreases |edits|
  {
    if edits != [] {
      EditKeepsShape(v, edits[0]);
      EditMarks(v, edits[0]);
      HistoryInvariant(Apply(v, edits[0]), edits[1..]);
    }
  }

  // --- relocate. ---

  lemma AddTwice(t: U64, a: U64, b: U64, c: U64)
    ensures Add(Add(t, Sub(b, a)), Sub(c, b)) == Add(t, Sub(c, a))
    ensures Sub(Add(t, Sub(b, a)), b) == Sub(t, a)
  {
  }

  lemma ShiftTwice(ops: seq<Operand>, a: U64, b: U64, c: U64)
    ensures ShiftLabels(ShiftLabels(ops, Sub(b, a)), Sub(c, b)) == ShiftLabels(ops, Sub(c, a))
  {
    var once := ShiftLabels(ops, Sub(b, a));
    var twice, direct := ShiftLabels(once, Sub(c, b)), ShiftLabels(ops, Sub(c, a));
    forall i | 0 <= i < |ops|
      ensures twice[i] == direct[i]
    {
      assert twice[i] == ShiftLabel(once[i], Sub(c, b));
      assert once[i] == ShiftLabel(ops[i], Sub(b, a));
      if ops[i].Label? { AddTwice(ops[i].target, a, b, c); }
    }
  }

  lemma SameLabels(v: Insn, delta: U64)
    ensures v.(ops := ShiftLabels(v.ops, delta)).HasLabel() == v.HasLabel()
  {
    var s := ShiftLabels(v.ops, delta);
    forall i | 0 <= i < |s|
      ensures s[i].Label? == v.ops[i].Label?
    {
      assert s[i] == ShiftLabel(v.ops[i], delta);
    }
  }

  // Moving twice is moving once to the last address.
  lemma RelocateComposes(v: Insn, b: U64, c: U64)
    ensures Moved(Moved(v, b), c) == Moved(v, c)
  {
    ShiftTwice(v.ops, v.ip, b, c);
    SameLabels(v, Sub(b, v.ip));
    assert Moved(v, b).HasLabel() == v.(ops := ShiftLabels(v.ops, Sub(b, v.ip))).HasLabel();
  }

  // relocate, as an edit of the history.
  function Moved(v: Insn, ip: U64): Insn {
    Relocated(v, ip, Sub(ip, v.ip))
  }

  // It keeps the displacement of a direct branch: where there was a target, the
  // target moves by exactly as much as the instruction does.
  lemma RelocateKeepsDisplacement(v: Insn, b: U64)
    requires v.IsDirectBranch() && v.HasLabel()
    ensures Sub(Moved(v, b).NearBranchTarget(), b) == Sub(v.NearBranchTarget(), v.ip)
  {
    FirstLabelShifts(v.ops, Sub(b, v.ip));
    AddTwice(FirstLabel(v.ops), v.ip, b, b);
  }

  lemma {:induction false} FirstLabelShifts(ops: seq<Operand>, delta: U64)
    requires exists i :: 0 <= i < |ops| && ops[i].Label?
    ensures FirstLabel(ShiftLabels(ops, delta)) == Add(FirstLabel(ops), delta)
  {
    if !ops[0].Label? {
      var i :| 0 <= i < |ops| && ops[i].Label?;
      assert ops[1..][i - 1].Label?;
      FirstLabelShifts(ops[1..], delta);
    }
  }

  // --- set_near_branch_target. ---

  // It is the setter of near_branch_target: it applies to a direct branch with a
  // label, what it sets is read back, and nothing else is touched.
  lemma RetargetReadsBack(v: Insn, target: U64)
    requires v.WellFormed()
    ensures Edited(v, Edit.SetNearBranchTarget(target)).Some? <==> v.IsDirectBranch() && v.HasLabel()
    ensures v.IsDirectBranch() && v.HasLabel() ==>
              var w := Apply(v, Edit.SetNearBranchTarget(target));
              w.NearBranchTarget() == target && w == v.(ops := w.ops, modified := true)
  {
    RetargetFrom(v.ops, target, 0);
  }

  lemma {:induction false} RetargetFrom(ops: seq<Operand>, target: U64, from: nat)
    requires from <= |ops| && forall i | 0 <= i < from :: !ops[i].Label?
    ensures var r := EditFirst(ops, Edit.SetNearBranchTarget(target), from);
            && (r.Some? <==> exists i :: 0 <= i < |ops| && ops[i].Label?)
            && (r.Some? ==> FirstLabel(r.value) == target)
    decreases |ops| - from
  {
    if from < |ops| {
      if ops[from].Label? {
        FirstLabelAt(ops[from := Label(target)], from);
      } else {
        RetargetFrom(ops, target, from + 1);
      }
    }
  }

  lemma {:induction false} FirstLabelAt(ops: seq<Operand>, k: nat)
    requires k < |ops| && ops[k].Label? && forall i | 0 <= i < k :: !ops[i].Label?
    ensures FirstLabel(ops) == ops[k].target
  {
    if k > 0 { FirstLabelAt(ops[1..], k - 1); }
  }

  // --- The memory setters and their getters. ---

  // The operands each setter stops at.
  predicate HasBase(op: Operand) { op.MemImm? || op.MemExt? || op.SveMem? }

  predicate HasIndex(op: Operand) { op.MemExt? || op.SveMem? }

  predicate HasDisplacement(op: Operand) { op.MemImm? || op.SveMem? }

  function FirstWith(ops: seq<Operand>, has: Operand -> bool): Option<Operand> {
    if ops == [] then None else if has(ops[0]) then Some(ops[0]) else FirstWith(ops[1..], has)
  }

  // e is a setter that stops at the operands that have its part, and puts x there, where
  // pick finds it unless the operand is a vector address.
  ghost predicate Sets<T(!new)>(e: Edit, has: Operand -> bool, pick: Operand -> Option<T>, x: T) {
    forall op :: if !has(op) then StepOf(e, op).Skip? && pick(op).None?
                 else if op.SveMem? then
                   pick(op).None? && !StepOf(e, op).Skip? && (StepOf(e, op).Put? ==> pick(StepOf(e, op).op).None?)
                 else StepOf(e, op).Put? && pick(StepOf(e, op).op) == Some(x)
  }

  lemma {:induction false} FirstOfTail<T>(ops: seq<Operand>, pick: Operand -> Option<T>, none: T, k: nat)
    requires k <= |ops| && forall i | 0 <= i < k :: pick(ops[i]).None?
    ensures FirstOf(ops, pick, none) == FirstOf(ops[k..], pick, none)
  {
    if k > 0 {
      FirstOfTail(ops[1..], pick, none, k - 1);
      assert ops[1..][k - 1..] == ops[k..];
    }
  }

  lemma {:induction false} SetFrom<T(!new)>(ops: seq<Operand>, e: Edit, has: Operand -> bool,
                                            pick: Operand -> Option<T>, none: T, x: T, from: nat)
    requires Sets(e, has, pick, x) && from <= |ops| && forall i | 0 <= i < from :: !has(ops[i])
    ensures var r, met := EditFirst(ops, e, from), FirstWith(ops[from..], has);
            && (r.Some? <==> met.Some? && StepOf(e, met.value).Put?)
            && (met.Some? && !met.value.SveMem? ==> r.Some? && FirstOf(r.value, pick, none) == x)
            && (r.Some? && met.value.SveMem? ==> FirstOf(r.value, pick, none) == FirstOf(ops, pick, none))
    decreases |ops| - from
  {
    if from < |ops| {
      assert StepOf(e, ops[from]).Skip? <==> !has(ops[from]);
      assert ops[from..][1..] == ops[from + 1..];
      if has(ops[from]) {
        var s := StepOf(e, ops[from]);
        if s.Put? {
          var after := ops[from := s.op];
          assert forall i | 0 <= i < from :: pick(ops[i]).None?;
          FirstOfTail(after, pick, none, from);
          FirstOfTail(ops, pick, none, from);
          assert after[from..][1..] == ops[from..][1..];
        }
      } else {
        SetFrom(ops, e, has, pick, none, x, from + 1);
      }
    }
  }

  // A part that is set reads back where the first operand that has one is no vector
  // address; where it is one, the edit goes there if it fits, and the getter goes on
  // reading what it read before.
  lemma MemoryBaseSet(v: Insn, reg: Register)
    requires v.WellFormed()
    ensures var w, met := Edited(v, Edit.SetMemoryBase(reg)), FirstWith(v.ops, HasBase);
            && (w.Some? <==> met.Some?)
            && (w.Some? ==> w.value.MemoryBase() == if met.value.SveMem? then v.MemoryBase() else reg)
  {
    assert v.ops[0..] == v.ops;
    WithSome(v.ops, HasBase);
    SetFrom(v.ops, Edit.SetMemoryBase(reg), HasBase, BaseIn, NoRegister, reg, 0);
  }

  lemma MemoryIndexSet(v: Insn, reg: Register)
    requires v.WellFormed()
    ensures var w, met := Edited(v, Edit.SetMemoryIndex(reg)), FirstWith(v.ops, HasIndex);
            && (w.Some? <==> met.Some?)
            && (w.Some? ==> w.value.MemoryIndex() == if met.value.SveMem? then v.MemoryIndex() else reg)
  {
    assert v.ops[0..] == v.ops;
    WithSome(v.ops, HasIndex);
    SetFrom(v.ops, Edit.SetMemoryIndex(reg), HasIndex, IndexIn, NoRegister, reg, 0);
  }

  lemma MemoryDisplacementSet(v: Insn, disp: I64)
    requires v.WellFormed()
    ensures var w, met := Edited(v, Edit.SetMemoryDisplacement64(disp)), FirstWith(v.ops, HasDisplacement);
            && (w.Some? <==> met.Some? && (met.value.SveMem? ==> FitsI32(disp)))
            && (w.Some? ==>
                  w.value.MemoryDisplacement64() == if met.value.SveMem? then v.MemoryDisplacement64() else disp)
  {
    assert v.ops[0..] == v.ops;
    WithSome(v.ops, HasDisplacement);
    SetFrom(v.ops, Edit.SetMemoryDisplacement64(disp), HasDisplacement, DisplacementIn, 0, disp, 0);
  }

  lemma {:induction false} WithSome(ops: seq<Operand>, has: Operand -> bool)
    ensures var met := FirstWith(ops, has); met.Some? ==> has(met.value)
  {
    if ops != [] && !has(ops[0]) { WithSome(ops[1..], has); }
  }

  // So every value that is set reads back exactly when there is such an operand and it is
  // no vector address.
  lemma MemoryReadsBackIff(v: Insn)
    requires v.WellFormed()
    ensures (forall r :: Edited(v, Edit.SetMemoryBase(r)).Some? && Apply(v, Edit.SetMemoryBase(r)).MemoryBase() == r)
            <==> FirstWith(v.ops, HasBase).Some? && !FirstWith(v.ops, HasBase).value.SveMem?
    ensures (forall r :: Edited(v, Edit.SetMemoryIndex(r)).Some? && Apply(v, Edit.SetMemoryIndex(r)).MemoryIndex() == r)
            <==> FirstWith(v.ops, HasIndex).Some? && !FirstWith(v.ops, HasIndex).value.SveMem?
    ensures (forall d :: var e := Edit.SetMemoryDisplacement64(d);
                         Edited(v, e).Some? && Apply(v, e).MemoryDisplacement64() == d)
            <==> FirstWith(v.ops, HasDisplacement).Some? && !FirstWith(v.ops, HasDisplacement).value.SveMem?
  {
    forall r { MemoryBaseSet(v, r); }
    forall r { MemoryIndexSet(v, r); }
    forall d { MemoryDisplacementSet(v, d); }
    var base := if v.MemoryBase() == Sp then Xzr else Sp;
    var index := if v.MemoryIndex() == Sp then Xzr else Sp;
    var disp := if v.MemoryDisplacement64() == 0 then 1 else 0;
    MemoryBaseSet(v, base);
    MemoryIndexSet(v, index);
    MemoryDisplacementSet(v, disp);
  }
}
