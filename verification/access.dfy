/** The access lists of `src/info.rs` and `src/implicit.rs`: how accesses to one register
    merge, and a fixed array of registers that refines a map with that merge as join. */
module Access {
  import opened Isa

  datatype OpAccess = NoAccess | Read | Write | ReadWrite | CondRead | CondWrite

  function Merge(a: OpAccess, b: OpAccess): OpAccess {
    if a.NoAccess? then b
    else if b.NoAccess? then a
    else if a == b then a
    else ReadWrite
  }

  predicate Reads(a: OpAccess) { a.Read? || a.ReadWrite? || a.CondRead? }

  predicate Writes(a: OpAccess) { a.Write? || a.ReadWrite? || a.CondWrite? }

  // a reports everything b does.
  predicate Includes(a: OpAccess, b: OpAccess) { Merge(a, b) == a }

  // Merging is a join: a commutative, associative, idempotent operation with
  // identity NoAccess, and the least access that includes both.
  lemma MergeIsJoin(a: OpAccess, b: OpAccess, c: OpAccess)
    ensures Merge(a, b) == Merge(b, a) && Merge(a, Merge(b, c)) == Merge(Merge(a, b), c)
    ensures Merge(a, a) == a && Merge(a, NoAccess) == a
    ensures Includes(Merge(a, b), a) && Includes(Merge(a, b), b)
    ensures Includes(c, a) && Includes(c, b) ==> Includes(c, Merge(a, b))
    ensures Includes(a, b) && Includes(b, a) ==> a == b
  {
  }

  // It adds up what is read and written, except that a plain and a conditional access
  // of one kind merge to both kinds.
  lemma MergeAddsUp(a: OpAccess, b: OpAccess)
    ensures (Reads(Merge(a, b)) == (Reads(a) || Reads(b)) && Writes(Merge(a, b)) == (Writes(a) || Writes(b)))
            <==> {a, b} != {Read, CondRead} && {a, b} != {Write, CondWrite}
  {
    assert Read in {Read, CondRead} && CondRead in {Read, CondRead};
    assert Write in {Write, CondWrite} && CondWrite in {Write, CondWrite};
    assert a in {a, b} && b in {a, b};
  }

  datatype UsedRegister = UsedRegister(register: Register, access: OpAccess)

  // What add does not ignore.
  predicate Counts(u: UsedRegister) { !u.register.NoRegister? && !u.access.NoAccess? }

  // --- Lists of entries, as add builds them. ---

  // The position of r, or the length.
  function IndexOf(es: seq<UsedRegister>, r: Register): (i: nat)
    ensures i <= |es| && (i < |es| ==> es[i].register == r)
  {
    if es == [] || es[0].register == r then 0 else 1 + IndexOf(es[1..], r)
  }

  lemma {:induction false} IndexOfIsFirst(es: seq<UsedRegister>, r: Register)
    ensures forall j | 0 <= j < IndexOf(es, r) :: es[j].register != r
  {
    if es != [] && es[0].register != r {
      IndexOfIsFirst(es[1..], r);
      assert forall j | 0 < j < IndexOf(es, r) :: es[j] == es[1..][j - 1];
    }
  }

  lemma IndexOfIs(es: seq<UsedRegister>, r: Register, i: nat)
    requires i <= |es| && (i < |es| ==> es[i].register == r)
    requires forall j | 0 <= j < i :: es[j].register != r
    ensures IndexOf(es, r) == i
  {
    IndexOfIsFirst(es, r);
  }

  function AddTo(es: seq<UsedRegister>, cap: nat, u: UsedRegister): seq<UsedRegister> {
    var i := IndexOf(es, u.register);
    if !Counts(u) then es
    else if i < |es| then es[i := UsedRegister(u.register, Merge(es[i].access, u.access))]
    else if |es| < cap then es + [u]
    else es
  }

  function AddAll(es: seq<UsedRegister>, cap: nat, adds: seq<UsedRegister>): seq<UsedRegister>
    decreases |adds|
  {
    if adds == [] then es else AddAll(AddTo(es, cap, adds[0]), cap, adds[1..])
  }

  lemma {:induction false} AddAllInParts(es: seq<UsedRegister>, cap: nat, a: seq<UsedRegister>, b: seq<UsedRegister>)
    ensures AddAll(es, cap, a + b) == AddAll(AddAll(es, cap, a), cap, b)
    decreases |a|
  {
    if a == [] {
      assert a + b == b;
    } else {
      assert (a + b)[1..] == a[1..] + b;
      AddAllInParts(AddTo(es, cap, a[0]), cap, a[1..], b);
    }
  }

  lemma AddAllOne(es: seq<UsedRegister>, cap: nat, u: UsedRegister)
    ensures AddAll(es, cap, [u]) == AddTo(es, cap, u)
  {
    assert [u][1..] == [];
    assert AddAll(AddTo(es, cap, u), cap, []) == AddTo(es, cap, u);
  }

  lemma AddAllTwo(es: seq<UsedRegister>, cap: nat, t: UsedRegister, u: UsedRegister)
    ensures AddAll(es, cap, [t, u]) == AddTo(AddTo(es, cap, t), cap, u)
  {
    assert [t, u][1..] == [u];
    assert AddAll(AddTo(es, cap, t), cap, [u]) == AddTo(AddTo(es, cap, t), cap, u);
  }

  function AccessOf(es: seq<UsedRegister>, r: Register): OpAccess {
    var i := IndexOf(es, r);
    if i < |es| then es[i].access else NoAccess
  }

  // --- The simple form: for each register, the join of its adds. ---

  function Touch(u: UsedRegister, r: Register): OpAccess {
    if u.register == r then u.access else NoAccess
  }

  function JoinOf(adds: seq<UsedRegister>, r: Register): OpAccess {
    if adds == [] then NoAccess else Merge(JoinOf(adds[..|adds| - 1], r), Touch(adds[|adds| - 1], r))
  }

  function Named(adds: seq<UsedRegister>): set<Register> {
    set u | u in adds && Counts(u) :: u.register
  }

  lemma JoinOfSnoc(adds: seq<UsedRegister>, u: UsedRegister, r: Register)
    ensures JoinOf(adds + [u], r) == Merge(JoinOf(adds, r), Touch(u, r))
  {
    assert (adds + [u])[..|adds|] == adds;
  }

  // The join includes every add of the register, and nothing less does.
  lemma {:induction false} JoinIncludes(adds: seq<UsedRegister>, u: UsedRegister)
    requires u in adds
    ensures Includes(JoinOf(adds, u.register), u.access)
  {
    var n := |adds| - 1;
    MergeIsJoin(JoinOf(adds[..n], u.register), Touch(adds[n], u.register), u.access);
    if u != adds[n] {
      assert u in adds[..n];
      JoinIncludes(adds[..n], u);
    }
  }

  lemma {:induction false} JoinIsLeast(adds: seq<UsedRegister>, r: Register, bound: OpAccess)
    requires forall u | u in adds && u.register == r :: Includes(bound, u.access)
    ensures Includes(bound, JoinOf(adds, r))
  {
    if adds != [] {
      var n := |adds| - 1;
      assert adds[n] in adds;
      assert forall u | u in adds[..n] :: u in adds;
      JoinIsLeast(adds[..n], r, bound);
      MergeIsJoin(JoinOf(adds[..n], r), Touch(adds[n], r), bound);
    }
  }

  // So neither order nor repetition matters: the same set of adds, the same joins.
  lemma JoinIgnoresOrder(a: seq<UsedRegister>, b: seq<UsedRegister>, r: Register)
    requires forall u :: u in a <==> u in b
    ensures JoinOf(a, r) == JoinOf(b, r)
  {
    forall u | u in a && u.register == r ensures Includes(JoinOf(b, r), u.access) { JoinIncludes(b, u); }
    forall u | u in b && u.register == r ensures Includes(JoinOf(a, r), u.access) { JoinIncludes(a, u); }
    JoinIsLeast(a, r, JoinOf(b, r));
    JoinIsLeast(b, r, JoinOf(a, r));
    MergeIsJoin(JoinOf(a, r), JoinOf(b, r), NoAccess);
  }

  lemma {:induction false} NamedIsJoined(adds: seq<UsedRegister>, r: Register)
    ensures r in Named(adds) <==> !r.NoRegister? && !JoinOf(adds, r).NoAccess?
  {
    if r in Named(adds) {
      var u :| u in adds && Counts(u) && u.register == r;
      JoinIncludes(adds, u);
    } else if !r.NoRegister? {
      JoinIsLeast(adds, r, NoAccess);
    }
  }

  // --- The list refines the simple form. ---

  predicate DuplicateFree(es: seq<UsedRegister>) {
    forall i, j | 0 <= i < j < |es| :: es[i].register != es[j].register
  }

  function RegistersIn(es: seq<UsedRegister>): set<Register> {
    set e | e in es :: e.register
  }

  // What the entries of a list built from adds are.
  ghost predicate Summary(adds: seq<UsedRegister>, cap: nat, es: seq<UsedRegister>) {
    && DuplicateFree(es) && |es| <= cap
    && (forall e | e in es :: Counts(e) && e.access == JoinOf(adds, e.register))
    && (forall r | r in Named(adds) && r !in RegistersIn(es) :: |es| == cap)
  }

  lemma NamedSnoc(adds: seq<UsedRegister>, u: UsedRegister)
    ensures Named(adds + [u]) == Named(adds) + (if Counts(u) then {u.register} else {})
  {
  }

  lemma SummaryExtends(adds: seq<UsedRegister>, cap: nat, es: seq<UsedRegister>, u: UsedRegister)
    requires Summary(adds, cap, es)
    ensures Summary(adds + [u], cap, AddTo(es, cap, u))
  {
    var after, i := AddTo(es, cap, u), IndexOf(es, u.register);
    NamedSnoc(adds, u);
    forall e | e in after
      ensures Counts(e) && e.access == JoinOf(adds + [u], e.register)
    {
      JoinOfSnoc(adds, u, e.register);
      NamedIsJoined(adds, e.register);
      MergeIsJoin(JoinOf(adds, e.register), u.access, NoAccess);
      NewJoins(adds, cap, es, u, e);
    }
    AddKeepsNames(es, cap, u);
  }

  // A register appended now was not named before.
  lemma NewJoins(adds: seq<UsedRegister>, cap: nat, es: seq<UsedRegister>, u: UsedRegister, e: UsedRegister)
    requires Summary(adds, cap, es) && e in AddTo(es, cap, u)
    ensures Counts(e)
    ensures e.access == Merge(JoinOf(adds, e.register), Touch(u, e.register)) || !Counts(u)
    ensures !Counts(u) ==> e in es && (u.register == e.register ==> u.access.NoAccess?)
  {
    var i := IndexOf(es, u.register);
    IndexOfIsFirst(es, u.register);
    NamedIsJoined(adds, e.register);
    if Counts(u) {
      if i < |es| {
        assert es[i] in es;
      } else if e !in es {
        assert u.register !in RegistersIn(es);
      }
    }
  }

  lemma AddKeepsNames(es: seq<UsedRegister>, cap: nat, u: UsedRegister)
    requires DuplicateFree(es)
    ensures DuplicateFree(AddTo(es, cap, u)) && |es| <= |AddTo(es, cap, u)|
    ensures |es| <= cap ==> |AddTo(es, cap, u)| <= cap
    ensures RegistersIn(es) <= RegistersIn(AddTo(es, cap, u))
    ensures Counts(u) && u.register !in RegistersIn(AddTo(es, cap, u)) ==> |es| >= cap
  {
    var after, i := AddTo(es, cap, u), IndexOf(es, u.register);
    IndexOfIsFirst(es, u.register);
    forall r | r in RegistersIn(es)
      ensures r in RegistersIn(after)
    {
      var k :| 0 <= k < |es| && es[k].register == r;
      assert after[k].register == r && after[k] in after;
    }
    if Counts(u) && (i < |es| || |es| < cap) {
      assert after[i].register == u.register && after[i] in after;
    }
  }

  lemma {:induction false} AddAllSummary(pre: seq<UsedRegister>, cap: nat, es: seq<UsedRegister>,
                                         adds: seq<UsedRegister>, all: seq<UsedRegister>)
    requires Summary(pre, cap, es) && all == pre + adds
    ensures Summary(all, cap, AddAll(es, cap, adds))
    decreases |adds|
  {
    if adds == [] {
      assert all == pre;
    } else {
      SummaryExtends(pre, cap, es, adds[0]);
      assert all == pre + [adds[0]] + adds[1..];
      AddAllSummary(pre + [adds[0]], cap, AddTo(es, cap, adds[0]), adds[1..], all);
    }
  }

  lemma {:induction false} CountOfNames(es: seq<UsedRegister>)
    requires DuplicateFree(es)
    ensures |RegistersIn(es)| == |es|
  {
    if es != [] {
      var n := |es| - 1;
      CountOfNames(es[..n]);
      assert es == es[..n] + [es[n]];
      assert RegistersIn(es) == RegistersIn(es[..n]) + {es[n].register};
      assert forall k | 0 <= k < n :: es[k].register != es[n].register;
      assert es[n].register !in RegistersIn(es[..n]);
    }
  }

  lemma SubsetsCount<T>(a: set<T>, b: set<T>)
    requires a <= b
    ensures |a| <= |b| && (|a| == |b| ==> a == b)
  {
    assert b == a + (b - a);
  }

  lemma EntriesAreNamed(adds: seq<UsedRegister>, cap: nat, es: seq<UsedRegister>)
    requires Summary(adds, cap, es)
    ensures RegistersIn(es) <= Named(adds)
  {
    forall r | r in RegistersIn(es)
      ensures r in Named(adds)
    {
      var e :| e in es && e.register == r;
      NamedIsJoined(adds, r);
    }
  }

  // No register is dropped exactly when no more than the capacity are named.
  lemma CompleteIff(adds: seq<UsedRegister>, cap: nat, es: seq<UsedRegister>)
    requires Summary(adds, cap, es)
    ensures RegistersIn(es) == Named(adds) <==> |Named(adds)| <= cap
  {
    EntriesAreNamed(adds, cap, es);
    CountOfNames(es);
    SubsetsCount(RegistersIn(es), Named(adds));
  }

  lemma AccessInSummary(adds: seq<UsedRegister>, cap: nat, es: seq<UsedRegister>, r: Register)
    requires Summary(adds, cap, es) && !r.NoRegister?
    ensures AccessOf(es, r) == if r in RegistersIn(es) then JoinOf(adds, r) else NoAccess
  {
    var i := IndexOf(es, r);
    IndexOfIsFirst(es, r);
    if i < |es| {
      assert es[i] in es;
    }
  }

  lemma EmptySummary(cap: nat)
    ensures Summary([], cap, [])
  {
  }

  // A list built by any run of adds: duplicate-free; complete exactly when the
  // registers named fit; and what it reports for a register it holds is the join of all
  // the adds of that register.
  lemma ListRefinesMap(adds: seq<UsedRegister>, cap: nat, r: Register)
    requires !r.NoRegister?
    ensures var es := AddAll([], cap, adds);
            && DuplicateFree(es) && |es| <= cap
            && (RegistersIn(es) == Named(adds) <==> |Named(adds)| <= cap)
            && AccessOf(es, r) == (if r in RegistersIn(es) then JoinOf(adds, r) else NoAccess)
  {
    EmptySummary(cap);
    AddAllSummary([], cap, [], adds, adds);
    CompleteIff(adds, cap, AddAll([], cap, adds));
    AccessInSummary(adds, cap, AddAll([], cap, adds), r);
  }

  // Within capacity the list is the map.
  lemma ListIsMap(adds: seq<UsedRegister>, cap: nat, r: Register)
    requires |Named(adds)| <= cap && !r.NoRegister?
    ensures var es := AddAll([], cap, adds);
            AccessOf(es, r) == JoinOf(adds, r) && RegistersIn(es) == Named(adds) && |es| == |Named(adds)|
  {
    ListRefinesMap(adds, cap, r);
    NamedIsJoined(adds, r);
    CountOfNames(AddAll([], cap, adds));
  }

  // --- The object: ImplicitRegisters, and the registers of InfoBuilder. ---

  class AccessList {
    const regs: array<UsedRegister>
    var count: nat

    ghost predicate Valid()
      reads this
    {
      count <= regs.Length
    }

    ghost function Entries(): seq<UsedRegister>
      requires Valid()
      reads this, regs
    {
      regs[..count]
    }

    constructor (capacity: nat)
      ensures Valid() && fresh(regs) && regs.Length == capacity && Entries() == []
    {
      regs := new UsedRegister[capacity](_ => UsedRegister(NoRegister, NoAccess));
      count := 0;
    }

    method Add(register: Register, access: OpAccess)
      requires Valid()
      modifies this, regs
      ensures Valid()
      ensures Entries() == AddTo(old(Entries()), regs.Length, UsedRegister(register, access))
    {
      if register.NoRegister? || access.NoAccess? {
        return;
      }
      for i := 0 to count
        invariant forall j | 0 <= j < i :: regs[j].register != register
        invariant regs[..] == old(regs[..]) && count == old(count)
      {
        if regs[i].register == register {
          IndexOfIs(Entries(), register, i);
          regs[i] := UsedRegister(register, Merge(regs[i].access, access));
          assert Entries() == old(Entries())[i := regs[i]];
          return;
        }
      }
      IndexOfIs(Entries(), register, count);
      if count < regs.Length {
        regs[count] := UsedRegister(register, access);
        count := count + 1;
        assert Entries() == old(Entries()) + [UsedRegister(register, access)];
      }
    }

    method Find(register: Register) returns (access: OpAccess)
      requires Valid()
      ensures access == AccessOf(Entries(), register)
    {
      for i := 0 to count
        invariant forall j | 0 <= j < i :: regs[j].register != register
      {
        assert Entries()[i] == regs[i];
        if regs[i].register == register {
          IndexOfIs(Entries(), register, i);
          return regs[i].access;
        }
      }
      IndexOfIs(Entries(), register, count);
      return NoAccess;
    }
  }
}
