/** `src/instruction.rs`: the instruction value, what its accessors report, and its
    editing state machine. `Insn` is the value; `Instruction` is the object with a
    five-slot operand array whose methods are proved to compute on that value. */
module Instructions {
  import opened Wrappers
  import opened Ints
  import opened Isa

  const MAX_OPERANDS := 5

  datatype Insn = Insn(word: bv32, ip: U64, code: Code, mnemonic: Mnemonic, ops: seq<Operand>, modified: bool) {

    predicate WellFormed() { |ops| <= MAX_OPERANDS }

    predicate IsInvalid() { code.Invalid? }

    // Out-of-range slots read as empty.
    function Op(n: nat): Operand {
      if n < |ops| then ops[n] else NoOperand
    }

    // op_register and op_immediate.
    function OpRegister(n: nat): Register {
      if Op(n).Reg? then Op(n).reg else NoRegister
    }

    function OpImmediate(n: nat): U64 {
      var o := Op(n);
      if o.ImmUnsigned? || o.ImmLogical? then o.value
      else if o.ImmSigned? then Unsigned(o.signed)
      else if o.Label? then o.target
      else 0
    }

    predicate HasLabel() { exists i :: 0 <= i < |ops| && ops[i].Label? }

    // --- Building, as the decoders do it. ---

    function Set(c: Code): Insn {
      this.(code := c, mnemonic := MnemonicOf(c), ops := [])
    }

    function SetAlias(m: Mnemonic): Insn { this.(mnemonic := m) }

    function Push(op: Operand): Insn {
      if |ops| < MAX_OPERANDS then this.(ops := ops + [op]) else this
    }

    // --- Accessors. ---

    function FlowControlOf(): FlowControl { FlowControlFor(mnemonic, code) }

    function FlagEffectOf(): FlagEffect { FlagEffectFor(mnemonic) }

    predicate IsDirectBranch() { IsDirect(FlowControlOf()) }

    function NearBranchTarget(): U64 {
      if IsDirectBranch() then FirstLabel(ops) else 0
    }

    // The memory getters look past the vector addresses.
    function MemoryBase(): Register { FirstOf(ops, BaseIn, NoRegister) }

    function MemoryIndex(): Register { FirstOf(ops, IndexIn, NoRegister) }

    function MemoryDisplacement64(): I64 { FirstOf(ops, DisplacementIn, 0) }

    function ConditionOf(): Option<Condition> {
      if FirstCond(ops).Some? then FirstCond(ops) else FusedCondition(mnemonic)
    }
  }

  // The condition a fused compare-and-branch spells in its name.
  function FusedCondition(m: Mnemonic): Option<Condition> {
    var c := OwnerOf(m);
    if c.Cbgt? || c.Cbbgt? || c.Cbhgt? then Some(Condition.Gt)
    else if c.Cbge? || c.Cbbge? || c.Cbhge? then Some(Condition.Ge)
    else if c.Cbhi? || c.Cbbhi? || c.Cbhhi? then Some(Condition.Hi)
    else if c.Cbhs? || c.Cbbhs? || c.Cbhhs? then Some(Condition.Cs)
    else if c.Cbeq? || c.Cbbeq? || c.Cbheq? then Some(Condition.Eq)
    else if c.Cbne? || c.Cbbne? || c.Cbhne? then Some(Condition.Ne)
    else if c.Cblt? then Some(Condition.Lt)
    else if c.Cblo? then Some(Condition.Cc)
    else None
  }

  function FlowControlFor(m: Mnemonic, c: Code): FlowControl {
    if m.B? then (if c.BCond? then ConditionalBranch else UnconditionalBranch)
    else if m.Cbz? || m.Cbnz? then ConditionalBranch
    else OwnFlow(OwnerOf(m))
  }

  // By the encoding that has the mnemonic to itself.
  function OwnFlow(c: Code): FlowControl {
    if c.BcCond? || c.Tbz? || c.Tbnz? || IsCmpbr(c) then ConditionalBranch
    else if c.BlImm? then Call
    else if c.Blr? || c.Blraa? || c.Blraaz? || c.Blrab? || c.Blrabz? then IndirectCall
    else if c.Br? || c.Braa? || c.Braaz? || c.Brab? || c.Brabz? then IndirectBranch
    else if c.Ret? || c.Retaa? || c.Retab? || c.Eret? || c.Eretaa? || c.Eretab? || c.Drps? then Return
    else if c.Retaasppc? || c.Retabsppc? || c.Retaasppcr? || c.Retabsppcr? then Return
    else if c.Svc? || c.Hvc? || c.Smc? || c.Brk? || c.Hlt? || c.Dcps1? || c.Dcps2? || c.Dcps3? then Exception
    else Next
  }

  predicate IsDirect(f: FlowControl) {
    f.ConditionalBranch? || f.UnconditionalBranch? || f.Call?
  }

  // CFINV, XAFLAG and AXFLAG.
  predicate IsFlagOp(c: Code) { c.Cfinv? || c.Xaflag? || c.Axflag? }

  function FlagEffectFor(m: Mnemonic): FlagEffect {
    var n := ForeignNumber(m);
    if n == ADDS || n == SUBS || n == ADCS || n == SBCS || n == ANDS || n == BICS || n == NEGS || n == NGCS
       || n == CMP || n == CMN || n == TST || n == CCMP || n == CCMN then SetsNormal
    else if n == FCMP || n == FCMPE || n == FCCMP || n == FCCMPE then SetsFloat
    else if n == RMIF || n == SETF8 || n == SETF16 || n == RDFFRS || IsFlagOp(OwnerOf(m)) then Sets
    else NoFlags
  }

  // One instruction, wherever it was read from.
  predicate SameMeaning(d: Insn, e: Insn) {
    d.code == e.code && d.mnemonic == e.mnemonic && d.ops == e.ops
  }

  // new_invalid: an undecoded word at its address.
  function NewInvalid(word: bv32, ip: U64): Insn {
    Insn(word, ip, Code.Invalid, Own(Code.Invalid), [], false)
  }

  function FirstLabel(ops: seq<Operand>): U64 {
    if ops == [] then 0 else if ops[0].Label? then ops[0].target else FirstLabel(ops[1..])
  }

  // What the first operand that has one carries.
  function FirstOf<T>(ops: seq<Operand>, pick: Operand -> Option<T>, none: T): T {
    if ops == [] then none
    else if pick(ops[0]).Some? then pick(ops[0]).value
    else FirstOf(ops[1..], pick, none)
  }

  function BaseIn(op: Operand): Option<Register> {
    if op.MemImm? || op.MemExt? then Some(op.base) else None
  }

  function IndexIn(op: Operand): Option<Register> {
    if op.MemExt? then Some(op.index) else None
  }

  function DisplacementIn(op: Operand): Option<I64> {
    if op.MemImm? then Some(op.disp) else None
  }

  function FirstCond(ops: seq<Operand>): Option<Condition> {
    if ops == [] then None else if ops[0].Cond? then Some(ops[0].cond) else FirstCond(ops[1..])
  }

  // --- Editing. ---

  datatype Edit =
    | SetIp(ip: U64)
    | Relocate(ip: U64)
    | SetCode(code: Code)
    | SetMnemonic(mnemonic: Mnemonic)
    | SetOp(slot: nat, op: Operand)
    | SetOpCount(count: nat)
    | PushOp(op: Operand)
    | SetOpRegister(slot: nat, reg: Register)
    | SetOpRegisterUnchecked(slot: nat, reg: Register)
    | SetOpImmediate(slot: nat, value: U64)
    | SetCondition(cond: Condition)
    | SetLabel(target: U64)
    | SetNearBranchTarget(target: U64)
    | SetMemoryBase(reg: Register)
    | SetMemoryIndex(reg: Register)
    | SetMemoryDisplacement64(disp: I64)

  // What a setter does at one operand: pass it by, give up, or replace it.
  datatype Step = Skip | Refuse | Put(op: Operand)

  // Add delta to every label.
  function ShiftLabel(op: Operand, delta: U64): Operand {
    if op.Label? then Label(Add(op.target, delta)) else op
  }

  function ShiftLabels(ops: seq<Operand>, delta: U64): (r: seq<Operand>)
    ensures |r| == |ops|
    ensures forall i | 0 <= i < |ops| :: r[i] == ShiftLabel(ops[i], delta)
  {
    if ops == [] then [] else [ShiftLabel(ops[0], delta)] + ShiftLabels(ops[1..], delta)
  }

  // Whether one of the first n operands is a label.
  predicate LabelBelow(ops: seq<Operand>, n: nat)
    requires n <= |ops|
  {
    n > 0 && (LabelBelow(ops, n - 1) || ops[n - 1].Label?)
  }

  lemma {:induction false} LabelBelowMeans(ops: seq<Operand>, n: nat)
    requires n <= |ops|
    ensures LabelBelow(ops, n) <==> exists i :: 0 <= i < n && ops[i].Label?
  {
    if n > 0 { LabelBelowMeans(ops, n - 1); }
  }

  lemma LabelBelowAll(v: Insn)
    ensures LabelBelow(v.ops, |v.ops|) == v.HasLabel()
  {
    LabelBelowMeans(v.ops, |v.ops|);
  }

  function Blank(n: nat): seq<Operand> {
    seq(n, _ => NoOperand)
  }

  // The single register set_op_register can replace.
  function RegisterComponent(op: Operand): Option<Register> {
    if op.Reg? || op.RegBang? || op.IndexedElement? || op.PredCounter? then Some(op.reg) else None
  }

  function WithRegister(op: Operand, reg: Register): Step {
    if op.Reg? then Put(Reg(reg, op.deco))
    else if op.RegBang? then Put(RegBang(reg))
    else if op.IndexedElement? then Put(IndexedElement(reg, op.elemArr, op.index, op.elemImm))
    else if op.PredCounter? then Put(PredCounter(reg, op.zeroing, op.pcArr, op.pcIndex))
    else Refuse
  }

  predicate AcceptsRegister(op: Operand, reg: Register) {
    op.PredCounter? ==> Number(reg) >= 8
  }

  function WithImmediate(op: Operand, value: U64): Step {
    if op.ImmUnsigned? then Put(ImmUnsigned(value))
    else if op.ImmLogical? then Put(ImmLogical(value))
    else if op.Label? then Put(Label(value))
    else if op.ImmSigned? then Put(ImmSigned(Signed(value)))
    else if op.ImmSignedDec? then Put(ImmSignedDec(Signed(value)))
    else if op.ShiftAmount? && value <= 0xff then Put(ShiftAmount(value))
    else if op.ImmShiftedMove? && value <= 0xffff then Put(ImmShiftedMove(value, op.lsl))
    else if op.ImmShiftedMsl? && value <= 0xffff then Put(ImmShiftedMsl(value, op.msl))
    else Refuse
  }

  function WithCondition(op: Operand, c: Condition): Step {
    if op.Cond? then Put(Cond(c)) else Skip
  }

  function WithLabel(op: Operand, target: U64): Step {
    if op.Label? then Put(Label(target)) else Skip
  }

  function WithBase(op: Operand, reg: Register): Step {
    if op.MemImm? then Put(MemImm(reg, op.disp, op.mode))
    else if op.MemExt? then Put(MemExt(reg, op.index, op.ext, op.scale))
    else if op.SveMem? then Put(SveMem(reg, op.index, op.disp32, op.sveMode))
    else Skip
  }

  function WithIndex(op: Operand, reg: Register): Step {
    if op.MemExt? then Put(MemExt(op.base, reg, op.ext, op.scale))
    else if op.SveMem? then Put(SveMem(op.base, reg, op.disp32, op.sveMode))
    else Skip
  }

  // i32::try_from.
  predicate FitsI32(disp: I64) {
    -0x8000_0000 <= disp < 0x8000_0000
  }

  function WithDisplacement(op: Operand, disp: I64): Step {
    if op.MemImm? then Put(MemImm(op.base, disp, op.mode))
    else if !op.SveMem? then Skip
    else if FitsI32(disp) then Put(SveMem(op.base, op.index, disp, op.sveMode))
    else Refuse
  }

  // The rule an edit follows at each operand, first to last, until one does not skip.
  function StepOf(e: Edit, op: Operand): Step {
    match e
    case SetCondition(c) => WithCondition(op, c)
    case SetLabel(t) => WithLabel(op, t)
    case SetNearBranchTarget(t) => WithLabel(op, t)
    case SetMemoryBase(r) => WithBase(op, r)
    case SetMemoryIndex(r) => WithIndex(op, r)
    case SetMemoryDisplacement64(d) => WithDisplacement(op, d)
    case _ => Refuse
  }

  function EditFirst(ops: seq<Operand>, e: Edit, from: nat): Option<seq<Operand>>
    requires from <= |ops|
    decreases |ops| - from
  {
    if from == |ops| then None
    else
      match StepOf(e, ops[from])
      case Skip => EditFirst(ops, e, from + 1)
      case Refuse => None
      case Put(op) => Some(ops[from := op])
  }

  // The new value, or None when the edit returns false.
  function Edited(v: Insn, e: Edit): Option<Insn>
    requires v.WellFormed()
  {
    match e
    case SetIp(ip) => Some(v.(ip := ip, modified := v.modified || v.HasLabel()))
    case Relocate(ip) => Some(Relocated(v, ip, Sub(ip, v.ip)))
    case SetCode(c) => Some(v.(code := c, mnemonic := MnemonicOf(c), modified := true))
    case SetMnemonic(m) => Some(v.(mnemonic := m, modified := true))
    case SetOp(n, op) =>
      if n >= MAX_OPERANDS then None
      else if n < |v.ops| then Some(v.(ops := v.ops[n := op], modified := true))
      else Some(v.(ops := v.ops + Blank(n - |v.ops|) + [op], modified := true))
    case SetOpCount(count) =>
      if count > MAX_OPERANDS then None
      else if count <= |v.ops| then Some(v.(ops := v.ops[..count], modified := true))
      else Some(v.(ops := v.ops + Blank(count - |v.ops|), modified := true))
    case PushOp(op) =>
      if |v.ops| >= MAX_OPERANDS then None else Some(v.(ops := v.ops + [op], modified := true))
    case SetOpRegister(n, reg) => EditedRegister(v, n, reg)
    case SetOpRegisterUnchecked(n, reg) => EditedSlot(v, n, WithRegister(v.Op(n), reg))
    case SetOpImmediate(n, value) => EditedSlot(v, n, WithImmediate(v.Op(n), value))
    case SetNearBranchTarget(_) => if v.IsDirectBranch() then EditedFirst(v, e) else None
    case _ => EditedFirst(v, e)
  }

  function Relocated(v: Insn, ip: U64, delta: U64): Insn {
    v.(ip := ip, ops := ShiftLabels(v.ops, delta), modified := v.modified || v.HasLabel())
  }

  function EditedSlot(v: Insn, n: nat, s: Step): Option<Insn> {
    if n < |v.ops| && s.Put? then Some(v.(ops := v.ops[n := s.op], modified := true)) else None
  }

  function EditedRegister(v: Insn, n: nat, reg: Register): Option<Insn> {
    var current := RegisterComponent(v.Op(n));
    if current.None? then None
    else if Class(current.value) != Class(reg) || WidthBits(current.value) != WidthBits(reg) then None
    else if !AcceptsRegister(v.Op(n), reg) then None
    else EditedSlot(v, n, WithRegister(v.Op(n), reg))
  }

  function EditedFirst(v: Insn, e: Edit): Option<Insn> {
    match EditFirst(v.ops, e, 0)
    case None => None
    case Some(ops) => Some(v.(ops := ops, modified := true))
  }

  // One edit of a history; a refused edit leaves the value alone.
  function Apply(v: Insn, e: Edit): Insn
    requires v.WellFormed()
  {
    match Edited(v, e)
    case None => v
    case Some(w) => w
  }

  // --- The object. ---

  class Instruction {
    var word: bv32
    var ip: U64
    var code: Code
    var mnemonic: Mnemonic
    var opCount: nat
    var flags: bv8
    const operands: array<Operand>

    ghost predicate Valid()
      reads this, operands
    {
      && operands.Length == MAX_OPERANDS
      && opCount <= MAX_OPERANDS
      && forall i | opCount <= i < MAX_OPERANDS :: operands[i] == NoOperand
    }

    ghost function View(): (v: Insn)
      requires Valid()
      reads this, operands
      ensures v.WellFormed()
    {
      Insn(word, ip, code, mnemonic, operands[..opCount], flags & 1 != 0)
    }

    // new_invalid; Default is New(0, 0).
    constructor New(word: bv32, ip: U64)
      ensures Valid() && fresh(operands)
      ensures View() == NewInvalid(word, ip)
    {
      this.word, this.ip := word, ip;
      code, mnemonic := Code.Invalid, Own(Code.Invalid);
      opCount, flags := 0, 0;
      operands := new Operand[MAX_OPERANDS](_ => NoOperand);
    }

    // *out = Instruction::new_invalid(word, ip).
    method Reset(word: bv32, ip: U64)
      requires operands.Length == MAX_OPERANDS
      modifies this, operands
      ensures Valid()
      ensures View() == NewInvalid(word, ip)
    {
      this.word, this.ip := word, ip;
      code, mnemonic := Code.Invalid, Own(Code.Invalid);
      opCount, flags := 0, 0;
      forall i | 0 <= i < MAX_OPERANDS { operands[i] := NoOperand; }
    }

    method Set(c: Code)
      requires Valid()
      modifies this, operands
      ensures Valid()
      ensures View() == old(View()).Set(c)
    {
      code := c;
      mnemonic := MnemonicOf(c);
      opCount := 0;
      forall i | 0 <= i < MAX_OPERANDS { operands[i] := NoOperand; }
    }

    method SetAlias(m: Mnemonic)
      requires Valid()
      modifies this
      ensures Valid()
      ensures View() == old(View()).SetAlias(m)
    {
      mnemonic := m;
    }

    method PushOperand(op: Operand)
      requires Valid()
      modifies this, operands
      ensures Valid()
      ensures View() == old(View()).Push(op)
    {
      var i := opCount;
      if i < MAX_OPERANDS {
        operands[i] := op;
        opCount := i + 1;
      }
    }

    // The value, as a copy.
    method Copy() returns (v: Insn)
      requires Valid()
      ensures v == View()
    {
      v := Insn(word, ip, code, mnemonic, operands[..opCount], flags & 1 != 0);
    }

    function Op(n: nat): (op: Operand)
      requires Valid()
      reads this, operands
      ensures op == View().Op(n)
    {
      if n < opCount then operands[n] else NoOperand
    }

    method NearBranchTarget() returns (target: U64)
      requires Valid()
      ensures target == View().NearBranchTarget()
    {
      ghost var ops := View().ops;
      if IsDirect(FlowControlFor(mnemonic, code)) {
        for i := 0 to opCount
          invariant FirstLabel(ops) == FirstLabel(ops[i..])
        {
          if operands[i].Label? {
            return operands[i].target;
          }
        }
      }
      return 0;
    }

    method MemoryBase() returns (r: Register)
      requires Valid()
      ensures r == View().MemoryBase()
    {
      ghost var ops := View().ops;
      for i := 0 to opCount
        invariant FirstOf(ops, BaseIn, NoRegister) == FirstOf(ops[i..], BaseIn, NoRegister)
      {
        if operands[i].MemImm? || operands[i].MemExt? {
          return operands[i].base;
        }
      }
      return NoRegister;
    }

    method MemoryIndex() returns (r: Register)
      requires Valid()
      ensures r == View().MemoryIndex()
    {
      ghost var ops := View().ops;
      for i := 0 to opCount
        invariant FirstOf(ops, IndexIn, NoRegister) == FirstOf(ops[i..], IndexIn, NoRegister)
      {
        if operands[i].MemExt? {
          return operands[i].index;
        }
      }
      return NoRegister;
    }

    method MemoryDisplacement64() returns (disp: I64)
      requires Valid()
      ensures disp == View().MemoryDisplacement64()
    {
      ghost var ops := View().ops;
      for i := 0 to opCount
        invariant FirstOf(ops, DisplacementIn, 0) == FirstOf(ops[i..], DisplacementIn, 0)
      {
        if operands[i].MemImm? {
          return operands[i].disp;
        }
      }
      return 0;
    }

    // --- Public edits. Each returns whether it applied. ---

    method MarkModified()
      requires Valid()
      modifies this`flags
      ensures Valid()
      ensures View() == old(View()).(modified := true)
    {
      flags := flags | 1;
    }

    method HasLabel() returns (found: bool)
      requires Valid()
      ensures found == View().HasLabel()
    {
      for i := 0 to opCount
        invariant forall j | 0 <= j < i :: !View().ops[j].Label?
      {
        if operands[i].Label? {
          assert View().ops[i].Label?;
          return true;
        }
      }
      return false;
    }

    method SetIp(ip: U64)
      requires Valid()
      modifies this
      ensures Valid()
      ensures Edited(old(View()), Edit.SetIp(ip)) == Some(View())
    {
      this.ip := ip;
      var hasLabel := HasLabel();
      if hasLabel {
        MarkModified();
      }
    }

    method Relocate(ip: U64)
      requires Valid()
      modifies this, operands
      ensures Valid()
      ensures Edited(old(View()), Edit.Relocate(ip)) == Some(View())
    {
      ghost var before := View();
      var delta := Sub(ip, this.ip);
      var moved := ShiftAll(delta);
      this.ip := ip;
      if moved {
        MarkModified();
      }
      assert View() == Relocated(before, ip, delta);
    }

    method ShiftSlot(i: nat, delta: U64) returns (isLabel: bool)
      requires Valid() && i < opCount
      modifies operands
      ensures Valid()
      ensures isLabel == old(operands[i]).Label?
      ensures operands[i] == ShiftLabel(old(operands[i]), delta)
      ensures forall j | 0 <= j < MAX_OPERANDS && j != i :: operands[j] == old(operands[j])
    {
      isLabel := operands[i].Label?;
      if isLabel {
        operands[i] := Label(Add(operands[i].target, delta));
      }
    }

    // The loop of relocate.
    method ShiftAll(delta: U64) returns (moved: bool)
      requires Valid()
      modifies operands
      ensures Valid()
      ensures moved == old(View()).HasLabel()
      ensures View() == old(View()).(ops := ShiftLabels(old(View()).ops, delta))
    {
      moved := false;
      ghost var ops := View().ops;
      ghost var shifted := ShiftLabels(ops, delta);
      for i := 0 to opCount
        invariant Valid()
        invariant moved == LabelBelow(ops, i)
        invariant forall j | 0 <= j < i :: operands[j] == shifted[j]
        invariant forall j | i <= j < opCount :: operands[j] == ops[j]
      {
        var isLabel := ShiftSlot(i, delta);
        moved := moved || isLabel;
      }
      assert View().ops == shifted;
      LabelBelowAll(old(View()));
    }

    method SetCode(c: Code)
      requires Valid()
      modifies this
      ensures Valid()
      ensures Edited(old(View()), Edit.SetCode(c)) == Some(View())
    {
      code := c;
      mnemonic := MnemonicOf(c);
      MarkModified();
    }

    method SetMnemonic(m: Mnemonic)
      requires Valid()
      modifies this
      ensures Valid()
      ensures Edited(old(View()), Edit.SetMnemonic(m)) == Some(View())
    {
      mnemonic := m;
      MarkModified();
    }

    method SetOp(n: nat, op: Operand) returns (ok: bool)
      requires Valid()
      modifies this, operands
      ensures Valid()
      ensures Edited(old(View()), Edit.SetOp(n, op)) == if ok then Some(View()) else None
      ensures !ok ==> View() == old(View())
    {
      if n >= MAX_OPERANDS {
        return false;
      }
      operands[n] := op;
      if n >= opCount {
        opCount := n + 1;
      }
      MarkModified();
      assert View().ops == Edited(old(View()), Edit.SetOp(n, op)).value.ops;
      return true;
    }

    method SetOpCount(count: nat) returns (ok: bool)
      requires Valid()
      modifies this, operands
      ensures Valid()
      ensures Edited(old(View()), Edit.SetOpCount(count)) == if ok then Some(View()) else None
      ensures !ok ==> View() == old(View())
    {
      if count > MAX_OPERANDS {
        return false;
      }
      forall i | count <= i < MAX_OPERANDS { operands[i] := NoOperand; }
      opCount := count;
      MarkModified();
      assert View().ops == Edited(old(View()), Edit.SetOpCount(count)).value.ops;
      return true;
    }

    method PushOp(op: Operand) returns (ok: bool)
      requires Valid()
      modifies this, operands
      ensures Valid()
      ensures Edited(old(View()), Edit.PushOp(op)) == if ok then Some(View()) else None
      ensures !ok ==> View() == old(View())
    {
      var i := opCount;
      if i >= MAX_OPERANDS {
        return false;
      }
      operands[i] := op;
      opCount := i + 1;
      MarkModified();
      assert View().ops == old(View()).ops + [op];
      return true;
    }

    method SetOpRegister(n: nat, reg: Register) returns (ok: bool)
      requires Valid()
      modifies this, operands
      ensures Valid()
      ensures Edited(old(View()), Edit.SetOpRegister(n, reg)) == if ok then Some(View()) else None
      ensures !ok ==> View() == old(View())
    {
      var op := Op(n);
      var component := RegisterComponent(op);
      if component.None? {
        return false;
      }
      if Class(component.value) != Class(reg) || WidthBits(component.value) != WidthBits(reg) {
        return false;
      }
      if !AcceptsRegister(op, reg) {
        return false;
      }
      ok := SetOpRegisterUnchecked(n, reg);
    }

    method SetOpRegisterUnchecked(n: nat, reg: Register) returns (ok: bool)
      requires Valid()
      modifies this, operands
      ensures Valid()
      ensures Edited(old(View()), Edit.SetOpRegisterUnchecked(n, reg)) == if ok then Some(View()) else None
      ensures !ok ==> View() == old(View())
    {
      if n >= opCount {
        return false;
      }
      ok := PutAt(n, WithRegister(operands[n], reg));
    }

    method SetOpImmediate(n: nat, value: U64) returns (ok: bool)
      requires Valid()
      modifies this, operands
      ensures Valid()
      ensures Edited(old(View()), Edit.SetOpImmediate(n, value)) == if ok then Some(View()) else None
      ensures !ok ==> View() == old(View())
    {
      if n >= opCount {
        return false;
      }
      ok := PutAt(n, WithImmediate(operands[n], value));
    }

    // Store the outcome of a match on operand n.
    method PutAt(n: nat, s: Step) returns (ok: bool)
      requires Valid() && n < opCount
      modifies this`flags, operands
      ensures Valid() && opCount == old(opCount)
      ensures ok == s.Put?
      ensures ok ==> View() == old(View()).(ops := old(View()).ops[n := s.op], modified := true)
      ensures !ok ==> View() == old(View())
    {
      if !s.Put? {
        return false;
      }
      operands[n] := s.op;
      MarkModified();
      assert View().ops == old(View()).ops[n := s.op];
      return true;
    }

    // The loop of set_condition, set_label and the memory setters: the first operand
    // the edit does not skip decides.
    method EditFirstOperand(e: Edit) returns (ok: bool)
      requires Valid()
      modifies this`flags, operands
      ensures Valid()
      ensures EditedFirst(old(View()), e) == if ok then Some(View()) else None
      ensures !ok ==> View() == old(View())
    {
      ghost var ops := View().ops;
      for i := 0 to opCount
        invariant Valid() && View() == old(View())
        invariant EditFirst(ops, e, 0) == EditFirst(ops, e, i)
      {
        var s := StepOf(e, operands[i]);
        if !s.Skip? {
          ok := PutAt(i, s);
          return;
        }
      }
      return false;
    }

    method SetCondition(c: Condition) returns (ok: bool)
      requires Valid()
      modifies this`flags, operands
      ensures Valid()
      ensures Edited(old(View()), Edit.SetCondition(c)) == if ok then Some(View()) else None
      ensures !ok ==> View() == old(View())
    {
      ok := EditFirstOperand(Edit.SetCondition(c));
    }

    method SetLabel(target: U64) returns (ok: bool)
      requires Valid()
      modifies this`flags, operands
      ensures Valid()
      ensures Edited(old(View()), Edit.SetLabel(target)) == if ok then Some(View()) else None
      ensures !ok ==> View() == old(View())
    {
      ok := EditFirstOperand(Edit.SetLabel(target));
    }

    method SetNearBranchTarget(target: U64) returns (ok: bool)
      requires Valid()
      modifies this`flags, operands
      ensures Valid()
      ensures Edited(old(View()), Edit.SetNearBranchTarget(target)) == if ok then Some(View()) else None
      ensures !ok ==> View() == old(View())
    {
      if !IsDirect(FlowControlFor(mnemonic, code)) {
        return false;
      }
      ok := EditFirstOperand(Edit.SetNearBranchTarget(target));
    }

    method SetMemoryBase(reg: Register) returns (ok: bool)
      requires Valid()
      modifies this`flags, operands
      ensures Valid()
      ensures Edited(old(View()), Edit.SetMemoryBase(reg)) == if ok then Some(View()) else None
      ensures !ok ==> View() == old(View())
    {
      ok := EditFirstOperand(Edit.SetMemoryBase(reg));
    }

    method SetMemoryIndex(reg: Register) returns (ok: bool)
      requires Valid()
      modifies this`flags, operands
      ensures Valid()
      ensures Edited(old(View()), Edit.SetMemoryIndex(reg)) == if ok then Some(View()) else None
      ensures !ok ==> View() == old(View())
    {
      ok := EditFirstOperand(Edit.SetMemoryIndex(reg));
    }

    method SetMemoryDisplacement64(disp: I64) returns (ok: bool)
      requires Valid()
      modifies this`flags, operands
      ensures Valid()
      ensures Edited(old(View()), Edit.SetMemoryDisplacement64(disp)) == if ok then Some(View()) else None
      ensures !ok ==> View() == old(View())
    {
      ok := EditFirstOperand(Edit.SetMemoryDisplacement64(disp));
    }
  }
}
