/**
 * The compiler's module-level state (src/index.js:60-77) as one value, and the
 * primitive operations on it: `allocateRegister`, `emit`, `getConstant`,
 * `createScope` and the creation and update of labels.  The lowering
 * functions thread this state explicitly.
 */
module CompileState {
  import opened Wrappers
  import opened Values
  import opened Scopes
  import opened Bytecode

  /**
   * `ir`, `constants`, the register counter `registers`, every label created
   * so far (an instruction refers to a label by its index here) and every
   * Scope object created so far (see module Scopes).
   */
  datatype State = State(ir: seq<Instr>, constants: seq<Value>, registers: nat, labels: seq<LabelCell>, scopes: ScopeTable)

  /** A `{ scope, register }` pair: a compile-time scope and the register of its runtime scope object. */
  datatype ScopeRef = ScopeRef(id: nat, register: nat)

  /** `{ scope: mainScope, register: mainScopeRegister }`. */
  const MainScope := ScopeRef(0, 1)

  /**
   * The state once the module has run its initialisation: `mainScope` is
   * frame 0, register 1 was allocated for it and `NEWSCOPE [1]` is the first
   * instruction.
   */
  function Initial(): State {
    State([Instr(NEWSCOPE, [Reg(1)])], [], 1, [], [Frame(map[], None)])
  }

  /** An element of a CALL argument list: a register, undefined, or a whole result record. */
  predicate ArgOk(o: Operand, registers: nat, constants: nat) {
    match o
    case Reg(r) => 1 <= r <= registers
    case Undef => true
    case Junk(res) => ResOk(res, registers, constants)
    case _ => false
  }

  /** Every register of a result record has been allocated and its constant is in the pool. */
  predicate ResOk(res: Res, registers: nat, constants: nat) {
    && (res.register.Some? ==> 1 <= res.register.value <= registers)
    && (res.shared.Some? ==> 1 <= res.shared.value <= registers)
    && (res.constant.Some? ==> res.constant.value < constants)
  }

  /** An operand refers only to allocated registers, pool entries and labels. */
  predicate OperandOk(o: Operand, registers: nat, constants: nat, labels: nat) {
    match o
    case Reg(r) => 1 <= r <= registers
    case Const(k) => k < constants
    case Label(id) => id < labels
    case Args(items) => ArgsOk(items, registers, constants)
    case Undef => true
    case Junk(res) => ResOk(res, registers, constants)
  }

  predicate ArgsOk(items: seq<Operand>, registers: nat, constants: nat) {
    forall i :: 0 <= i < |items| ==> ArgOk(items[i], registers, constants)
  }

  /** An argument list stays valid as registers and constants are added. */
  lemma ArgsOkGrow(items: seq<Operand>, r1: nat, c1: nat, r2: nat, c2: nat)
    requires ArgsOk(items, r1, c1) && r1 <= r2 && c1 <= c2
    ensures ArgsOk(items, r2, c2)
  {
    forall i | 0 <= i < |items| ensures ArgOk(items[i], r2, c2) {
      assert ArgOk(items[i], r1, c1);
    }
  }

  predicate DataOk(data: seq<Operand>, st: State) {
    forall j :: 0 <= j < |data| ==> OperandOk(data[j], st.registers, |st.constants|, |st.labels|)
  }

  /** No two pool entries are loosely equal. */
  predicate LooselyDistinct(pool: seq<Value>) {
    forall i, j :: 0 <= i < j < |pool| ==> !LooseEq(pool[i], pool[j])
  }

  /**
   * What every reachable state satisfies: the buffer is never empty, the
   * scope table is well formed, every label is bound to an existing
   * instruction with offset 0, every operand refers to something that exists,
   * and the constant pool holds no two loosely equal values.
   */
  predicate Inv(st: State) {
    && |st.ir| >= 1 && st.registers >= 1
    && WellFormed(st.scopes) && |st.scopes| >= 1
    && (forall i :: 0 <= i < |st.labels| ==> 0 <= st.labels[i].pos < |st.ir| && st.labels[i].increment == 0)
    && (forall i, j :: 0 <= i < |st.ir| && 0 <= j < |st.ir[i].data| ==>
          OperandOk(st.ir[i].data[j], st.registers, |st.constants|, |st.labels|))
    && LooselyDistinct(st.constants)
  }

  /** What only grows: the buffer and the pool are extended, the counters never go back. */
  predicate Extends(a: State, b: State) {
    && a.ir <= b.ir && a.constants <= b.constants && a.registers <= b.registers
    && |a.labels| <= |b.labels| && |a.scopes| <= |b.scopes|
  }

  lemma ExtendsTransitive(a: State, b: State, c: State)
    requires Extends(a, b) && Extends(b, c)
    ensures Extends(a, c)
  {
  }

  predicate ScopeRefOk(s: ScopeRef, st: State) {
    s.id < |st.scopes| && 1 <= s.register <= st.registers
  }

  lemma InitialInv()
    ensures Inv(Initial()) && ScopeRefOk(MainScope, Initial())
  {
  }

  /** `allocateRegister`: the counter goes up by one and its new value is the fresh register. */
  function Alloc(st: State): (nat, State) {
    var n := st.registers + 1;
    (n, st.(registers := n))
  }

  /** `emit`: one instruction appended to the buffer. */
  function Emit(st: State, op: Opcode, data: seq<Operand>): State {
    st.(ir := st.ir + [Instr(op, data)])
  }

  /** The index of the first entry of `pool[i..]` loosely equal to `v`, mirroring `findIndex`. */
  function FindFirst(pool: seq<Value>, v: Value, i: nat): (r: Option<nat>)
    requires i <= |pool|
    ensures r.Some? ==> i <= r.value < |pool|
    decreases |pool| - i
  {
    if i == |pool| then None
    else if LooseEq(pool[i], v) then Some(i)
    else FindFirst(pool, v, i + 1)
  }

  /**
   * `findIndex` finds the first loosely equal entry of `pool[i..]`, and finds
   * none exactly when no entry there is loosely equal to `v`.
   */
  lemma {:induction false} FindFirstSpec(pool: seq<Value>, v: Value, i: nat)
    requires i <= |pool|
    ensures var r := FindFirst(pool, v, i);
      && (r.Some? ==> LooseEq(pool[r.value], v) && forall j :: i <= j < r.value ==> !LooseEq(pool[j], v))
      && (r.None? <==> forall j :: i <= j < |pool| ==> !LooseEq(pool[j], v))
    decreases |pool| - i
  {
    if i < |pool| && !LooseEq(pool[i], v) {
      FindFirstSpec(pool, v, i + 1);
    }
  }

  /**
   * `getConstant`: the index of the first pool entry loosely equal to `v`;
   * when there is none, `v` is appended and its index is the old pool length.
   */
  function Intern(st: State, v: Value): (nat, State) {
    match FindFirst(st.constants, v, 0)
    case Some(k) => (k, st)
    case None => (|st.constants|, st.(constants := st.constants + [v]))
  }

  /**
   * `getConstant` returns the first index loosely equal to `v` and leaves the
   * state as it is; only when no entry is loosely equal does it append `v`
   * and return the old length.  Nothing but the pool changes.
   */
  lemma InternFindsFirst(st: State, v: Value)
    ensures var (k, st1) := Intern(st, v);
      && k < |st1.constants| && LooseEq(st1.constants[k], v)
      && st1 == st.(constants := st1.constants) && st.constants <= st1.constants
      && ((forall j :: 0 <= j < |st.constants| ==> !LooseEq(st.constants[j], v)) <==> k == |st.constants|)
      && (k == |st.constants| ==> st1.constants == st.constants + [v])
      && (k < |st.constants| ==> st1 == st && forall j :: 0 <= j < k ==> !LooseEq(st.constants[j], v))
  {
    FindFirstSpec(st.constants, v, 0);
    LooseEqReflexive(v);
  }

  /** A second `getConstant` of the same value returns the same index and leaves the pool unchanged. */
  lemma InternIdempotent(st: State, v: Value)
    ensures Intern(Intern(st, v).1, v) == Intern(st, v)
  {
    var (k, st1) := Intern(st, v);
    InternFindsFirst(st, v);
    InternFindsFirst(st1, v);
    if k == |st.constants| {
      assert forall j :: 0 <= j < k ==> st1.constants[j] == st.constants[j];
    }
  }

  /** `new compilerLabel()`: a label bound to the last emitted instruction, offset 0. */
  function NewLabel(st: State): (nat, State) {
    (|st.labels|, st.(labels := st.labels + [NewCell(|st.ir|, None)]))
  }

  /**
   * `label.update()`: the label is rebound to the last emitted instruction.
   * An index that names no label (which no reachable state has) changes
   * nothing.
   */
  function UpdateLabel(st: State, id: nat): State {
    if id < |st.labels| then st.(labels := st.labels[id := UpdateCell(st.labels[id], |st.ir|, None)]) else st
  }

  /**
   * `createScope`: a fresh register for the runtime scope object,
   * `NEWSCOPE [register, parentRegister]`, and a new frame whose `top` is the
   * parent's frame.
   */
  function CreateScope(st: State, parent: ScopeRef): (ScopeRef, State) {
    var (reg, st1) := Alloc(st);
    var st2 := Emit(st1, NEWSCOPE, [Reg(reg), Reg(parent.register)]);
    (ScopeRef(|st2.scopes|, reg), st2.(scopes := st2.scopes + [Frame(map[], Some(parent.id))]))
  }

  /**
   * `scope.get(name)` on the compile-time scope `s`.  In every reachable
   * state the table is well formed and `s` is one of its frames (Inv); the
   * guard only makes the lookup total.
   */
  function Lookup(st: State, s: ScopeRef, name: string): Binding {
    if WellFormed(st.scopes) && s.id < |st.scopes| then Get(st.scopes, s.id, name) else Undefined
  }

  /** `scope.set(name, value)` on the compile-time scope `s`; None is the TypeError at the root. */
  function Store(st: State, s: ScopeRef, name: string, value: Binding): Option<State> {
    if WellFormed(st.scopes) && s.id < |st.scopes| then
      match Set(st.scopes, s.id, name, value)
      case None => None
      case Some(t) => Some(st.(scopes := t))
    else None
  }

  /** A successful `set` changes only the scope table, keeps its shape and keeps the invariant. */
  lemma StoreOk(st: State, s: ScopeRef, name: string, value: Binding)
    requires Inv(st)
    ensures var r := Store(st, s, name, value);
      && (r.Some? ==> Inv(r.value) && Extends(st, r.value) && |r.value.scopes| == |st.scopes|)
      && (r.Some? ==> r.value == st.(scopes := r.value.scopes))
  {
  }

  /** The position a label operand stands for when the program is serialised. */
  function Resolve(st: State, id: nat): int
    requires id < |st.labels|
  {
    Fetch(st.labels[id])
  }

  /** Every label resolves to the index of an existing instruction. */
  lemma ResolveInRange(st: State, id: nat)
    requires Inv(st) && id < |st.labels|
    ensures 0 <= Resolve(st, id) < |st.ir|
    ensures Resolve(st, id) == st.labels[id].pos
  {
  }

  /** One appended instruction whose operands are valid keeps the invariant. */
  lemma EmitOk(st: State, op: Opcode, data: seq<Operand>)
    requires Inv(st) && DataOk(data, st)
    ensures Inv(Emit(st, op, data)) && Extends(st, Emit(st, op, data))
    ensures Emit(st, op, data).labels == st.labels
  {
    var r := Emit(st, op, data);
    forall i, j | 0 <= i < |r.ir| && 0 <= j < |r.ir[i].data|
      ensures OperandOk(r.ir[i].data[j], r.registers, |r.constants|, |r.labels|)
    {
      if i < |st.ir| {
        assert r.ir[i] == st.ir[i];
      }
    }
  }

  /** `emit` with one, two or three operands, each of them valid. */
  lemma Emit1Ok(st: State, op: Opcode, a: Operand)
    requires Inv(st) && OperandOk(a, st.registers, |st.constants|, |st.labels|)
    ensures Inv(Emit(st, op, [a])) && Extends(st, Emit(st, op, [a])) && Emit(st, op, [a]).labels == st.labels
  {
    EmitOk(st, op, [a]);
  }

  lemma Emit2Ok(st: State, op: Opcode, a: Operand, b: Operand)
    requires Inv(st) && OperandOk(a, st.registers, |st.constants|, |st.labels|)
    requires OperandOk(b, st.registers, |st.constants|, |st.labels|)
    ensures Inv(Emit(st, op, [a, b])) && Extends(st, Emit(st, op, [a, b])) && Emit(st, op, [a, b]).labels == st.labels
  {
    EmitOk(st, op, [a, b]);
  }

  lemma Emit3Ok(st: State, op: Opcode, a: Operand, b: Operand, c: Operand)
    requires Inv(st) && OperandOk(a, st.registers, |st.constants|, |st.labels|)
    requires OperandOk(b, st.registers, |st.constants|, |st.labels|)
    requires OperandOk(c, st.registers, |st.constants|, |st.labels|)
    ensures Inv(Emit(st, op, [a, b, c])) && Extends(st, Emit(st, op, [a, b, c])) && Emit(st, op, [a, b, c]).labels == st.labels
  {
    EmitOk(st, op, [a, b, c]);
  }

  /** A register allocation keeps the invariant: operands stay valid as the counter grows. */
  lemma AllocOk(st: State)
    requires Inv(st)
    ensures var (r, st1) := Alloc(st);
      && Inv(st1) && Extends(st, st1) && st1.labels == st.labels
      && r == st1.registers == st.registers + 1
  {
    var (r, st1) := Alloc(st);
    forall i, j | 0 <= i < |st1.ir| && 0 <= j < |st1.ir[i].data|
      ensures OperandOk(st1.ir[i].data[j], st1.registers, |st1.constants|, |st1.labels|)
    {
      OperandGrow(st.ir[i].data[j], st, st1);
    }
  }

  /** Interning keeps the invariant, and the pool stays free of loosely equal pairs. */
  lemma InternOk(st: State, v: Value)
    requires Inv(st)
    ensures var (k, st1) := Intern(st, v);
      && Inv(st1) && Extends(st, st1) && st1.labels == st.labels
      && k < |st1.constants|
  {
    var (k, st1) := Intern(st, v);
    InternFindsFirst(st, v);
    if k == |st.constants| {
      forall i, j | 0 <= i < j < |st1.constants| ensures !LooseEq(st1.constants[i], st1.constants[j]) {
        if j == k {
          LooseEqSymmetric(st1.constants[i], v);
        }
      }
      forall i, j | 0 <= i < |st1.ir| && 0 <= j < |st1.ir[i].data|
        ensures OperandOk(st1.ir[i].data[j], st1.registers, |st1.constants|, |st1.labels|)
      {
        OperandGrow(st.ir[i].data[j], st, st1);
      }
    }
  }

  /** A new label keeps the invariant and is bound to the last instruction. */
  lemma NewLabelOk(st: State)
    requires Inv(st)
    ensures var (l, st1) := NewLabel(st);
      && Inv(st1) && Extends(st, st1)
      && l == |st.labels| && st1 == st.(labels := st.labels + [LabelCell(|st.ir| - 1, 0)])
  {
    var (l, st1) := NewLabel(st);
    forall i, j | 0 <= i < |st1.ir| && 0 <= j < |st1.ir[i].data|
      ensures OperandOk(st1.ir[i].data[j], st1.registers, |st1.constants|, |st1.labels|)
    {
      OperandGrow(st.ir[i].data[j], st, st1);
    }
  }

  /** Rebinding an existing label keeps the invariant; no other label moves. */
  lemma UpdateLabelOk(st: State, id: nat)
    requires Inv(st) && id < |st.labels|
    ensures var st1 := UpdateLabel(st, id);
      && Inv(st1) && Extends(st, st1)
      && st1 == st.(labels := st.labels[id := LabelCell(|st.ir| - 1, 0)])
  {
  }

  /**
   * A new scope keeps the invariant: one fresh register, one NEWSCOPE, and a
   * new frame linked to the parent's frame.
   */
  lemma CreateScopeOk(st: State, parent: ScopeRef)
    requires Inv(st) && ScopeRefOk(parent, st)
    ensures var (s, st1) := CreateScope(st, parent);
      && Inv(st1) && Extends(st, st1) && ScopeRefOk(s, st1)
      && s == ScopeRef(|st.scopes|, st.registers + 1) && st1.registers == st.registers + 1
      && st1.ir == st.ir + [Instr(NEWSCOPE, [Reg(s.register), Reg(parent.register)])]
      && st1.scopes == st.scopes + [Frame(map[], Some(parent.id))]
      && st1.constants == st.constants && st1.labels == st.labels
  {
    AllocOk(st);
    var (reg, st1) := Alloc(st);
    EmitOk(st1, NEWSCOPE, [Reg(reg), Reg(parent.register)]);
  }

  /** Operands stay valid as registers, constants and labels are added. */
  lemma OperandGrow(o: Operand, a: State, b: State)
    requires OperandOk(o, a.registers, |a.constants|, |a.labels|)
    requires a.registers <= b.registers && |a.constants| <= |b.constants| && |a.labels| <= |b.labels|
    ensures OperandOk(o, b.registers, |b.constants|, |b.labels|)
  {
    if o.Args? {
      ArgsOkGrow(o.items, a.registers, |a.constants|, b.registers, |b.constants|);
    }
  }
}
