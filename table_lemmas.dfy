/**
 * What the fields of a table constructor emit (src/index.js:167-197): after
 * `NEWTABLE [t]`, each field in order compiles its parts and ends with one
 * store into `t`.
 */
module TableLemmas {
  import opened Wrappers
  import opened Values
  import opened Bytecode
  import opened CompileState
  import opened Ast
  import opened Lowering
  import opened LoweringInvariant
  import opened LoweringLemmas

  /**
   * The store that ends field `f` of table `t`: `SETTABLEK [t, k, value]`
   * whose constant names the key for `name = value`, `SETTABLE [t, key,
   * value]` for `[key] = value`, and `PUSHTABLE [t, value]` for a
   * positional value.
   */
  predicate StoresField(f: Field, t: nat, ins: Instr, constants: seq<Value>) {
    match f
    case TableKeyString(name, _) =>
      && ins.op == SETTABLEK && |ins.data| == 3 && ins.data[0] == Reg(t)
      && ins.data[1].Const? && ins.data[1].k < |constants| && LooseEq(constants[ins.data[1].k], Str(name))
    case TableKey(_, _) => ins.op == SETTABLE && |ins.data| == 3 && ins.data[0] == Reg(t)
    case TableValue(_) => ins.op == PUSHTABLE && |ins.data| == 2 && ins.data[0] == Reg(t)
  }

  /** A store stays described as the pool grows. */
  lemma StoresFieldGrow(f: Field, t: nat, ins: Instr, a: seq<Value>, b: seq<Value>)
    requires StoresField(f, t, ins, a) && a <= b
    ensures StoresField(f, t, ins, b)
  {
    if f.TableKeyString? {
      assert b[ins.data[1].k] == a[ins.data[1].k];
    }
  }

  /** One field appends code that ends with its store. */
  lemma {:induction false} FieldStepShape(node: Node, i: nat, t: nat, c: Ctx, st: State)
    requires node.TableConstructorExpression? && i < |node.fields|
    requires Inv(st) && 1 <= t <= st.registers && CtxOk(c, st)
    ensures var o := FieldStep(node, i, t, c, st);
      o.Ok? ==> st.ir < o.st.ir && StoresField(node.fields[i], t, o.st.ir[|o.st.ir| - 1], o.st.constants)
  {
    match node.fields[i]
    case TableKeyString(name, value) =>
      IdentifierShape(name, c, st);
      InternFindsFirst(st, Str(name));
      var ko := CompileIdentifier(name, Some(c), st);
      IdentifierOk(name, Some(c), st);
      NodeOk(value, Some(c), ko.st);
      KeyStringStore(node, i, t, c, st, ko.value, ko.st);
    case TableKey(key, value) =>
      NodeOk(key, Some(c), st);
      var ko := CompileNode(key, Some(c), st);
      if ko.Ok? {
        NodeOk(value, Some(c), ko.st);
      }
    case TableValue(value) =>
      NodeOk(value, Some(c), st);
  }

  /** `name = value` once the key is interned: the value, then SETTABLEK with the key's constant. */
  lemma KeyStringStore(node: Node, i: nat, t: nat, c: Ctx, st: State, key: Res, st1: State)
    requires node.TableConstructorExpression? && i < |node.fields| && node.fields[i].TableKeyString?
    requires CompileIdentifier(node.fields[i].keyName, Some(c), st) == Ok(key, st1)
    requires st.ir <= st1.ir && key.constant.Some? && key.constant.value < |st1.constants|
    requires LooseEq(st1.constants[key.constant.value], Str(node.fields[i].keyName))
    requires var w := CompileNode(node.fields[i].value, Some(c), st1); w.Ok? ==> st1.ir <= w.st.ir && st1.constants <= w.st.constants
    ensures var o := FieldStep(node, i, t, c, st);
      o.Ok? ==> st.ir < o.st.ir && StoresField(node.fields[i], t, o.st.ir[|o.st.ir| - 1], o.st.constants)
  {
    var w := CompileNode(node.fields[i].value, Some(c), st1);
    if w.Ok? {
      assert w.st.constants[key.constant.value] == st1.constants[key.constant.value];
    }
  }

  /**
   * The exact code of field `f` of table `t`, run from `st` to `st1`:
   * - `name = value`: the key (under the table, only interned: no code),
   *   then the value's code, then `SETTABLEK [t, key constant, value register]`;
   * - `[key] = value`: the key's code, the value's code, then
   *   `SETTABLE [t, key register, value register]`;
   * - a positional value: its code, then `PUSHTABLE [t, value register]`.
   */
  ghost predicate FieldEnd(f: Field, t: nat, c: Ctx, st: State, st1: State) {
    match f
    case TableKeyString(name, value) =>
      var ko := CompileIdentifier(name, Some(c), st);
      && ko.Ok? && (KeyOnly(c.kind) ==> ko.st.ir == st.ir) && ko.value.constant.Some?
      && var w := CompileNode(value, Some(c), ko.st);
      && w.Ok? && w.value.Some?
      && st1.ir == w.st.ir + [Instr(SETTABLEK, [Reg(t), Const(ko.value.constant.value), RegOf(w.value.value.register)])]
    case TableKey(key, value) =>
      var ko := CompileNode(key, Some(c), st);
      && ko.Ok? && ko.value.Some?
      && var w := CompileNode(value, Some(c), ko.st);
      && w.Ok? && w.value.Some?
      && st1.ir == w.st.ir + [Instr(SETTABLE, [Reg(t), RegOf(ko.value.value.register), RegOf(w.value.value.register)])]
    case TableValue(value) =>
      var w := CompileNode(value, Some(c), st);
      && w.Ok? && w.value.Some?
      && st1.ir == w.st.ir + [Instr(PUSHTABLE, [Reg(t), RegOf(w.value.value.register)])]
  }

  /** A field that compiles emits exactly the code `FieldEnd` describes. */
  lemma FieldStepExact(node: Node, i: nat, t: nat, c: Ctx, st: State)
    requires node.TableConstructorExpression? && i < |node.fields| && Inv(st) && CtxOk(c, st)
    ensures var o := FieldStep(node, i, t, c, st);
      o.Ok? ==> FieldEnd(node.fields[i], t, c, st, o.st)
  {
    if node.fields[i].TableKeyString? {
      IdentifierShape(node.fields[i].keyName, c, st);
    }
  }

  /** The fields before k. */
  function FieldsUpTo(node: Node, i: nat, k: nat, t: nat, c: Ctx, st: State): Outcome<()>
    requires node.TableConstructorExpression? && i <= k <= |node.fields|
    decreases k - i
  {
    if i == k then Ok((), st)
    else
      match FieldStep(node, i, t, c, st)
      case Fail(e) => Fail(e)
      case Ok(_, st1) => FieldsUpTo(node, i + 1, k, t, c, st1)
  }

  /** The field loop is the fields before k followed by the fields from k on. */
  lemma {:induction false} FieldsSplit(node: Node, i: nat, k: nat, t: nat, c: Ctx, st: State)
    requires node.TableConstructorExpression? && i <= k <= |node.fields|
    ensures var p := FieldsUpTo(node, i, k, t, c, st);
      FieldsFrom(node, i, t, c, st) == if p.Fail? then Fail(p.error) else FieldsFrom(node, k, t, c, p.st)
    decreases k - i
  {
    if i < k {
      var so := FieldStep(node, i, t, c, st);
      if so.Ok? {
        FieldsSplit(node, i + 1, k, t, c, so.st);
      }
    }
  }

  /** The fields before k + 1 are those before k, then field k. */
  lemma {:induction false} FieldsUpToNext(node: Node, i: nat, k: nat, t: nat, c: Ctx, st: State)
    requires node.TableConstructorExpression? && i <= k < |node.fields|
    ensures var p := FieldsUpTo(node, i, k, t, c, st);
      FieldsUpTo(node, i, k + 1, t, c, st) == if p.Fail? then Fail(p.error) else FieldStep(node, k, t, c, p.st)
    decreases k - i
  {
    if i < k {
      var so := FieldStep(node, i, t, c, st);
      if so.Ok? {
        FieldsUpToNext(node, i + 1, k, t, c, so.st);
      }
    }
  }

  /** The fields before k keep the invariant and only extend the state. */
  lemma {:induction false} FieldsUpToOk(node: Node, i: nat, k: nat, t: nat, c: Ctx, st: State)
    requires node.TableConstructorExpression? && i <= k <= |node.fields|
    requires Inv(st) && 1 <= t <= st.registers && CtxOk(c, st)
    ensures var p := FieldsUpTo(node, i, k, t, c, st);
      p.Ok? ==> Inv(p.st) && Extends(st, p.st) && CtxOk(c, p.st)
    decreases k - i
  {
    if i < k {
      FieldOk(node, i, t, c, st);
      var so := FieldStep(node, i, t, c, st);
      if so.Ok? {
        FieldsUpToOk(node, i + 1, k, t, c, so.st);
      }
    }
  }

  /**
   * Where field j stands in the final code `fin` of the field loop started
   * in `st`: its code follows that of the fields before it and is exactly
   * what `FieldEnd` says, and its last instruction is its store into `t`.
   */
  ghost predicate FieldLands(node: Node, j: nat, t: nat, c: Ctx, st: State, fin: State)
    requires node.TableConstructorExpression? && j < |node.fields|
  {
    var p := FieldsUpTo(node, 0, j, t, c, st);
    var q := FieldsUpTo(node, 0, j + 1, t, c, st);
    && p.Ok? && q.Ok? && |p.st.ir| < |q.st.ir| && q.st.ir <= fin.ir
    && FieldEnd(node.fields[j], t, c, p.st, q.st)
    && StoresField(node.fields[j], t, fin.ir[|q.st.ir| - 1], fin.constants)
  }

  lemma {:induction false} FieldsLand(node: Node, j: nat, t: nat, c: Ctx, st: State)
    requires node.TableConstructorExpression? && j < |node.fields|
    requires Inv(st) && 1 <= t <= st.registers && CtxOk(c, st)
    ensures var o := FieldsFrom(node, 0, t, c, st);
      o.Ok? ==> FieldLands(node, j, t, c, st, o.st)
  {
    FieldsSplit(node, 0, j + 1, t, c, st);
    FieldsUpToNext(node, 0, j, t, c, st);
    FieldsUpToOk(node, 0, j, t, c, st);
    var p := FieldsUpTo(node, 0, j, t, c, st);
    var q := FieldsUpTo(node, 0, j + 1, t, c, st);
    var o := FieldsFrom(node, 0, t, c, st);
    if o.Ok? {
      FieldStepShape(node, j, t, c, p.st);
      FieldStepExact(node, j, t, c, p.st);
      FieldOk(node, j, t, c, p.st);
      FieldsOk(node, j + 1, t, c, q.st);
      StoresFieldGrow(node.fields[j], t, q.st.ir[|q.st.ir| - 1], q.st.constants, o.st.constants);
      assert o.st.ir[|q.st.ir| - 1] == q.st.ir[|q.st.ir| - 1];
    }
  }

  /**
   * A table constructor: `NEWTABLE [t]` on a fresh register `t`, then the
   * fields in order, each emitting exactly the code `FieldEnd` gives it and
   * ending with its own store into `t`, as `FieldLands` says; `t` is the
   * result.
   */
  lemma {:induction false} TableFieldsShape(node: Node, s: ScopeRef, st: State)
    requires node.TableConstructorExpression? && Inv(st) && ScopeRefOk(s, st)
    ensures var o := CompileTable(node, s, st);
      var t := st.registers + 1;
      var st2 := Emit(st.(registers := t), NEWTABLE, [Reg(t)]);
      var c := Ctx(TableConstructorKind, Some(s), None);
      o.Ok? ==>
      && o.value == Res(TableConstructor, Some(t), None, None)
      && st2.ir <= o.st.ir
      && forall j :: 0 <= j < |node.fields| ==> FieldLands(node, j, t, c, st2, o.st)
  {
    AllocOk(st);
    var (t, st1) := Alloc(st);
    Emit1Ok(st1, NEWTABLE, Reg(t));
    var st2 := Emit(st1, NEWTABLE, [Reg(t)]);
    var c := Ctx(TableConstructorKind, Some(s), None);
    FieldsOk(node, 0, t, c, st2);
    forall j | 0 <= j < |node.fields| ensures FieldsFrom(node, 0, t, c, st2).Ok? ==> FieldLands(node, j, t, c, st2, FieldsFrom(node, 0, t, c, st2).st) {
      FieldsLand(node, j, t, c, st2);
    }
  }
}
