/**
 * The compiler as the source runs it: one object whose fields are the
 * module-level `ir`, `constants`, `registers`, the label objects and the
 * Scope objects, and one method per function of src/index.js that changes
 * them in place, step by step, with the `forEach` and `for…in` loops kept as
 * loops.  Every method is proved to leave exactly the state, and return
 * exactly the value, that the lowering function of the same name computes
 * from the state it started in; an exception is `Threw`, after which the
 * state is not specified (the script has died).
 */
module Codegen {
  import opened Wrappers
  import opened Values
  import opened Scopes
  import opened Bytecode
  import opened CompileState
  import opened Ast
  import opened Lowering

  /** What a compile function did: returned a value, or threw. */
  datatype Status<T> = Done(value: T) | Threw(error: Failure)

  function LiftStatus(r: Status<Res>): Status<Option<Res>> {
    match r
    case Done(v) => Done(Some(v))
    case Threw(e) => Threw(e)
  }

  function DiscardStatus(r: Status<()>): Status<Option<Res>> {
    match r
    case Done(_) => Done(None)
    case Threw(e) => Threw(e)
  }

  class Compiler {
    var ir: seq<Instr>
    var constants: seq<Value>
    var registers: nat
    var labels: seq<LabelCell>
    var scopes: ScopeTable

    /** The fields as one compile state. */
    function Snapshot(): State
      reads this
    {
      State(ir, constants, registers, labels, scopes)
    }

    /** The method returned `r` where the function has outcome `o`, and on success left `o`'s state. */
    predicate Agrees<T(==)>(r: Status<T>, o: Outcome<T>)
      reads this
    {
      match o
      case Ok(v, st) => r == Done(v) && Snapshot() == st
      case Fail(e) => r == Threw(e)
    }

    /** The module's initialisation: `mainScope`, register 1 for it, and `NEWSCOPE [1]`. */
    constructor()
      ensures Snapshot() == Initial()
    {
      ir := [];
      constants := [];
      registers := 0;
      labels := [];
      scopes := [Frame(map[], None)];
      new;
      var main := AllocateRegister();
      Emit(NEWSCOPE, [Reg(main)]);
    }

    /** `allocateRegister`. */
    method AllocateRegister() returns (r: nat)
      modifies this
      ensures (r, Snapshot()) == Alloc(old(Snapshot()))
    {
      registers := registers + 1;
      r := registers;
    }

    /** `emit`. */
    method Emit(op: Opcode, data: seq<Operand>)
      modifies this
      ensures Snapshot() == CompileState.Emit(old(Snapshot()), op, data)
    {
      ir := ir + [Instr(op, data)];
    }

    /** `getConstant`: the `findIndex` scan, then a push when nothing matched. */
    method GetConstant(v: Value) returns (k: nat)
      modifies this
      ensures (k, Snapshot()) == Intern(old(Snapshot()), v)
    {
      var i := 0;
      while i < |constants| && !LooseEq(constants[i], v)
        invariant 0 <= i <= |constants|
        invariant FindFirst(constants, v, i) == FindFirst(constants, v, 0)
        decreases |constants| - i
      {
        i := i + 1;
      }
      if i == |constants| {
        constants := constants + [v];
      }
      k := i;
    }

    /** `new compilerLabel()`. */
    method NewLabel() returns (id: nat)
      modifies this
      ensures (id, Snapshot()) == CompileState.NewLabel(old(Snapshot()))
    {
      id := |labels|;
      labels := labels + [NewCell(|ir|, None)];
    }

    /** `label.update()`. */
    method UpdateLabel(id: nat)
      modifies this
      ensures Snapshot() == CompileState.UpdateLabel(old(Snapshot()), id)
    {
      if id < |labels| {
        labels := labels[id := UpdateCell(labels[id], |ir|, None)];
      }
    }

    /** `createScope`. */
    method CreateScope(parent: ScopeRef) returns (s: ScopeRef)
      modifies this
      ensures (s, Snapshot()) == CompileState.CreateScope(old(Snapshot()), parent)
    {
      var reg := AllocateRegister();
      Emit(NEWSCOPE, [Reg(reg), Reg(parent.register)]);
      s := ScopeRef(|scopes|, reg);
      scopes := scopes + [Frame(map[], Some(parent.id))];
    }

    /** `scope.set(name, value)`; false is the TypeError at the root. */
    method StoreBinding(s: ScopeRef, name: string, value: Binding) returns (ok: bool)
      modifies this
      ensures var r := Store(old(Snapshot()), s, name, value);
        && ok == r.Some? && (ok ==> Snapshot() == r.value)
    {
      if WellFormed(scopes) && s.id < |scopes| {
        var t := SetScope(scopes, s.id, name, value);
        if t.Some? {
          scopes := t.value;
          return true;
        }
      }
      return false;
    }

    /** `compileIdentifier`. */
    method CompileIdentifier(name: string, parent: Option<Ctx>) returns (r: Status<Res>)
      modifies this
      ensures Agrees(r, Lowering.CompileIdentifier(name, parent, old(Snapshot())))
    {
      var k := GetConstant(Str(name));
      if parent.None? {
        return Threw(ReadOfNull);
      }
      if KeyOnly(parent.value.kind) {
        return Done(Res(NoType, None, Some(k), None));
      }
      var reg := AllocateRegister();
      var s := parent.value.scope;
      if s.Some? && Truthy(Lookup(Snapshot(), s.value, name)) {
        Emit(SCOPEGET, [Reg(s.value.register), Const(k), Reg(reg)]);
      } else {
        Emit(GETVAR, [Const(k), Reg(reg)]);
      }
      return Done(Res(Variable, Some(reg), Some(k), None));
    }

    /** `compileLiteral`. */
    method CompileLiteral(node: Node) returns (r: Res)
      requires IsLiteral(node)
      modifies this
      ensures (r, Snapshot()) == Lowering.CompileLiteral(node, old(Snapshot()))
    {
      var reg := AllocateRegister();
      if node.NilLiteral? {
        Emit(SETNIL, [Reg(reg)]);
      } else {
        var k := GetConstant(LiteralOf(node));
        Emit(LOAD, [Const(k), Reg(reg)]);
      }
      r := Res(LiteralValue, Some(reg), None, None);
    }

    /** `compileBreakStatement`. */
    method CompileBreak(parent: Option<Ctx>) returns (r: Status<()>)
      modifies this
      ensures Agrees(r, Lowering.CompileBreak(parent, old(Snapshot())))
    {
      if parent.None? {
        return Threw(ReadOfNull);
      }
      var target := if parent.value.breakLabel.Some? then Label(parent.value.breakLabel.value) else Undef;
      Emit(JUMP, [target]);
      return Done(());
    }

    /** `compileNode`: the dispatch on the node's type. */
    method CompileNode(node: Node, parent: Option<Ctx>) returns (r: Status<Option<Res>>)
      modifies this
      ensures Agrees(r, Lowering.CompileNode(node, parent, old(Snapshot())))
      decreases node, 3, 0
    {
      match node
      case Identifier(name) =>
        var x := CompileIdentifier(name, parent);
        r := LiftStatus(x);
      case NumericLiteral(_) =>
        var x := CompileLiteral(node);
        r := Done(Some(x));
      case StringLiteral(_) =>
        var x := CompileLiteral(node);
        r := Done(Some(x));
      case BooleanLiteral(_) =>
        var x := CompileLiteral(node);
        r := Done(Some(x));
      case NilLiteral =>
        var x := CompileLiteral(node);
        r := Done(Some(x));
      case BreakStatement =>
        var x := CompileBreak(parent);
        r := DiscardStatus(x);
      case MemberExpression(_, _) =>
        r := Done(None);
      case Other(_) =>
        r := Done(None);
      case _ =>
        r := CompileCompound(node, parent);
    }

    /** The branches of `compileNode` for the node types whose rules compile children. */
    method CompileCompound(node: Node, parent: Option<Ctx>) returns (r: Status<Option<Res>>)
      requires !node.Identifier? && !IsLiteral(node) && !node.BreakStatement? && !node.MemberExpression? && !node.Other?
      modifies this
      ensures Agrees(r, Lowering.CompileNode(node, parent, old(Snapshot())))
      decreases node, 2, 5
    {
      var s := NodeScope(parent);
      match node
      case CallStatement(e) =>
        r := CompileNode(e, Some(Ctx(CallStatementKind, Some(s), None)));
      case CallExpression(_, _) =>
        var x := CompileCall(node, s);
        r := LiftStatus(x);
      case StringCallExpression(_, _) =>
        var x := CompileCall(node, s);
        r := LiftStatus(x);
      case WhileStatement(_, _) =>
        var ws := CreateScope(s);
        var x := CompileWhile(node, ws);
        r := DiscardStatus(x);
      case BinaryExpression(_, _, _) =>
        var x := CompileBinary(node, s);
        r := LiftStatus(x);
      case IfStatement(_) =>
        var ifScope := CreateScope(s);
        var x := CompileIf(node, ifScope, parent);
        r := DiscardStatus(x);
      case TableConstructorExpression(_) =>
        var x := CompileTable(node, s);
        r := LiftStatus(x);
      case AssignmentStatement(_, _) =>
        var x := CompileAssignment(node, s);
        r := DiscardStatus(x);
      case LocalStatement(_, _) =>
        var x := CompileLocal(node, s);
        r := DiscardStatus(x);
    }

    /** `compileNodes`: the `forEach` over the nodes. */
    method CompileNodes(nodes: seq<Node>, parent: Option<Ctx>) returns (r: Status<()>)
      modifies this
      ensures Agrees(r, NodesFrom(nodes, 0, parent, old(Snapshot())))
      decreases nodes, 0
    {
      var i := 0;
      while i < |nodes|
        invariant 0 <= i <= |nodes|
        invariant NodesFrom(nodes, 0, parent, old(Snapshot())) == NodesFrom(nodes, i, parent, Snapshot())
        decreases |nodes| - i
      {
        var x := CompileNode(nodes[i], parent);
        if x.Threw? {
          return Threw(x.error);
        }
        i := i + 1;
      }
      return Done(());
    }

    /** `compileBinaryExpression`. */
    method CompileBinary(node: Node, s: ScopeRef) returns (r: Status<Res>)
      requires node.BinaryExpression?
      modifies this
      ensures Agrees(r, Lowering.CompileBinary(node, s, old(Snapshot())))
      decreases node, 2, 0
    {
      var c := Ctx(BinaryExpressionKind, Some(s), None);
      var left := CompileNode(node.left, Some(c));
      if left.Threw? {
        return Threw(left.error);
      }
      var right := CompileNode(node.right, Some(c));
      if right.Threw? {
        return Threw(right.error);
      }
      var ret := AllocateRegister();
      var res := Res(BinaryExpr, Some(ret), None, None);
      var op := BinaryOpcode(node.operator);
      if op.None? {
        return Done(res);
      }
      if left.value.None? || right.value.None? {
        return Threw(ReadOfUndefined);
      }
      Emit(op.value, [RegOf(left.value.value.register), RegOf(right.value.value.register), Reg(ret)]);
      return Done(res);
    }

    /** `compileTableExpression`: NEWTABLE, then the `forEach` over the fields. */
    method CompileTable(node: Node, s: ScopeRef) returns (r: Status<Res>)
      requires node.TableConstructorExpression?
      modifies this
      ensures Agrees(r, Lowering.CompileTable(node, s, old(Snapshot())))
      decreases node, 2, 0
    {
      var t := AllocateRegister();
      Emit(NEWTABLE, [Reg(t)]);
      var c := Ctx(TableConstructorKind, Some(s), None);
      ghost var st2 := Snapshot();
      var i := 0;
      while i < |node.fields|
        invariant 0 <= i <= |node.fields|
        invariant FieldsFrom(node, 0, t, c, st2) == FieldsFrom(node, i, t, c, Snapshot())
        decreases |node.fields| - i
      {
        var x := CompileField(node, i, t, c);
        if x.Threw? {
          return Threw(x.error);
        }
        i := i + 1;
      }
      return Done(Res(TableConstructor, Some(t), None, None));
    }

    /** One field of a table constructor. */
    method CompileField(node: Node, i: nat, t: nat, c: Ctx) returns (r: Status<()>)
      requires node.TableConstructorExpression? && i < |node.fields|
      modifies this
      ensures Agrees(r, FieldStep(node, i, t, c, old(Snapshot())))
      decreases node, 0, 0
    {
      match node.fields[i]
      case TableKeyString(keyName, value) =>
        var key := CompileIdentifier(keyName, Some(c));
        if key.Threw? {
          return Threw(key.error);
        }
        var v := CompileNode(value, Some(c));
        if v.Threw? {
          return Threw(v.error);
        }
        if v.value.None? {
          return Threw(ReadOfUndefined);
        }
        Emit(SETTABLEK, [Reg(t), ConstOf(key.value.constant), RegOf(v.value.value.register)]);
        return Done(());
      case TableKey(keyNode, value) =>
        var key := CompileNode(keyNode, Some(c));
        if key.Threw? {
          return Threw(key.error);
        }
        var v := CompileNode(value, Some(c));
        if v.Threw? {
          return Threw(v.error);
        }
        if key.value.None? || v.value.None? {
          return Threw(ReadOfUndefined);
        }
        Emit(SETTABLE, [Reg(t), RegOf(key.value.value.register), RegOf(v.value.value.register)]);
        return Done(());
      case TableValue(value) =>
        var v := CompileNode(value, Some(c));
        if v.Threw? {
          return Threw(v.error);
        }
        if v.value.None? {
          return Threw(ReadOfUndefined);
        }
        Emit(PUSHTABLE, [Reg(t), RegOf(v.value.value.register)]);
        return Done(());
    }

    /** `compileCallExpression`: the callee, the result register, the arguments, CALL. */
    method CompileCall(node: Node, s: ScopeRef) returns (r: Status<Res>)
      requires node.CallExpression? || node.StringCallExpression?
      modifies this
      ensures Agrees(r, Lowering.CompileCall(node, s, old(Snapshot())))
      decreases node, 2, 1
    {
      var c := Ctx(CallKind(node), Some(s), None);
      var f := CompileNode(node.base, Some(c));
      if f.Threw? {
        return Threw(f.error);
      }
      if f.value.None? {
        return Threw(ReadOfUndefined);
      }
      var ret := AllocateRegister();
      var args := CompileArguments(node, c);
      if args.Threw? {
        return Threw(args.error);
      }
      Emit(CALL, [RegOf(f.value.value.register), Args(args.value), Reg(ret)]);
      return Done(Res(CallResult, Some(ret), None, None));
    }

    /** The argument array: the `forEach` over the arguments, or the one string-call argument. */
    method CompileArguments(node: Node, c: Ctx) returns (r: Status<seq<Operand>>)
      requires node.CallExpression? || node.StringCallExpression?
      modifies this
      ensures Agrees(r, CallArgs(node, c, old(Snapshot())))
      decreases node, 2, 0
    {
      if node.StringCallExpression? {
        var a := CompileNode(node.argument, Some(c));
        if a.Threw? {
          return Threw(a.error);
        }
        return Done([if a.value.Some? then Junk(a.value.value) else Undef]);
      }
      var acc: seq<Operand> := [];
      var i := 0;
      while i < |node.arguments|
        invariant 0 <= i <= |node.arguments|
        invariant CallArgs(node, c, old(Snapshot())) == ArgsFrom(node, i, c, acc, Snapshot())
        decreases |node.arguments| - i
      {
        var a := CompileNode(node.arguments[i], Some(c));
        if a.Threw? {
          return Threw(a.error);
        }
        if a.value.None? {
          return Threw(ReadOfUndefined);
        }
        acc := acc + [RegOf(a.value.value.register)];
        i := i + 1;
      }
      return Done(acc);
    }

    /** `compileWhileStatement`, given the loop's new scope. */
    method CompileWhile(node: Node, ws: ScopeRef) returns (r: Status<()>)
      requires node.WhileStatement?
      modifies this
      ensures Agrees(r, Lowering.CompileWhile(node, ws, old(Snapshot())))
      decreases node, 2, 0
    {
      var cond := CompileNode(node.condition, Some(Ctx(WhileStatementKind, Some(ws), None)));
      if cond.Threw? {
        return Threw(cond.error);
      }
      var whileLabel := NewLabel();
      var breakLabel := NewLabel();
      var body := CompileNodes(node.body, Some(Ctx(WhileStatementKind, Some(ws), Some(breakLabel))));
      if body.Threw? {
        return Threw(body.error);
      }
      if cond.value.None? {
        return Threw(ReadOfUndefined);
      }
      Emit(JUMPIF, [RegOf(cond.value.value.register), Label(whileLabel)]);
      UpdateLabel(breakLabel);
      return Done(());
    }

    /** `compileIfStatement`, given the statement's new scope: pass 1, `JUMP [end]`, pass 2. */
    method CompileIf(node: Node, ifScope: ScopeRef, parent: Option<Ctx>) returns (r: Status<()>)
      requires node.IfStatement?
      modifies this
      ensures Agrees(r, Lowering.CompileIf(node, ifScope, parent, old(Snapshot())))
      decreases node, 2, 0
    {
      var end := NewLabel();
      var c := IfCtx(ifScope, parent);
      ghost var st1 := Snapshot();
      var ids: seq<nat> := [];
      var i := 0;
      while i < |node.clauses|
        invariant 0 <= i <= |node.clauses|
        invariant TestsFrom(node, 0, c, [], st1) == TestsFrom(node, i, c, ids, Snapshot())
        decreases |node.clauses| - i
      {
        var x := CompileTest(node, i, c);
        if x.Threw? {
          return Threw(x.error);
        }
        if x.value.Some? {
          ids := ids + [x.value.value];
        }
        i := i + 1;
      }
      Emit(JUMP, [Label(end)]);
      ghost var st3 := Snapshot();
      i := 0;
      while i < |node.clauses|
        invariant 0 <= i <= |node.clauses|
        invariant BodiesFrom(node, 0, c, ids, end, st3) == BodiesFrom(node, i, c, ids, end, Snapshot())
        decreases |node.clauses| - i
      {
        var x := CompileBody(node, i, c, ids, end);
        if x.Threw? {
          return Threw(x.error);
        }
        i := i + 1;
      }
      UpdateLabel(end);
      return Done(());
    }

    /** Pass 1 on one clause. */
    method CompileTest(node: Node, i: nat, c: Ctx) returns (r: Status<Option<nat>>)
      requires node.IfStatement? && i < |node.clauses|
      modifies this
      ensures Agrees(r, TestStep(node, i, c, old(Snapshot())))
      decreases node, 0, 0
    {
      match node.clauses[i]
      case IfClause(condition, _) =>
        var l := NewLabel();
        var cond := CompileNode(condition, Some(c));
        if cond.Threw? {
          return Threw(cond.error);
        }
        if cond.value.None? {
          return Threw(ReadOfUndefined);
        }
        Emit(JUMPIF, [RegOf(cond.value.value.register), Label(l)]);
        return Done(Some(l));
      case ElseClause(_) =>
        var l := NewLabel();
        Emit(JUMP, [Label(l)]);
        return Done(Some(l));
      case ElseifClause(_, _) =>
        return Done(None);
    }

    /** Pass 2 on one clause. */
    method CompileBody(node: Node, i: nat, c: Ctx, ids: seq<nat>, end: nat) returns (r: Status<()>)
      requires node.IfStatement? && i < |node.clauses|
      modifies this
      ensures Agrees(r, BodyStep(node, i, c, ids, end, old(Snapshot())))
      decreases node, 0, 0
    {
      if node.clauses[i].ElseifClause? {
        return Done(());
      }
      if i < |ids| {
        UpdateLabel(ids[i]);
      }
      var body := CompileNodes(node.clauses[i].body, Some(c));
      if body.Threw? {
        return Threw(body.error);
      }
      if node.clauses[i].IfClause? {
        Emit(JUMP, [Label(end)]);
      }
      return Done(());
    }

    /** `getTableFromMemberExpression`. */
    method GetTableOf(member: Node, c: Ctx) returns (r: Status<Res>)
      requires member.MemberExpression?
      modifies this
      ensures Agrees(r, GetTable(member, c, old(Snapshot())))
      decreases member, 1, 0
    {
      var table := AllocateRegister();
      var chained := member.base.MemberExpression?;
      var base: Status<Option<Res>>;
      if chained {
        var b := GetTableOf(member.base, c);
        base := LiftStatus(b);
      } else {
        base := CompileNode(member.base, Some(Synthetic));
      }
      if base.Threw? {
        return Threw(base.error);
      }
      var iden := CompileIdentifier(member.identifier, Some(c));
      if iden.Threw? {
        return Threw(iden.error);
      }
      if base.value.None? {
        return Threw(ReadOfUndefined);
      }
      var b := base.value.value;
      var shared := SharedRegister(b);
      if chained {
        Emit(GETTABLE, [RegOf(shared), ConstOf(b.constant), Reg(table)]);
        return Done(Res(NoType, Some(table), iden.value.constant, Some(table)));
      }
      return Done(Res(NoType, b.register, iden.value.constant, shared));
    }

    /** `compileAssignmentStatement`: the `forEach` over the targets. */
    method CompileAssignment(node: Node, s: ScopeRef) returns (r: Status<()>)
      requires node.AssignmentStatement?
      modifies this
      ensures Agrees(r, AssignFrom(node, 0, s, old(Snapshot())))
      decreases node, 1
    {
      var i := 0;
      while i < |node.variables|
        invariant 0 <= i <= |node.variables|
        invariant AssignFrom(node, 0, s, old(Snapshot())) == AssignFrom(node, i, s, Snapshot())
        decreases |node.variables| - i
      {
        if i < |node.init| {
          var x := CompileAssignTarget(node, i, s);
          if x.Threw? {
            return Threw(x.error);
          }
        }
        i := i + 1;
      }
      return Done(());
    }

    /** One target with an initialiser. */
    method CompileAssignTarget(node: Node, i: nat, s: ScopeRef) returns (r: Status<()>)
      requires node.AssignmentStatement? && i < |node.variables| && i < |node.init|
      modifies this
      ensures Agrees(r, AssignStep(node, i, s, old(Snapshot())))
      decreases node, 0, 1
    {
      var c := Ctx(AssignmentStatementKind, Some(s), None);
      var value := node.init[i];
      var init := CompileNode(value, Some(c));
      if init.Threw? {
        return Threw(init.error);
      }
      if node.variables[i].MemberExpression? {
        var tv := GetTableOf(node.variables[i], c);
        if tv.Threw? {
          return Threw(tv.error);
        }
        if init.value.None? {
          return Threw(ReadOfUndefined);
        }
        Emit(SETTABLEK, [RegOf(tv.value.register), ConstOf(tv.value.constant), RegOf(init.value.value.register)]);
        return Done(());
      }
      if value.Identifier? && Truthy(Lookup(Snapshot(), s, value.name)) {
        return Threw(TemporalDeadZone);
      }
      var v := CompileNode(node.variables[i], Some(c));
      if v.Threw? {
        return Threw(v.error);
      }
      if init.value.None? || v.value.None? {
        return Threw(ReadOfUndefined);
      }
      Emit(SETVAR, [RegOf(init.value.value.register), ConstOf(v.value.value.constant)]);
      return Done(());
    }

    /** `compileLocalStatement`: the `forEach` over the declared names. */
    method CompileLocal(node: Node, s: ScopeRef) returns (r: Status<()>)
      requires node.LocalStatement?
      modifies this
      ensures Agrees(r, LocalFrom(node, 0, s, old(Snapshot())))
      decreases node, 1
    {
      var i := 0;
      while i < |node.names|
        invariant 0 <= i <= |node.names|
        invariant LocalFrom(node, 0, s, old(Snapshot())) == LocalFrom(node, i, s, Snapshot())
        decreases |node.names| - i
      {
        if i < |node.init| {
          var x := CompileLocalName(node, i, s);
          if x.Threw? {
            return Threw(x.error);
          }
        }
        i := i + 1;
      }
      return Done(());
    }

    /** One declared name with an initialiser. */
    method CompileLocalName(node: Node, i: nat, s: ScopeRef) returns (r: Status<()>)
      requires node.LocalStatement? && i < |node.names| && i < |node.init|
      modifies this
      ensures Agrees(r, LocalStep(node, i, s, old(Snapshot())))
      decreases node, 0, 0
    {
      var c := Ctx(LocalStatementKind, Some(s), None);
      var init := CompileNode(node.init[i], Some(c));
      if init.Threw? {
        return Threw(init.error);
      }
      var v := CompileIdentifier(node.names[i], Some(c));
      if v.Threw? {
        return Threw(v.error);
      }
      if init.value.None? {
        return Threw(ReadOfUndefined);
      }
      var ok := StoreBinding(s, node.names[i], BindingOf(init.value.value.register));
      if !ok {
        return Threw(RootSet);
      }
      Emit(SCOPESET, [Reg(s.register), ConstOf(v.value.constant), RegOf(init.value.value.register)]);
      return Done(());
    }

    /** `treverseTree`: every top-level statement with a null parent. */
    method TraverseTree(body: seq<Node>) returns (r: Status<()>)
      modifies this
      ensures Agrees(r, NodesFrom(body, 0, None, old(Snapshot())))
    {
      r := CompileNodes(body, None);
    }
  }

  /** A fresh compiler run on a chunk ends exactly as `CompileChunk` says. */
  method CompileProgram(body: seq<Node>) returns (c: Compiler, r: Status<()>)
    ensures fresh(c) && c.Agrees(r, CompileChunk(body))
  {
    c := new Compiler();
    r := c.TraverseTree(body);
  }
}
