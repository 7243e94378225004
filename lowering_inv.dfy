/**
 * What every lowering rule preserves: a successful rule keeps the compile
 * state invariant (`Inv`), only extends the state, leaves every label that
 * existed before it bound where it was, and returns a result whose registers
 * and constants exist.  One lemma per rule, recursive exactly where the rules
 * are.
 */
module LoweringInvariant {
  import opened Wrappers
  import opened Values
  import opened Scopes
  import opened Bytecode
  import opened CompileState
  import opened Ast
  import opened Lowering

  /** The parent's scope and break label exist. */
  predicate CtxOk(c: Ctx, st: State) {
    && (c.scope.Some? ==> ScopeRefOk(c.scope.value, st))
    && (c.breakLabel.Some? ==> c.breakLabel.value < |st.labels|)
  }

  predicate ParentOk(parent: Option<Ctx>, st: State) {
    parent.Some? ==> CtxOk(parent.value, st)
  }

  /** A successful step keeps the invariant and only extends the state. */
  predicate Step<T>(o: Outcome<T>, st: State) {
    o.Ok? ==> Inv(o.st) && Extends(st, o.st)
  }

  /** A step that, besides, leaves every label that existed before it bound where it was. */
  predicate Done<T>(o: Outcome<T>, st: State) {
    Step(o, st) && (o.Ok? ==> st.labels <= o.st.labels)
  }

  predicate ResValid(r: Res, st: State) {
    ResOk(r, st.registers, |st.constants|)
  }

  predicate OptValid(r: Option<Res>, st: State) {
    r.Some? ==> ResValid(r.value, st)
  }

  /** Every label of a list exists. */
  predicate LabelsOk(ids: seq<nat>, st: State) {
    forall j :: 0 <= j < |ids| ==> ids[j] < |st.labels|
  }

  /**
   * Pass 2 of an if statement rebinds label `id` from clause i on: some
   * IfClause or ElseClause at a position j >= i has `ids[j] == id`.
   */
  predicate Rebinds(node: Node, i: nat, ids: seq<nat>, id: nat)
    requires node.IfStatement?
  {
    exists j :: i <= j < |node.clauses| && j < |ids| && !node.clauses[j].ElseifClause? && ids[j] == id
  }

  /** A node's scope exists when its parent's does. */
  lemma NodeScopeOk(parent: Option<Ctx>, st: State)
    requires Inv(st) && ParentOk(parent, st)
    ensures ScopeRefOk(NodeScope(parent), st)
  {
  }

  lemma IdentifierOk(name: string, parent: Option<Ctx>, st: State)
    requires Inv(st) && ParentOk(parent, st)
    ensures var o := CompileIdentifier(name, parent, st);
      && Done(o, st) && (o.Ok? ==> ResValid(o.value, o.st))
  {
    InternOk(st, Str(name));
    var (k, st1) := Intern(st, Str(name));
    if parent.Some? && !KeyOnly(parent.value.kind) {
      AllocOk(st1);
      var (r, st2) := Alloc(st1);
      var s := parent.value.scope;
      if s.Some? && Truthy(Lookup(st2, s.value, name)) {
        Emit3Ok(st2, SCOPEGET, Reg(s.value.register), Const(k), Reg(r));
      } else {
        Emit2Ok(st2, GETVAR, Const(k), Reg(r));
      }
    }
  }

  lemma LiteralOk(node: Node, st: State)
    requires IsLiteral(node) && Inv(st)
    ensures var (r, st1) := CompileLiteral(node, st);
      && Inv(st1) && Extends(st, st1) && st1.labels == st.labels && ResValid(r, st1)
  {
    AllocOk(st);
    var (r, st1) := Alloc(st);
    if node.NilLiteral? {
      Emit1Ok(st1, SETNIL, Reg(r));
    } else {
      InternOk(st1, LiteralOf(node));
      var (k, st2) := Intern(st1, LiteralOf(node));
      Emit2Ok(st2, LOAD, Const(k), Reg(r));
    }
  }

  lemma BreakOk(parent: Option<Ctx>, st: State)
    requires Inv(st) && ParentOk(parent, st)
    ensures Done(CompileBreak(parent, st), st)
  {
    if parent.Some? {
      var target := if parent.value.breakLabel.Some? then Label(parent.value.breakLabel.value) else Undef;
      Emit1Ok(st, JUMP, target);
    }
  }

  lemma {:induction false} NodeOk(node: Node, parent: Option<Ctx>, st: State)
    requires Inv(st) && ParentOk(parent, st)
    ensures var o := CompileNode(node, parent, st);
      && Done(o, st) && (o.Ok? ==> OptValid(o.value, o.st))
    decreases node, 3, 0
  {
    if node.CallStatement? || node.CallExpression? || node.StringCallExpression? || node.BinaryExpression? || node.TableConstructorExpression? {
      ExpressionOk(node, parent, st);
    } else if node.WhileStatement? || node.IfStatement? || node.AssignmentStatement? || node.LocalStatement? {
      StatementOk(node, parent, st);
    } else {
      LeafOk(node, parent, st);
    }
  }

  /** The rules that do not compile child nodes. */
  lemma LeafOk(node: Node, parent: Option<Ctx>, st: State)
    requires Inv(st) && ParentOk(parent, st)
    requires !(node.CallStatement? || node.CallExpression? || node.StringCallExpression? || node.BinaryExpression? || node.TableConstructorExpression?)
    requires !(node.WhileStatement? || node.IfStatement? || node.AssignmentStatement? || node.LocalStatement?)
    ensures var o := CompileNode(node, parent, st);
      && Done(o, st) && (o.Ok? ==> OptValid(o.value, o.st))
  {
    match node
    case Identifier(name) => IdentifierOk(name, parent, st);
    case NumericLiteral(_) => LiteralOk(node, st);
    case StringLiteral(_) => LiteralOk(node, st);
    case BooleanLiteral(_) => LiteralOk(node, st);
    case NilLiteral => LiteralOk(node, st);
    case BreakStatement => BreakOk(parent, st);
    case MemberExpression(_, _) =>
    case Other(_) =>
  }

  lemma {:induction false} ExpressionOk(node: Node, parent: Option<Ctx>, st: State)
    requires Inv(st) && ParentOk(parent, st)
    requires node.CallStatement? || node.CallExpression? || node.StringCallExpression? || node.BinaryExpression? || node.TableConstructorExpression?
    ensures var o := CompileNode(node, parent, st);
      && Done(o, st) && (o.Ok? ==> OptValid(o.value, o.st))
    decreases node, 2, 2
  {
    var s := NodeScope(parent);
    NodeScopeOk(parent, st);
    match node
    case CallStatement(e) => NodeOk(e, Some(Ctx(CallStatementKind, Some(s), None)), st);
    case CallExpression(_, _) => CallOk(node, s, st);
    case StringCallExpression(_, _) => CallOk(node, s, st);
    case BinaryExpression(_, _, _) => BinaryOk(node, s, st);
    case TableConstructorExpression(_) => TableOk(node, s, st);
  }

  lemma {:induction false} StatementOk(node: Node, parent: Option<Ctx>, st: State)
    requires Inv(st) && ParentOk(parent, st)
    requires node.WhileStatement? || node.IfStatement? || node.AssignmentStatement? || node.LocalStatement?
    ensures Done(CompileNode(node, parent, st), st)
    ensures CompileNode(node, parent, st).Ok? ==> CompileNode(node, parent, st).value.None?
    decreases node, 2, 3
  {
    if node.WhileStatement? || node.IfStatement? {
      BlockStatementOk(node, parent, st);
    } else {
      BindingStatementOk(node, parent, st);
    }
  }

  /** `while` and `if` open a scope of their own. */
  lemma {:induction false} BlockStatementOk(node: Node, parent: Option<Ctx>, st: State)
    requires Inv(st) && ParentOk(parent, st)
    requires node.WhileStatement? || node.IfStatement?
    ensures Done(CompileNode(node, parent, st), st)
    ensures CompileNode(node, parent, st).Ok? ==> CompileNode(node, parent, st).value.None?
    decreases node, 2, 2
  {
    var s := NodeScope(parent);
    NodeScopeOk(parent, st);
    CreateScopeOk(st, s);
    var (inner, st1) := CreateScope(st, s);
    if node.WhileStatement? {
      WhileOk(node, inner, st1);
    } else {
      IfOk(node, inner, parent, st1);
    }
  }

  /** Assignments and `local` bind in the enclosing scope. */
  lemma {:induction false} BindingStatementOk(node: Node, parent: Option<Ctx>, st: State)
    requires Inv(st) && ParentOk(parent, st)
    requires node.AssignmentStatement? || node.LocalStatement?
    ensures Done(CompileNode(node, parent, st), st)
    ensures CompileNode(node, parent, st).Ok? ==> CompileNode(node, parent, st).value.None?
    decreases node, 2, 2
  {
    var s := NodeScope(parent);
    NodeScopeOk(parent, st);
    if node.AssignmentStatement? {
      AssignFromOk(node, 0, s, st);
    } else {
      LocalFromOk(node, 0, s, st);
    }
  }

  lemma {:induction false} NodesOk(nodes: seq<Node>, i: nat, parent: Option<Ctx>, st: State)
    requires i <= |nodes| && Inv(st) && ParentOk(parent, st)
    ensures Done(NodesFrom(nodes, i, parent, st), st)
    decreases nodes, 0, |nodes| - i
  {
    if i < |nodes| {
      NodeOk(nodes[i], parent, st);
      var o := CompileNode(nodes[i], parent, st);
      if o.Ok? {
        NodesOk(nodes, i + 1, parent, o.st);
      }
    }
  }

  lemma {:induction false} BinaryOk(node: Node, s: ScopeRef, st: State)
    requires node.BinaryExpression? && Inv(st) && ScopeRefOk(s, st)
    ensures var o := CompileBinary(node, s, st);
      && Done(o, st) && (o.Ok? ==> ResValid(o.value, o.st))
    decreases node, 2, 1
  {
    var c := Ctx(BinaryExpressionKind, Some(s), None);
    NodeOk(node.left, Some(c), st);
    var lo := CompileNode(node.left, Some(c), st);
    if lo.Ok? {
      NodeOk(node.right, Some(c), lo.st);
      var ro := CompileNode(node.right, Some(c), lo.st);
      if ro.Ok? {
        BinaryTailOk(node, s, st, lo.value, lo.st, ro.value, ro.st);
      }
    }
  }

  /** The end of a binary expression, once both operands are compiled. */
  lemma BinaryTailOk(node: Node, s: ScopeRef, st: State, l: Option<Res>, st1: State, r: Option<Res>, st2: State)
    requires node.BinaryExpression?
    requires CompileNode(node.left, Some(Ctx(BinaryExpressionKind, Some(s), None)), st) == Ok(l, st1)
    requires CompileNode(node.right, Some(Ctx(BinaryExpressionKind, Some(s), None)), st1) == Ok(r, st2)
    requires Inv(st2) && Extends(st, st2) && st.labels <= st2.labels
    requires OptValid(l, st2) && OptValid(r, st2)
    ensures var o := CompileBinary(node, s, st);
      && Done(o, st) && (o.Ok? ==> ResValid(o.value, o.st))
  {
    AllocOk(st2);
    var (ret, st3) := Alloc(st2);
    var op := BinaryOpcode(node.operator);
    if op.Some? && l.Some? && r.Some? {
      Emit3Ok(st3, op.value, RegOf(l.value.register), RegOf(r.value.register), Reg(ret));
    }
  }

  lemma {:induction false} TableOk(node: Node, s: ScopeRef, st: State)
    requires node.TableConstructorExpression? && Inv(st) && ScopeRefOk(s, st)
    ensures var o := CompileTable(node, s, st);
      && Done(o, st) && (o.Ok? ==> ResValid(o.value, o.st))
    decreases node, 2, 0
  {
    AllocOk(st);
    var (t, st1) := Alloc(st);
    Emit1Ok(st1, NEWTABLE, Reg(t));
    var st2 := Emit(st1, NEWTABLE, [Reg(t)]);
    FieldsOk(node, 0, t, Ctx(TableConstructorKind, Some(s), None), st2);
  }

  lemma {:induction false} FieldsOk(node: Node, i: nat, t: nat, c: Ctx, st: State)
    requires node.TableConstructorExpression? && i <= |node.fields|
    requires Inv(st) && 1 <= t <= st.registers && CtxOk(c, st)
    ensures Done(FieldsFrom(node, i, t, c, st), st)
    decreases node, 1, |node.fields| - i
  {
    if i < |node.fields| {
      FieldOk(node, i, t, c, st);
      var o := FieldStep(node, i, t, c, st);
      if o.Ok? {
        FieldsOk(node, i + 1, t, c, o.st);
      }
    }
  }

  lemma {:induction false} FieldOk(node: Node, i: nat, t: nat, c: Ctx, st: State)
    requires node.TableConstructorExpression? && i < |node.fields|
    requires Inv(st) && 1 <= t <= st.registers && CtxOk(c, st)
    ensures Done(FieldStep(node, i, t, c, st), st)
    decreases node, 0, 1
  {
    if node.fields[i].TableKeyString? {
      KeyStringFieldOk(node, i, t, c, st);
    } else if node.fields[i].TableKey? {
      KeyFieldOk(node, i, t, c, st);
    } else {
      ValueFieldOk(node, i, t, c, st);
    }
  }

  lemma {:induction false} KeyStringFieldOk(node: Node, i: nat, t: nat, c: Ctx, st: State)
    requires node.TableConstructorExpression? && i < |node.fields| && node.fields[i].TableKeyString?
    requires Inv(st) && 1 <= t <= st.registers && CtxOk(c, st)
    ensures Done(FieldStep(node, i, t, c, st), st)
    decreases node, 0, 0
  {
    var f := node.fields[i];
    IdentifierOk(f.keyName, Some(c), st);
    var ko := CompileIdentifier(f.keyName, Some(c), st);
    if ko.Ok? {
      NodeOk(f.value, Some(c), ko.st);
      var vo := CompileNode(f.value, Some(c), ko.st);
      if vo.Ok? {
        KeyStringTailOk(node, i, t, c, st, ko.value, ko.st, vo.value, vo.st);
      }
    }
  }

  /** The end of a `TableKeyString` field, once its key and value are compiled. */
  lemma KeyStringTailOk(node: Node, i: nat, t: nat, c: Ctx, st: State, key: Res, st1: State, v: Option<Res>, st2: State)
    requires node.TableConstructorExpression? && i < |node.fields| && node.fields[i].TableKeyString?
    requires CompileIdentifier(node.fields[i].keyName, Some(c), st) == Ok(key, st1)
    requires CompileNode(node.fields[i].value, Some(c), st1) == Ok(v, st2)
    requires Inv(st2) && Extends(st, st2) && st.labels <= st2.labels && 1 <= t <= st2.registers
    requires ResValid(key, st2) && OptValid(v, st2)
    ensures Done(FieldStep(node, i, t, c, st), st)
  {
    if v.Some? {
      Emit3Ok(st2, SETTABLEK, Reg(t), ConstOf(key.constant), RegOf(v.value.register));
    }
  }

  lemma {:induction false} KeyFieldOk(node: Node, i: nat, t: nat, c: Ctx, st: State)
    requires node.TableConstructorExpression? && i < |node.fields| && node.fields[i].TableKey?
    requires Inv(st) && 1 <= t <= st.registers && CtxOk(c, st)
    ensures Done(FieldStep(node, i, t, c, st), st)
    decreases node, 0, 0
  {
    var f := node.fields[i];
    NodeOk(f.key, Some(c), st);
    var ko := CompileNode(f.key, Some(c), st);
    if ko.Ok? {
      NodeOk(f.value, Some(c), ko.st);
      var vo := CompileNode(f.value, Some(c), ko.st);
      if vo.Ok? {
        KeyTailOk(node, i, t, c, st, ko.value, ko.st, vo.value, vo.st);
      }
    }
  }

  /** The end of a `TableKey` field, once its key and value are compiled. */
  lemma KeyTailOk(node: Node, i: nat, t: nat, c: Ctx, st: State, k: Option<Res>, st1: State, v: Option<Res>, st2: State)
    requires node.TableConstructorExpression? && i < |node.fields| && node.fields[i].TableKey?
    requires CompileNode(node.fields[i].key, Some(c), st) == Ok(k, st1)
    requires CompileNode(node.fields[i].value, Some(c), st1) == Ok(v, st2)
    requires Inv(st2) && Extends(st, st2) && st.labels <= st2.labels && 1 <= t <= st2.registers
    requires OptValid(k, st2) && OptValid(v, st2)
    ensures Done(FieldStep(node, i, t, c, st), st)
  {
    if k.Some? && v.Some? {
      Emit3Ok(st2, SETTABLE, Reg(t), RegOf(k.value.register), RegOf(v.value.register));
    }
  }

  lemma {:induction false} ValueFieldOk(node: Node, i: nat, t: nat, c: Ctx, st: State)
    requires node.TableConstructorExpression? && i < |node.fields| && node.fields[i].TableValue?
    requires Inv(st) && 1 <= t <= st.registers && CtxOk(c, st)
    ensures Done(FieldStep(node, i, t, c, st), st)
    decreases node, 0, 0
  {
    var f := node.fields[i];
    NodeOk(f.value, Some(c), st);
    var vo := CompileNode(f.value, Some(c), st);
    if vo.Ok? && vo.value.Some? {
      Emit2Ok(vo.st, PUSHTABLE, Reg(t), RegOf(vo.value.value.register));
    }
  }

  lemma {:induction false} CallOk(node: Node, s: ScopeRef, st: State)
    requires (node.CallExpression? || node.StringCallExpression?) && Inv(st) && ScopeRefOk(s, st)
    ensures var o := CompileCall(node, s, st);
      && Done(o, st) && (o.Ok? ==> ResValid(o.value, o.st))
    decreases node, 2, 1
  {
    var c := Ctx(CallKind(node), Some(s), None);
    NodeOk(node.base, Some(c), st);
    var fo := CompileNode(node.base, Some(c), st);
    if fo.Ok? && fo.value.Some? {
      AllocOk(fo.st);
      var (ret, st2) := Alloc(fo.st);
      CallArgsOk(node, c, st2);
      var ao := CallArgs(node, c, st2);
      if ao.Ok? {
        CallTailOk(node, s, st, fo.value.value, fo.st, ao.value, ao.st);
      }
    }
  }

  /** The end of a call, once the function and its arguments are compiled. */
  lemma CallTailOk(node: Node, s: ScopeRef, st: State, f: Res, st1: State, args: seq<Operand>, st3: State)
    requires node.CallExpression? || node.StringCallExpression?
    requires CompileNode(node.base, Some(Ctx(CallKind(node), Some(s), None)), st) == Ok(Some(f), st1)
    requires CallArgs(node, Ctx(CallKind(node), Some(s), None), Alloc(st1).1) == Ok(args, st3)
    requires Inv(st3) && Extends(st, st3) && st.labels <= st3.labels && ResValid(f, st3)
    requires ArgsOk(args, st3.registers, |st3.constants|) && st1.registers < st3.registers
    ensures var o := CompileCall(node, s, st);
      && Done(o, st) && (o.Ok? ==> ResValid(o.value, o.st))
  {
    var ret := st1.registers + 1;
    Emit3Ok(st3, CALL, RegOf(f.register), Args(args), Reg(ret));
  }

  lemma {:induction false} CallArgsOk(node: Node, c: Ctx, st: State)
    requires (node.CallExpression? || node.StringCallExpression?) && Inv(st) && CtxOk(c, st)
    ensures var o := CallArgs(node, c, st);
      && Done(o, st) && (o.Ok? ==> ArgsOk(o.value, o.st.registers, |o.st.constants|))
    decreases node, 2, 0
  {
    if node.CallExpression? {
      ArgsFromOk(node, 0, c, [], st);
    } else {
      NodeOk(node.argument, Some(c), st);
    }
  }

  lemma {:induction false} ArgsFromOk(node: Node, i: nat, c: Ctx, acc: seq<Operand>, st: State)
    requires node.CallExpression? && i <= |node.arguments|
    requires Inv(st) && CtxOk(c, st) && ArgsOk(acc, st.registers, |st.constants|)
    ensures var o := ArgsFrom(node, i, c, acc, st);
      && Done(o, st) && (o.Ok? ==> ArgsOk(o.value, o.st.registers, |o.st.constants|))
    decreases node, 1, |node.arguments| - i
  {
    if i < |node.arguments| {
      NodeOk(node.arguments[i], Some(c), st);
      var ao := CompileNode(node.arguments[i], Some(c), st);
      if ao.Ok? && ao.value.Some? {
        ArgsOkGrow(acc, st.registers, |st.constants|, ao.st.registers, |ao.st.constants|);
        var acc1 := acc + [RegOf(ao.value.value.register)];
        assert ArgsOk(acc1, ao.st.registers, |ao.st.constants|) by {
          forall j | 0 <= j < |acc1| ensures ArgOk(acc1[j], ao.st.registers, |ao.st.constants|) {
            if j < |acc| {
              assert acc1[j] == acc[j];
            }
          }
        }
        ArgsFromOk(node, i + 1, c, acc1, ao.st);
      }
    }
  }

  lemma {:induction false} WhileOk(node: Node, ws: ScopeRef, st: State)
    requires node.WhileStatement? && Inv(st) && ScopeRefOk(ws, st)
    ensures Done(CompileWhile(node, ws, st), st)
    decreases node, 2, 0
  {
    NodeOk(node.condition, Some(Ctx(WhileStatementKind, Some(ws), None)), st);
    var co := CompileNode(node.condition, Some(Ctx(WhileStatementKind, Some(ws), None)), st);
    if co.Ok? {
      NewLabelOk(co.st);
      var (whileLabel, st2) := NewLabel(co.st);
      NewLabelOk(st2);
      var (breakLabel, st3) := NewLabel(st2);
      NodesOk(node.body, 0, Some(Ctx(WhileStatementKind, Some(ws), Some(breakLabel))), st3);
      var bo := NodesFrom(node.body, 0, Some(Ctx(WhileStatementKind, Some(ws), Some(breakLabel))), st3);
      if bo.Ok? && co.value.Some? {
        Emit2Ok(bo.st, JUMPIF, RegOf(co.value.value.register), Label(whileLabel));
        var st5 := Emit(bo.st, JUMPIF, [RegOf(co.value.value.register), Label(whileLabel)]);
        UpdateLabelOk(st5, breakLabel);
        assert st.labels <= UpdateLabel(st5, breakLabel).labels by {
          assert st.labels <= st5.labels && breakLabel >= |st.labels|;
        }
      }
    }
  }

  lemma {:induction false} IfOk(node: Node, ifScope: ScopeRef, parent: Option<Ctx>, st: State)
    requires node.IfStatement? && Inv(st) && ScopeRefOk(ifScope, st) && ParentOk(parent, st)
    ensures Done(CompileIf(node, ifScope, parent, st), st)
    decreases node, 2, 1
  {
    NewLabelOk(st);
    var (end, st1) := NewLabel(st);
    var c := IfCtx(ifScope, parent);
    TestsOk(node, 0, c, [], st1);
    var to := TestsFrom(node, 0, c, [], st1);
    if to.Ok? {
      IfTailOk(node, ifScope, parent, st, to.value, to.st);
    }
  }

  /** The end of `compileIfStatement`, once pass 1 has made the tests. */
  lemma IfTailOk(node: Node, ifScope: ScopeRef, parent: Option<Ctx>, st: State, ids: seq<nat>, st2: State)
    requires node.IfStatement? && TestsFrom(node, 0, IfCtx(ifScope, parent), [], NewLabel(st).1) == Ok(ids, st2)
    requires Inv(st2) && Extends(st, st2) && st.labels <= st2.labels && |st.labels| < |st2.labels|
    requires CtxOk(IfCtx(ifScope, parent), st2) && LabelsOk(ids, st2)
    requires forall j :: 0 <= j < |ids| ==> |st.labels| < ids[j]
    ensures Done(CompileIf(node, ifScope, parent, st), st)
    decreases node, 2, 0
  {
    var end := |st.labels|;
    var c := IfCtx(ifScope, parent);
    Emit1Ok(st2, JUMP, Label(end));
    var st3 := Emit(st2, JUMP, [Label(end)]);
    BodiesOk(node, 0, c, ids, end, st3);
    var bo := BodiesFrom(node, 0, c, ids, end, st3);
    if bo.Ok? {
      UpdateLabelOk(bo.st, end);
      forall id | 0 <= id < |st.labels| ensures bo.st.labels[id] == st.labels[id] {
        assert id !in ids;
      }
    }
  }

  lemma {:induction false} TestsOk(node: Node, i: nat, c: Ctx, ids: seq<nat>, st: State)
    requires node.IfStatement? && i <= |node.clauses| && Inv(st) && CtxOk(c, st) && LabelsOk(ids, st)
    ensures var o := TestsFrom(node, i, c, ids, st);
      && Done(o, st) && (o.Ok? ==> LabelsOk(o.value, o.st))
      && (o.Ok? ==> |ids| <= |o.value| && o.value[..|ids|] == ids)
      && (o.Ok? ==> forall j :: |ids| <= j < |o.value| ==> |st.labels| <= o.value[j])
    decreases node, 1, |node.clauses| - i
  {
    if i < |node.clauses| {
      TestOk(node, i, c, st);
      var so := TestStep(node, i, c, st);
      if so.Ok? {
        var next := if so.value.Some? then ids + [so.value.value] else ids;
        assert forall j :: 0 <= j < |ids| ==> next[j] == ids[j];
        TestsOk(node, i + 1, c, next, so.st);
        var o := TestsFrom(node, i + 1, c, next, so.st);
        assert o.Ok? ==> o.value[..|ids|] == next[..|ids|];
      }
    }
  }

  lemma {:induction false} TestOk(node: Node, i: nat, c: Ctx, st: State)
    requires node.IfStatement? && i < |node.clauses| && Inv(st) && CtxOk(c, st)
    ensures var o := TestStep(node, i, c, st);
      && Done(o, st)
      && (o.Ok? ==> (o.value.Some? <==> !node.clauses[i].ElseifClause?))
      && (o.Ok? && o.value.Some? ==> o.value.value == |st.labels| < |o.st.labels|)
    decreases node, 0, 0
  {
    match node.clauses[i]
    case IfClause(condition, _) =>
      NewLabelOk(st);
      var (l, st1) := NewLabel(st);
      NodeOk(condition, Some(c), st1);
      var co := CompileNode(condition, Some(c), st1);
      if co.Ok? && co.value.Some? {
        Emit2Ok(co.st, JUMPIF, RegOf(co.value.value.register), Label(l));
      }
    case ElseClause(_) =>
      NewLabelOk(st);
      var (l, st1) := NewLabel(st);
      Emit1Ok(st1, JUMP, Label(l));
    case ElseifClause(_, _) =>
  }

  lemma {:induction false} BodiesOk(node: Node, i: nat, c: Ctx, ids: seq<nat>, end: nat, st: State)
    requires node.IfStatement? && i <= |node.clauses| && Inv(st) && CtxOk(c, st) && LabelsOk(ids, st) && end < |st.labels|
    ensures var o := BodiesFrom(node, i, c, ids, end, st);
      && Step(o, st) && (o.Ok? ==> |st.labels| <= |o.st.labels|)
      && (o.Ok? ==> forall id :: 0 <= id < |st.labels| && id !in ids ==> o.st.labels[id] == st.labels[id])
      && (o.Ok? ==> forall id :: 0 <= id < |st.labels| && !Rebinds(node, i, ids, id) ==> o.st.labels[id] == st.labels[id])
    decreases node, 1, |node.clauses| - i
  {
    if i < |node.clauses| {
      BodyOk(node, i, c, ids, end, st);
      var so := BodyStep(node, i, c, ids, end, st);
      if so.Ok? {
        BodiesOk(node, i + 1, c, ids, end, so.st);
        var o := BodiesFrom(node, i + 1, c, ids, end, so.st);
        assert o.Ok? ==> forall id :: 0 <= id < |st.labels| && !Rebinds(node, i, ids, id) ==>
          !Rebinds(node, i + 1, ids, id) && !(i < |ids| && !node.clauses[i].ElseifClause? && ids[i] == id);
      }
    }
  }

  lemma {:induction false} BodyOk(node: Node, i: nat, c: Ctx, ids: seq<nat>, end: nat, st: State)
    requires node.IfStatement? && i < |node.clauses| && Inv(st) && CtxOk(c, st) && LabelsOk(ids, st) && end < |st.labels|
    ensures var o := BodyStep(node, i, c, ids, end, st);
      && Step(o, st) && (o.Ok? ==> |st.labels| <= |o.st.labels|)
      && (o.Ok? ==> forall id :: 0 <= id < |st.labels| && !(i < |ids| && !node.clauses[i].ElseifClause? && ids[i] == id) ==>
            o.st.labels[id] == st.labels[id])
    decreases node, 0, 0
  {
    if !node.clauses[i].ElseifClause? {
      if i < |ids| {
        UpdateLabelOk(st, ids[i]);
      }
      var st1 := if i < |ids| then UpdateLabel(st, ids[i]) else st;
      NodesOk(node.clauses[i].body, 0, Some(c), st1);
      var bo := NodesFrom(node.clauses[i].body, 0, Some(c), st1);
      if bo.Ok? && node.clauses[i].IfClause? {
        Emit1Ok(bo.st, JUMP, Label(end));
      }
    }
  }

  lemma {:induction false} GetTableOk(member: Node, c: Ctx, st: State)
    requires member.MemberExpression? && Inv(st) && CtxOk(c, st)
    ensures var o := GetTable(member, c, st);
      && Done(o, st) && (o.Ok? ==> ResValid(o.value, o.st))
    decreases member, 1, 1
  {
    AllocOk(st);
    var (table, st1) := Alloc(st);
    TableBaseOk(member, c, st1);
    var bo := TableBase(member, c, st1);
    if bo.Ok? {
      MemberKeyOk(member.base.MemberExpression?, member.identifier, c, table, bo.value, bo.st);
    }
  }

  /** The end of `getTableFromMemberExpression`, once the base is compiled. */
  lemma MemberKeyOk(chained: bool, name: string, c: Ctx, table: nat, b: Option<Res>, st: State)
    requires Inv(st) && CtxOk(c, st) && OptValid(b, st) && 1 <= table <= st.registers
    ensures var o := MemberKey(chained, name, c, table, b, st);
      && Step(o, st) && (o.Ok? ==> o.st.labels == st.labels && ResValid(o.value, o.st))
  {
    IdentifierOk(name, Some(c), st);
    var io := CompileIdentifier(name, Some(c), st);
    if io.Ok? && b.Some? {
      LinkTableOk(chained, table, b.value, io.value, io.st);
    }
  }

  lemma {:induction false} TableBaseOk(member: Node, c: Ctx, st: State)
    requires member.MemberExpression? && Inv(st) && CtxOk(c, st)
    ensures var o := TableBase(member, c, st);
      && Done(o, st) && (o.Ok? ==> OptValid(o.value, o.st))
    decreases member, 0, 0
  {
    if member.base.MemberExpression? {
      GetTableOk(member.base, c, st);
    } else {
      NodeOk(member.base, Some(Synthetic), st);
    }
  }

  lemma LinkTableOk(chained: bool, table: nat, b: Res, iden: Res, st: State)
    requires Inv(st) && 1 <= table <= st.registers && ResValid(b, st) && ResValid(iden, st)
    ensures var (r, st1) := LinkTable(chained, table, b, iden, st);
      && Inv(st1) && Extends(st, st1) && st1.labels == st.labels && ResValid(r, st1)
  {
    if chained {
      Emit3Ok(st, GETTABLE, RegOf(SharedRegister(b)), ConstOf(b.constant), Reg(table));
    }
  }

  lemma {:induction false} AssignFromOk(node: Node, i: nat, s: ScopeRef, st: State)
    requires node.AssignmentStatement? && i <= |node.variables| && Inv(st) && ScopeRefOk(s, st)
    ensures Done(AssignFrom(node, i, s, st), st)
    decreases node, 1, |node.variables| - i
  {
    if i < |node.variables| {
      if i >= |node.init| {
        AssignFromOk(node, i + 1, s, st);
      } else {
        AssignStepOk(node, i, s, st);
        var o := AssignStep(node, i, s, st);
        if o.Ok? {
          AssignFromOk(node, i + 1, s, o.st);
        }
      }
    }
  }

  lemma {:induction false} AssignStepOk(node: Node, i: nat, s: ScopeRef, st: State)
    requires node.AssignmentStatement? && i < |node.variables| && i < |node.init| && Inv(st) && ScopeRefOk(s, st)
    ensures Done(AssignStep(node, i, s, st), st)
    decreases node, 0, 1
  {
    var c := Ctx(AssignmentStatementKind, Some(s), None);
    var value := node.init[i];
    NodeOk(value, Some(c), st);
    var io := CompileNode(value, Some(c), st);
    if io.Ok? {
      if node.variables[i].MemberExpression? {
        AssignMemberOk(node.variables[i], c, io.value, io.st);
      } else if !(value.Identifier? && Truthy(Lookup(io.st, s, value.name))) {
        NodeOk(node.variables[i], Some(c), io.st);
        var vo := CompileNode(node.variables[i], Some(c), io.st);
        if vo.Ok? && io.value.Some? && vo.value.Some? {
          Emit2Ok(vo.st, SETVAR, RegOf(io.value.value.register), ConstOf(vo.value.value.constant));
        }
      }
    }
  }

  lemma {:induction false} AssignMemberOk(target: Node, c: Ctx, init: Option<Res>, st: State)
    requires target.MemberExpression? && Inv(st) && CtxOk(c, st) && OptValid(init, st)
    ensures Done(AssignMember(target, c, init, st), st)
    decreases target, 2, 0
  {
    GetTableOk(target, c, st);
    var to := GetTable(target, c, st);
    if to.Ok? && init.Some? {
      Emit3Ok(to.st, SETTABLEK, RegOf(to.value.register), ConstOf(to.value.constant), RegOf(init.value.register));
    }
  }

  lemma {:induction false} LocalFromOk(node: Node, i: nat, s: ScopeRef, st: State)
    requires node.LocalStatement? && i <= |node.names| && Inv(st) && ScopeRefOk(s, st)
    ensures Done(LocalFrom(node, i, s, st), st)
    decreases node, 1, |node.names| - i
  {
    if i < |node.names| {
      if i >= |node.init| {
        LocalFromOk(node, i + 1, s, st);
      } else {
        LocalStepOk(node, i, s, st);
        var o := LocalStep(node, i, s, st);
        if o.Ok? {
          LocalFromOk(node, i + 1, s, o.st);
        }
      }
    }
  }

  lemma {:induction false} LocalStepOk(node: Node, i: nat, s: ScopeRef, st: State)
    requires node.LocalStatement? && i < |node.names| && i < |node.init| && Inv(st) && ScopeRefOk(s, st)
    ensures Done(LocalStep(node, i, s, st), st)
    decreases node, 0, 0
  {
    var c := Ctx(LocalStatementKind, Some(s), None);
    NodeOk(node.init[i], Some(c), st);
    var io := CompileNode(node.init[i], Some(c), st);
    if io.Ok? {
      IdentifierOk(node.names[i], Some(c), io.st);
      var vo := CompileIdentifier(node.names[i], Some(c), io.st);
      if vo.Ok? && io.value.Some? {
        StoreOk(vo.st, s, node.names[i], BindingOf(io.value.value.register));
        var so := Store(vo.st, s, node.names[i], BindingOf(io.value.value.register));
        if so.Some? {
          Emit3Ok(so.value, SCOPESET, Reg(s.register), ConstOf(vo.value.constant), RegOf(io.value.value.register));
        }
      }
    }
  }

  /**
   * A whole chunk compiles to a state that satisfies the invariant and
   * extends the initial one: NEWSCOPE [1] stays the first instruction.
   */
  lemma ChunkOk(body: seq<Node>)
    ensures var o := CompileChunk(body);
      && (o.Ok? ==> Inv(o.st) && Extends(Initial(), o.st))
      && (o.Ok? ==> o.st.ir[0] == Instr(NEWSCOPE, [Reg(1)]))
  {
    InitialInv();
    NodesOk(body, 0, None, Initial());
  }
}
