/**
 * What each lowering rule emits: exact instructions, operand order, fresh
 * registers and final label bindings.
 */
module LoweringLemmas {
  import opened Wrappers
  import opened Values
  import opened Scopes
  import opened Bytecode
  import opened CompileState
  import opened Ast
  import opened Lowering
  import opened LoweringInvariant

  /**
   * Under an assignment, table constructor, member expression or local
   * statement parent an identifier yields only the constant of its name;
   * under any other parent it takes one fresh register and emits exactly one
   * instruction, SCOPEGET when the parent's scope chain binds the name
   * truthily and GETVAR otherwise.
   */
  lemma {:induction false} IdentifierShape(name: string, c: Ctx, st: State)
    requires Inv(st) && CtxOk(c, st)
    ensures var o := CompileIdentifier(name, Some(c), st);
      var (k, st1) := Intern(st, Str(name));
      && o.Ok? && o.value.constant == Some(k) && o.st.constants == st1.constants
      && (KeyOnly(c.kind) <==> o.value.register.None?)
      && (KeyOnly(c.kind) ==> o.value.kind == NoType && o.st == st1)
      && (!KeyOnly(c.kind) ==>
            var r := st.registers + 1;
            var bound := c.scope.Some? && Truthy(Get(st.scopes, c.scope.value.id, name));
            && o.value == Res(Variable, Some(r), Some(k), None) && o.st.registers == r
            && o.st.ir == st.ir + [if bound then Instr(SCOPEGET, [Reg(c.scope.value.register), Const(k), Reg(r)])
                                   else Instr(GETVAR, [Const(k), Reg(r)])])
  {
  }

  /** An identifier read with a null parent (a top-level expression) throws. */
  lemma {:induction false} IdentifierNullParent(name: string, st: State)
    ensures CompileNode(Identifier(name), None, st) == Fail(ReadOfNull)
  {
  }

  /** A literal takes one fresh register: SETNIL for nil, else LOAD of the interned value. */
  lemma {:induction false} LiteralShape(node: Node, parent: Option<Ctx>, st: State)
    requires IsLiteral(node) && Inv(st) && ParentOk(parent, st)
    ensures var o := CompileNode(node, parent, st);
      var r := st.registers + 1;
      && o.Ok? && o.value == Some(Res(LiteralValue, Some(r), None, None)) && o.st.registers == r
      && (node.NilLiteral? ==> o.st.ir == st.ir + [Instr(SETNIL, [Reg(r)])] && o.st.constants == st.constants)
      && (!node.NilLiteral? ==>
            var k := Intern(st, LiteralOf(node)).0;
            && o.st.ir == st.ir + [Instr(LOAD, [Const(k), Reg(r)])]
            && o.st.constants == Intern(st, LiteralOf(node)).1.constants
            && LooseEq(o.st.constants[k], LiteralOf(node)))
  {
    if !node.NilLiteral? {
      InternFindsFirst(st.(registers := st.registers + 1), LiteralOf(node));
    }
  }

  /**
   * A binary expression compiles its left operand, then its right one, then
   * allocates the result register.  A known operator then emits one
   * instruction `[left.register, right.register, result]` and throws when
   * either side returned undefined; an unknown operator emits nothing.
   */
  lemma {:induction false} BinaryShape(node: Node, s: ScopeRef, st: State)
    requires node.BinaryExpression? && Inv(st) && ScopeRefOk(s, st)
    ensures var c := Some(Ctx(BinaryExpressionKind, Some(s), None));
      var l := CompileNode(node.left, c, st);
      l.Ok? ==>
      var r := CompileNode(node.right, c, l.st);
      r.Ok? ==>
      && st.ir <= l.st.ir <= r.st.ir
      && BinaryEnd(node, s, st, l.value, r.value, r.st)
  {
    var c := Some(Ctx(BinaryExpressionKind, Some(s), None));
    NodeOk(node.left, c, st);
    var l := CompileNode(node.left, c, st);
    if l.Ok? {
      NodeOk(node.right, c, l.st);
      var r := CompileNode(node.right, c, l.st);
      if r.Ok? {
        BinaryEndShape(node, s, st, l.value, l.st, r.value, r.st);
      }
    }
  }

  /**
   * What a binary expression returns once its operands `l` and `r` are
   * compiled, ending in state `st2`.
   */
  ghost predicate BinaryEnd(node: Node, s: ScopeRef, st: State, l: Option<Res>, r: Option<Res>, st2: State)
    requires node.BinaryExpression?
  {
    var o := CompileBinary(node, s, st);
    var ret := st2.registers + 1;
    && (BinaryOpcode(node.operator).None? ==>
          o == Ok(Res(BinaryExpr, Some(ret), None, None), st2.(registers := ret)))
    && (BinaryOpcode(node.operator).Some? ==>
          && (o.Ok? <==> l.Some? && r.Some?)
          && (o.Fail? ==> o.error == ReadOfUndefined)
          && (o.Ok? ==>
                && o.value == Res(BinaryExpr, Some(ret), None, None) && o.st.registers == ret
                && o.st.ir == st2.ir + [Instr(BinaryOpcode(node.operator).value,
                                              [RegOf(l.value.register), RegOf(r.value.register), Reg(ret)])]))
  }

  lemma BinaryEndShape(node: Node, s: ScopeRef, st: State, l: Option<Res>, st1: State, r: Option<Res>, st2: State)
    requires node.BinaryExpression?
    requires CompileNode(node.left, Some(Ctx(BinaryExpressionKind, Some(s), None)), st) == Ok(l, st1)
    requires CompileNode(node.right, Some(Ctx(BinaryExpressionKind, Some(s), None)), st1) == Ok(r, st2)
    ensures BinaryEnd(node, s, st, l, r, st2)
  {
  }

  /** Exactly the seven arithmetic and equality operators have a lowering. */
  lemma {:induction false} KnownOperators(operator: string)
    ensures BinaryOpcode(operator).Some? <==> operator in {"+", "-", "/", "*", "^", "%", "=="}
    ensures BinaryOpcode(operator).Some? ==> BinaryOpcode(operator).value in {ADD, SUB, DIV, MUL, POW, MOD, EQ}
  {
  }

  /**
   * A call compiles its function first, then takes the result register,
   * then its arguments; it ends with one `CALL [function, arguments, result]`.
   * An undefined function expression throws before anything else happens.
   */
  lemma {:induction false} CallShape(node: Node, s: ScopeRef, st: State)
    requires (node.CallExpression? || node.StringCallExpression?) && Inv(st) && ScopeRefOk(s, st)
    ensures var c := Ctx(CallKind(node), Some(s), None);
      var f := CompileNode(node.base, Some(c), st);
      var o := CompileCall(node, s, st);
      && (f.Fail? ==> o == Fail(f.error))
      && (f.Ok? && f.value.None? ==> o == Fail(ReadOfUndefined))
      && (f.Ok? && f.value.Some? ==>
            var ret := f.st.registers + 1;
            var a := CallArgs(node, c, f.st.(registers := ret));
            && st.registers < ret
            && (a.Fail? ==> o == Fail(a.error))
            && (a.Ok? ==>
                  && o.Ok? && o.value == Res(CallResult, Some(ret), None, None) && ret <= o.st.registers
                  && o.st.ir == a.st.ir + [Instr(CALL, [RegOf(f.value.value.register), Args(a.value), Reg(ret)])]))
  {
    var c := Ctx(CallKind(node), Some(s), None);
    NodeOk(node.base, Some(c), st);
    var f := CompileNode(node.base, Some(c), st);
    if f.Ok? && f.value.Some? {
      AllocOk(f.st);
      CallArgsOk(node, c, Alloc(f.st).1);
    }
  }

  /** The arguments of a call expression yield one operand each, in order. */
  lemma {:induction false} ArgsCount(node: Node, i: nat, c: Ctx, acc: seq<Operand>, st: State)
    requires node.CallExpression? && i <= |node.arguments|
    ensures var o := ArgsFrom(node, i, c, acc, st);
      o.Ok? ==> |o.value| == |acc| + |node.arguments| - i && o.value[..|acc|] == acc
    decreases |node.arguments| - i
  {
    if i < |node.arguments| {
      var ao := CompileNode(node.arguments[i], Some(c), st);
      if ao.Ok? && ao.value.Some? {
        var acc1 := acc + [RegOf(ao.value.value.register)];
        ArgsCount(node, i + 1, c, acc1, ao.st);
        var o := ArgsFrom(node, i + 1, c, acc1, ao.st);
        if o.Ok? {
          assert o.value[..|acc|] == o.value[..|acc1|][..|acc|];
          assert acc1[..|acc|] == acc;
        }
      }
    }
  }

  /** The argument loop over arguments i up to (not including) k. */
  function ArgsUpTo(node: Node, i: nat, k: nat, c: Ctx, acc: seq<Operand>, st: State): Outcome<seq<Operand>>
    requires node.CallExpression? && i <= k <= |node.arguments|
    decreases k - i
  {
    if i == k then Ok(acc, st)
    else
      match CompileNode(node.arguments[i], Some(c), st)
      case Fail(e) => Fail(e)
      case Ok(a, st1) =>
        if a.None? then Fail(ReadOfUndefined)
        else ArgsUpTo(node, i + 1, k, c, acc + [RegOf(a.value.register)], st1)
  }

  /** The argument loop is the arguments before k followed by those from k on. */
  lemma {:induction false} ArgsSplit(node: Node, i: nat, k: nat, c: Ctx, acc: seq<Operand>, st: State)
    requires node.CallExpression? && i <= k <= |node.arguments|
    ensures var p := ArgsUpTo(node, i, k, c, acc, st);
      ArgsFrom(node, i, c, acc, st) == if p.Fail? then Fail(p.error) else ArgsFrom(node, k, c, p.value, p.st)
    decreases k - i
  {
    if i < k {
      var a := CompileNode(node.arguments[i], Some(c), st);
      if a.Ok? && a.value.Some? {
        ArgsSplit(node, i + 1, k, c, acc + [RegOf(a.value.value.register)], a.st);
      }
    }
  }

  /** The arguments before k + 1 are those before k, then argument k's register. */
  lemma {:induction false} ArgsUpToNext(node: Node, i: nat, k: nat, c: Ctx, acc: seq<Operand>, st: State)
    requires node.CallExpression? && i <= k < |node.arguments|
    ensures var p := ArgsUpTo(node, i, k, c, acc, st);
      ArgsUpTo(node, i, k + 1, c, acc, st) ==
        if p.Fail? then Fail(p.error)
        else
          var a := CompileNode(node.arguments[k], Some(c), p.st);
          if a.Fail? then Fail(a.error)
          else if a.value.None? then Fail(ReadOfUndefined)
          else Ok(p.value + [RegOf(a.value.value.register)], a.st)
    decreases k - i
  {
    if i < k {
      var a := CompileNode(node.arguments[i], Some(c), st);
      if a.Ok? && a.value.Some? {
        ArgsUpToNext(node, i + 1, k, c, acc + [RegOf(a.value.value.register)], a.st);
      }
    }
  }

  /** The arguments before k add one operand each. */
  lemma {:induction false} ArgsUpToLength(node: Node, i: nat, k: nat, c: Ctx, acc: seq<Operand>, st: State)
    requires node.CallExpression? && i <= k <= |node.arguments|
    ensures var p := ArgsUpTo(node, i, k, c, acc, st);
      p.Ok? ==> |p.value| == |acc| + k - i
    decreases k - i
  {
    if i < k {
      var a := CompileNode(node.arguments[i], Some(c), st);
      if a.Ok? && a.value.Some? {
        ArgsUpToLength(node, i + 1, k, c, acc + [RegOf(a.value.value.register)], a.st);
      }
    }
  }

  /**
   * Operand j of the argument array `ops` of a call whose argument loop
   * starts in `st`: the register of argument j, compiled in the state the
   * arguments before it leave.
   */
  ghost predicate ArgLands(node: Node, j: nat, c: Ctx, st: State, ops: seq<Operand>)
    requires node.CallExpression? && j < |node.arguments|
  {
    var p := ArgsUpTo(node, 0, j, c, [], st);
    && p.Ok? && |p.value| == j
    && var a := CompileNode(node.arguments[j], Some(c), p.st);
    && a.Ok? && a.value.Some? && j < |ops| && ops[j] == RegOf(a.value.value.register)
  }

  lemma ArgLand(node: Node, j: nat, c: Ctx, st: State)
    requires node.CallExpression? && j < |node.arguments|
    ensures var o := ArgsFrom(node, 0, c, [], st);
      o.Ok? ==> ArgLands(node, j, c, st, o.value)
  {
    ArgsSplit(node, 0, j + 1, c, [], st);
    ArgsUpToNext(node, 0, j, c, [], st);
    ArgsUpToLength(node, 0, j, c, [], st);
    var q := ArgsUpTo(node, 0, j + 1, c, [], st);
    var o := ArgsFrom(node, 0, c, [], st);
    if o.Ok? {
      ArgsCount(node, j + 1, c, q.value, q.st);
      assert o.value[j] == o.value[..|q.value|][j];
    }
  }

  /**
   * The argument array of `f(a0, …, an)` (src/index.js:339-350): one operand
   * per argument, and operand j is the register argument j compiled to.
   */
  lemma ArgsOperands(node: Node, c: Ctx, st: State)
    requires node.CallExpression?
    ensures var o := ArgsFrom(node, 0, c, [], st);
      o.Ok? ==> |o.value| == |node.arguments| && forall j :: 0 <= j < |node.arguments| ==> ArgLands(node, j, c, st, o.value)
  {
    ArgsCount(node, 0, c, [], st);
    forall j | 0 <= j < |node.arguments| ensures ArgsFrom(node, 0, c, [], st).Ok? ==> ArgLands(node, j, c, st, ArgsFrom(node, 0, c, [], st).value) {
      ArgLand(node, j, c, st);
    }
  }

  /**
   * A table constructor takes one fresh register, emits `NEWTABLE` on it
   * first and returns it; the fields only append after that.
   */
  lemma {:induction false} TableShape(node: Node, s: ScopeRef, st: State)
    requires node.TableConstructorExpression? && Inv(st) && ScopeRefOk(s, st)
    ensures var o := CompileTable(node, s, st);
      var t := st.registers + 1;
      o.Ok? ==>
      && o.value == Res(TableConstructor, Some(t), None, None) && t <= o.st.registers
      && st.ir + [Instr(NEWTABLE, [Reg(t)])] <= o.st.ir
  {
    AllocOk(st);
    var (t, st1) := Alloc(st);
    Emit1Ok(st1, NEWTABLE, Reg(t));
    var st2 := Emit(st1, NEWTABLE, [Reg(t)]);
    FieldsOk(node, 0, t, Ctx(TableConstructorKind, Some(s), None), st2);
  }

  /**
   * A value-producing rule returns a register allocated during the rule:
   * above every register that existed before it and not above the final
   * counter.
   */
  lemma {:induction false} ResultRegisterIsFresh(node: Node, parent: Option<Ctx>, st: State)
    requires Inv(st) && ParentOk(parent, st)
    requires IsLiteral(node) || node.BinaryExpression? || node.CallExpression? || node.StringCallExpression?
             || node.TableConstructorExpression? || (node.Identifier? && parent.Some? && !KeyOnly(parent.value.kind))
    ensures var o := CompileNode(node, parent, st);
      o.Ok? ==> o.value.Some? && o.value.value.register.Some?
                && st.registers < o.value.value.register.value <= o.st.registers
  {
    var s := NodeScope(parent);
    NodeScopeOk(parent, st);
    if IsLiteral(node) {
      LiteralShape(node, parent, st);
    } else if node.BinaryExpression? {
      BinaryFresh(node, s, st);
    } else if node.CallExpression? || node.StringCallExpression? {
      CallShape(node, s, st);
    } else if node.TableConstructorExpression? {
      TableShape(node, s, st);
    } else {
      IdentifierShape(node.name, parent.value, st);
    }
  }

  lemma BinaryFresh(node: Node, s: ScopeRef, st: State)
    requires node.BinaryExpression? && Inv(st) && ScopeRefOk(s, st)
    ensures var o := CompileBinary(node, s, st);
      o.Ok? ==> o.value.register.Some? && st.registers < o.value.register.value <= o.st.registers
  {
    var c := Some(Ctx(BinaryExpressionKind, Some(s), None));
    BinaryShape(node, s, st);
    BinaryOk(node, s, st);
    var l := CompileNode(node.left, c, st);
    if l.Ok? {
      NodeOk(node.left, c, st);
      NodeOk(node.right, c, l.st);
    }
  }

  /**
   * `break` emits a single `JUMP` to the parent's break label, or to
   * undefined when the parent has none; with a null parent it throws.
   */
  lemma {:induction false} BreakShape(parent: Option<Ctx>, st: State)
    ensures var o := CompileNode(BreakStatement, parent, st);
      && (parent.None? <==> o == Fail(ReadOfNull))
      && (parent.Some? ==>
            var target := if parent.value.breakLabel.Some? then Label(parent.value.breakLabel.value) else Undef;
            o == Ok(None, st.(ir := st.ir + [Instr(JUMP, [target])])))
  {
  }

  /** A rule without a lowering returns undefined and leaves the state as it was. */
  lemma {:induction false} UnhandledEmitsNothing(node: Node, parent: Option<Ctx>, st: State)
    requires node.Other? || node.MemberExpression?
    ensures CompileNode(node, parent, st) == Ok(None, st)
  {
  }

  /** A while statement is compiled in a new scope whose parent is the node's scope. */
  lemma {:induction false} WhileDispatch(node: Node, parent: Option<Ctx>, st: State)
    requires node.WhileStatement? && Inv(st) && ParentOk(parent, st)
    ensures ScopeRefOk(NodeScope(parent), st)
    ensures var (ws, st0) := CreateScope(st, NodeScope(parent));
      && st0.ir == st.ir + [Instr(NEWSCOPE, [Reg(ws.register), Reg(NodeScope(parent).register)])]
      && CompileNode(node, parent, st) == Discard(CompileWhile(node, ws, st0))
  {
    NodeScopeOk(parent, st);
  }

  /**
   * The body of a while statement: the condition's code (once, before the
   * body), the loop label and the break label, the body, then one `JUMPIF`
   * on the condition's register.  The loop label stays bound to the last
   * instruction of the condition and the break label ends bound to the
   * `JUMPIF`.
   */
  lemma {:induction false} WhileShape(node: Node, ws: ScopeRef, st: State)
    requires node.WhileStatement? && Inv(st) && ScopeRefOk(ws, st)
    ensures var o := CompileWhile(node, ws, st);
      var c := CompileNode(node.condition, Some(Ctx(WhileStatementKind, Some(ws), None)), st);
      && (c.Fail? ==> o == Fail(c.error))
      && (c.Ok? ==> st.ir <= c.st.ir && WhileEnd(node, ws, st, c.value, c.st))
  {
    var cc := Some(Ctx(WhileStatementKind, Some(ws), None));
    NodeOk(node.condition, cc, st);
    var c := CompileNode(node.condition, cc, st);
    if c.Ok? {
      WhileEndShape(node, ws, st, c.value, c.st);
    }
  }

  /**
   * What a while statement does once its condition is compiled into `cond`,
   * ending in `st1`: the two labels, the body, the `JUMPIF` and the final
   * label bindings.
   */
  ghost predicate WhileEnd(node: Node, ws: ScopeRef, st: State, cond: Option<Res>, st1: State)
    requires node.WhileStatement?
  {
    var o := CompileWhile(node, ws, st);
    var (whileLabel, st2) := NewLabel(st1);
    var (breakLabel, st3) := NewLabel(st2);
    var b := NodesFrom(node.body, 0, Some(Ctx(WhileStatementKind, Some(ws), Some(breakLabel))), st3);
    && st3.ir == st1.ir && breakLabel == whileLabel + 1
    && (b.Fail? ==> o == Fail(b.error))
    && (b.Ok? && cond.None? ==> o == Fail(ReadOfUndefined))
    && (b.Ok? && cond.Some? ==>
          && o.Ok? && |o.st.labels| == |b.st.labels| > breakLabel && st1.ir <= b.st.ir
          && o.st.ir == b.st.ir + [Instr(JUMPIF, [RegOf(cond.value.register), Label(whileLabel)])]
          && o.st.labels[whileLabel] == LabelCell(|st1.ir| - 1, 0)
          && o.st.labels[breakLabel] == LabelCell(|b.st.ir|, 0))
  }

  lemma WhileEndShape(node: Node, ws: ScopeRef, st: State, cond: Option<Res>, st1: State)
    requires node.WhileStatement?
    requires CompileNode(node.condition, Some(Ctx(WhileStatementKind, Some(ws), None)), st) == Ok(cond, st1)
    requires Inv(st1) && ScopeRefOk(ws, st1)
    ensures WhileEnd(node, ws, st, cond, st1)
  {
    NewLabelOk(st1);
    var (whileLabel, st2) := NewLabel(st1);
    NewLabelOk(st2);
    var (breakLabel, st3) := NewLabel(st2);
    var bc := Some(Ctx(WhileStatementKind, Some(ws), Some(breakLabel)));
    NodesOk(node.body, 0, bc, st3);
    var b := NodesFrom(node.body, 0, bc, st3);
    if b.Ok? && cond.Some? {
      var st5 := Emit(b.st, JUMPIF, [RegOf(cond.value.register), Label(whileLabel)]);
      assert CompileWhile(node, ws, st) == Ok((), UpdateLabel(st5, breakLabel));
      assert b.st.labels[whileLabel] == st3.labels[whileLabel];
    }
  }

  /**
   * `while cond do break end`: the break jumps to the loop's break label,
   * which resolves to the index of the loop's `JUMPIF`.
   */
  lemma {:induction false} BreakLeavesLoop(cond: Node, ws: ScopeRef, st: State)
    requires Inv(st) && ScopeRefOk(ws, st)
    ensures var o := CompileWhile(WhileStatement(cond, [BreakStatement]), ws, st);
      o.Ok? ==>
      && |o.st.ir| >= 2 && |o.st.labels| >= 1
      && o.st.ir[|o.st.ir| - 2] == Instr(JUMP, [Label(|o.st.labels| - 1)])
      && o.st.ir[|o.st.ir| - 1].op == JUMPIF
      && Resolve(o.st, |o.st.labels| - 1) == |o.st.ir| - 1
  {
    var node := WhileStatement(cond, [BreakStatement]);
    WhileShape(node, ws, st);
    var c := CompileNode(cond, Some(Ctx(WhileStatementKind, Some(ws), None)), st);
    if c.Ok? {
      var (whileLabel, st2) := NewLabel(c.st);
      var (breakLabel, st3) := NewLabel(st2);
      var bc := Some(Ctx(WhileStatementKind, Some(ws), Some(breakLabel)));
      SingleStatement(BreakStatement, bc, st3);
      BreakShape(bc, st3);
      var b := NodesFrom(node.body, 0, bc, st3);
      assert b == Ok((), st3.(ir := st3.ir + [Instr(JUMP, [Label(breakLabel)])]));
    }
  }

  /** A body of one statement compiles as that statement. */
  lemma {:induction false} SingleStatement(node: Node, parent: Option<Ctx>, st: State)
    ensures var o := CompileNode(node, parent, st);
      NodesFrom([node], 0, parent, st) == if o.Ok? then Ok((), o.st) else Fail(o.error)
  {
    var o := CompileNode(node, parent, st);
    if o.Ok? {
      assert NodesFrom([node], 1, parent, o.st) == Ok((), o.st);
    }
  }

  /** An if statement is compiled in a new scope whose parent is the node's scope. */
  lemma {:induction false} IfDispatch(node: Node, parent: Option<Ctx>, st: State)
    requires node.IfStatement? && Inv(st) && ParentOk(parent, st)
    ensures ScopeRefOk(NodeScope(parent), st)
    ensures var (ifScope, st0) := CreateScope(st, NodeScope(parent));
      && st0.ir == st.ir + [Instr(NEWSCOPE, [Reg(ifScope.register), Reg(NodeScope(parent).register)])]
      && CompileNode(node, parent, st) == Discard(CompileIf(node, ifScope, parent, st0))
  {
    NodeScopeOk(parent, st);
  }

  /**
   * `if cond then body end`: the end label and the clause label, the
   * condition, `JUMPIF [cond, clause]`, `JUMP [end]`, the body and
   * `JUMP [end]`.  The clause label ends bound to the first `JUMP [end]`, so
   * the body follows it, and the end label to the second.
   */
  lemma {:induction false} IfThenShape(cond: Node, body: seq<Node>, ifScope: ScopeRef, parent: Option<Ctx>, st: State)
    requires Inv(st) && ScopeRefOk(ifScope, st) && ParentOk(parent, st)
    ensures var o := CompileIf(IfStatement([IfClause(cond, body)]), ifScope, parent, st);
      var (end, st1) := NewLabel(st);
      var (clause, st2) := NewLabel(st1);
      var c := CompileNode(cond, Some(IfCtx(ifScope, parent)), st2);
      && clause == end + 1 && st2.ir == st.ir
      && (c.Fail? ==> o == Fail(c.error))
      && (c.Ok? && c.value.None? ==> o == Fail(ReadOfUndefined))
      && (c.Ok? && c.value.Some? ==> st.ir <= c.st.ir && IfThenEnd(cond, body, ifScope, parent, st, c.value.value, c.st))
  {
    var node := IfStatement([IfClause(cond, body)]);
    var cc := IfCtx(ifScope, parent);
    NewLabelOk(st);
    var (end, st1) := NewLabel(st);
    NewLabelOk(st1);
    var (clause, st2) := NewLabel(st1);
    SingleIfTests(node, cc, st1);
    NodeOk(cond, Some(cc), st2);
    var c := CompileNode(cond, Some(cc), st2);
    if c.Ok? && c.value.Some? {
      IfThenEndShape(cond, body, ifScope, parent, st, c.value.value, c.st);
    }
  }

  /**
   * What `if cond then body end` does once its condition is compiled into
   * `cv`, ending in `st3`: `JUMPIF [cond, clause]`, `JUMP [end]`, the body
   * and `JUMP [end]`; the clause label ends bound to the first `JUMP [end]`,
   * so the body follows it, and the end label to the second.
   */
  ghost predicate IfThenEnd(cond: Node, body: seq<Node>, ifScope: ScopeRef, parent: Option<Ctx>, st: State, cv: Res, st3: State) {
    var o := CompileIf(IfStatement([IfClause(cond, body)]), ifScope, parent, st);
    var end := |st.labels|;
    var clause := end + 1;
    var st4 := Emit(Emit(st3, JUMPIF, [RegOf(cv.register), Label(clause)]), JUMP, [Label(end)]);
    var b := NodesFrom(body, 0, Some(IfCtx(ifScope, parent)), UpdateLabel(st4, clause));
    && (b.Fail? ==> o == Fail(b.error))
    && (b.Ok? ==>
          && o.Ok? && |o.st.labels| == |b.st.labels| > clause && st4.ir <= b.st.ir
          && o.st.ir == b.st.ir + [Instr(JUMP, [Label(end)])]
          && o.st.labels[clause] == LabelCell(|st3.ir| + 1, 0)
          && o.st.labels[end] == LabelCell(|b.st.ir|, 0))
  }

  lemma IfThenEndShape(cond: Node, body: seq<Node>, ifScope: ScopeRef, parent: Option<Ctx>, st: State, cv: Res, st3: State)
    requires CompileNode(cond, Some(IfCtx(ifScope, parent)), NewLabel(NewLabel(st).1).1) == Ok(Some(cv), st3)
    requires Inv(st3) && ResValid(cv, st3) && |st.labels| + 2 <= |st3.labels|
    requires CtxOk(IfCtx(ifScope, parent), st3)
    ensures IfThenEnd(cond, body, ifScope, parent, st, cv, st3)
  {
    var node := IfStatement([IfClause(cond, body)]);
    var cc := IfCtx(ifScope, parent);
    var end := |st.labels|;
    var clause := end + 1;
    Emit2Ok(st3, JUMPIF, RegOf(cv.register), Label(clause));
    var st35 := Emit(st3, JUMPIF, [RegOf(cv.register), Label(clause)]);
    SingleIfTests(node, cc, NewLabel(st).1);
    Emit1Ok(st35, JUMP, Label(end));
    IfThenBodyShape(cond, body, ifScope, parent, st, cv, st3, Emit(st35, JUMP, [Label(end)]));
  }

  lemma IfThenBodyShape(cond: Node, body: seq<Node>, ifScope: ScopeRef, parent: Option<Ctx>, st: State, cv: Res, st3: State, st4: State)
    requires TestsFrom(IfStatement([IfClause(cond, body)]), 0, IfCtx(ifScope, parent), [], NewLabel(st).1)
      == Ok([|st.labels| + 1], Emit(st3, JUMPIF, [RegOf(cv.register), Label(|st.labels| + 1)]))
    requires st4 == Emit(Emit(st3, JUMPIF, [RegOf(cv.register), Label(|st.labels| + 1)]), JUMP, [Label(|st.labels|)])
    requires Inv(st4) && |st.labels| + 2 <= |st4.labels| && CtxOk(IfCtx(ifScope, parent), st4)
    ensures IfThenEnd(cond, body, ifScope, parent, st, cv, st3)
  {
    var node := IfStatement([IfClause(cond, body)]);
    var cc := IfCtx(ifScope, parent);
    var end := |st.labels|;
    var clause := end + 1;
    UpdateLabelOk(st4, clause);
    var st5 := UpdateLabel(st4, clause);
    NodesOk(body, 0, Some(cc), st5);
    SingleIfBodies(node, cc, [clause], end, st4);
    var b := NodesFrom(body, 0, Some(cc), st5);
    if b.Ok? {
      var st6 := Emit(b.st, JUMP, [Label(end)]);
      assert BodiesFrom(node, 0, cc, [clause], end, st4) == Ok((), st6);
      assert CompileIf(node, ifScope, parent, st) == Ok((), UpdateLabel(st6, end));
      assert b.st.labels[clause] == st5.labels[clause];
    }
  }

  /** Pass 1 over a single IfClause: its label, its condition and one JUMPIF. */
  lemma {:induction false} SingleIfTests(node: Node, c: Ctx, st: State)
    requires node.IfStatement? && |node.clauses| == 1 && node.clauses[0].IfClause?
    ensures var (l, st1) := NewLabel(st);
      var cv := CompileNode(node.clauses[0].condition, Some(c), st1);
      TestsFrom(node, 0, c, [], st) ==
        if cv.Fail? then Fail(cv.error)
        else if cv.value.None? then Fail(ReadOfUndefined)
        else Ok([l], Emit(cv.st, JUMPIF, [RegOf(cv.value.value.register), Label(l)]))
  {
    var (l, st1) := NewLabel(st);
    var cv := CompileNode(node.clauses[0].condition, Some(c), st1);
    if cv.Ok? && cv.value.Some? {
      var st2 := Emit(cv.st, JUMPIF, [RegOf(cv.value.value.register), Label(l)]);
      assert TestsFrom(node, 1, c, [l], st2) == Ok([l], st2);
      assert [] + [l] == [l];
    }
  }

  /** Pass 2 over a single IfClause: its label rebound, its body and `JUMP [end]`. */
  lemma {:induction false} SingleIfBodies(node: Node, c: Ctx, ids: seq<nat>, end: nat, st: State)
    requires node.IfStatement? && |node.clauses| == 1 && node.clauses[0].IfClause?
    requires |ids| == 1
    ensures var b := NodesFrom(node.clauses[0].body, 0, Some(c), UpdateLabel(st, ids[0]));
      BodiesFrom(node, 0, c, ids, end, st) ==
        if b.Fail? then Fail(b.error) else Ok((), Emit(b.st, JUMP, [Label(end)]))
  {
    var b := NodesFrom(node.clauses[0].body, 0, Some(c), UpdateLabel(st, ids[0]));
    if b.Ok? {
      var st2 := Emit(b.st, JUMP, [Label(end)]);
      assert BodiesFrom(node, 1, c, ids, end, st2) == Ok((), st2);
    }
  }

  /** Two clause lists that differ at most in the conditions and bodies of their ElseifClauses. */
  predicate SameUpToElseif(a: seq<Clause>, b: seq<Clause>) {
    |a| == |b| && forall j :: 0 <= j < |a| ==> a[j] == b[j] || (a[j].ElseifClause? && b[j].ElseifClause?)
  }

  lemma {:induction false} TestsIgnoreElseif(n1: Node, n2: Node, i: nat, c: Ctx, ids: seq<nat>, st: State)
    requires n1.IfStatement? && n2.IfStatement? && SameUpToElseif(n1.clauses, n2.clauses)
    requires i <= |n1.clauses|
    ensures TestsFrom(n1, i, c, ids, st) == TestsFrom(n2, i, c, ids, st)
    decreases |n1.clauses| - i
  {
    if i < |n1.clauses| {
      match n1.clauses[i]
      case IfClause(condition, _) =>
        var (l, st1) := NewLabel(st);
        var cv := CompileNode(condition, Some(c), st1);
        if cv.Ok? && cv.value.Some? {
          TestsIgnoreElseif(n1, n2, i + 1, c, ids + [l], Emit(cv.st, JUMPIF, [RegOf(cv.value.value.register), Label(l)]));
        }
      case ElseClause(_) =>
        var (l, st1) := NewLabel(st);
        TestsIgnoreElseif(n1, n2, i + 1, c, ids + [l], Emit(st1, JUMP, [Label(l)]));
      case ElseifClause(_, _) =>
        TestsIgnoreElseif(n1, n2, i + 1, c, ids, st);
    }
  }

  lemma {:induction false} BodiesIgnoreElseif(n1: Node, n2: Node, i: nat, c: Ctx, ids: seq<nat>, end: nat, st: State)
    requires n1.IfStatement? && n2.IfStatement? && SameUpToElseif(n1.clauses, n2.clauses)
    requires i <= |n1.clauses|
    ensures BodiesFrom(n1, i, c, ids, end, st) == BodiesFrom(n2, i, c, ids, end, st)
    decreases |n1.clauses| - i
  {
    if i < |n1.clauses| {
      var st1 := if i < |ids| then UpdateLabel(st, ids[i]) else st;
      match n1.clauses[i]
      case IfClause(_, body) =>
        var b := NodesFrom(body, 0, Some(c), st1);
        if b.Ok? {
          BodiesIgnoreElseif(n1, n2, i + 1, c, ids, end, Emit(b.st, JUMP, [Label(end)]));
        }
      case ElseClause(body) =>
        var b := NodesFrom(body, 0, Some(c), st1);
        if b.Ok? {
          BodiesIgnoreElseif(n1, n2, i + 1, c, ids, end, b.st);
        }
      case ElseifClause(_, _) =>
        BodiesIgnoreElseif(n1, n2, i + 1, c, ids, end, st);
    }
  }

  /**
   * ElseifClauses are never compiled: an if statement compiles exactly as it
   * would with any other conditions and bodies in its elseif branches.
   */
  lemma {:induction false} IfIgnoresElseif(n1: Node, n2: Node, parent: Option<Ctx>, st: State)
    requires n1.IfStatement? && n2.IfStatement? && SameUpToElseif(n1.clauses, n2.clauses)
    ensures CompileNode(n1, parent, st) == CompileNode(n2, parent, st)
  {
    var (ifScope, st0) := CreateScope(st, NodeScope(parent));
    var (end, st1) := NewLabel(st0);
    var c := IfCtx(ifScope, parent);
    TestsIgnoreElseif(n1, n2, 0, c, [], st1);
    var t := TestsFrom(n1, 0, c, [], st1);
    if t.Ok? {
      BodiesIgnoreElseif(n1, n2, 0, c, t.value, end, Emit(t.st, JUMP, [Label(end)]));
    }
  }

  /**
   * `if c1 ... elseif ... else ... end` with one or more ElseifClauses
   * between the IfClause and the ElseClause.
   */
  predicate ElseAfterElseifs(node: Node) {
    && node.IfStatement? && |node.clauses| >= 3
    && node.clauses[0].IfClause? && node.clauses[|node.clauses| - 1].ElseClause?
    && forall j :: 0 < j < |node.clauses| - 1 ==> node.clauses[j].ElseifClause?
  }

  /** Pass 1 passes over a run of ElseifClauses without doing anything. */
  lemma {:induction false} TestsSkipElseifs(node: Node, i: nat, k: nat, c: Ctx, ids: seq<nat>, st: State)
    requires node.IfStatement? && i <= k <= |node.clauses|
    requires forall j :: i <= j < k ==> node.clauses[j].ElseifClause?
    ensures TestsFrom(node, i, c, ids, st) == TestsFrom(node, k, c, ids, st)
    decreases k - i
  {
    if i < k {
      TestsSkipElseifs(node, i + 1, k, c, ids, st);
    }
  }

  /**
   * Pass 1 over `if c1 ... elseif ... else ...`: the if label, the first
   * condition and its JUMPIF, nothing for the elseifs, then the else label
   * and `JUMP [else]`.  The list of labels has two entries however many
   * elseifs there are.
   */
  lemma {:induction false} IfElseifElseTests(node: Node, c: Ctx, st: State)
    requires ElseAfterElseifs(node)
    ensures var (l1, st1) := NewLabel(st);
      var cv := CompileNode(node.clauses[0].condition, Some(c), st1);
      cv.Ok? && cv.value.Some? ==>
      var st2 := Emit(cv.st, JUMPIF, [RegOf(cv.value.value.register), Label(l1)]);
      var (l2, st3) := NewLabel(st2);
      TestsFrom(node, 0, c, [], st) == Ok([l1, l2], Emit(st3, JUMP, [Label(l2)]))
  {
    var n := |node.clauses|;
    var (l1, st1) := NewLabel(st);
    var cv := CompileNode(node.clauses[0].condition, Some(c), st1);
    if cv.Ok? && cv.value.Some? {
      var st2 := Emit(cv.st, JUMPIF, [RegOf(cv.value.value.register), Label(l1)]);
      var (l2, st3) := NewLabel(st2);
      var st4 := Emit(st3, JUMP, [Label(l2)]);
      assert [l1] + [l2] == [l1, l2];
      assert TestsFrom(node, n, c, [l1, l2], st4) == Ok([l1, l2], st4);
      assert TestsFrom(node, n - 1, c, [l1], st2) == Ok([l1, l2], st4);
      TestsSkipElseifs(node, 1, n - 1, c, [l1], st2);
      assert [] + [l1] == [l1];
    }
  }

  /**
   * After an if statement, every label that pass 1 created and pass 2 does
   * not rebind is still bound where pass 1 left it, and the code of pass 1 is
   * a prefix of the final code.
   */
  lemma {:induction false} IfKeepsUnreboundLabels(node: Node, ifScope: ScopeRef, parent: Option<Ctx>, st: State)
    requires node.IfStatement? && Inv(st) && ScopeRefOk(ifScope, st) && ParentOk(parent, st)
    ensures var o := CompileIf(node, ifScope, parent, st);
      var (end, st1) := NewLabel(st);
      var t := TestsFrom(node, 0, IfCtx(ifScope, parent), [], st1);
      o.Ok? ==>
      && t.Ok? && t.st.ir <= o.st.ir && |t.st.labels| <= |o.st.labels|
      && forall id :: end < id < |t.st.labels| && !Rebinds(node, 0, t.value, id) ==> o.st.labels[id] == t.st.labels[id]
  {
    NewLabelOk(st);
    var (end, st1) := NewLabel(st);
    var c := IfCtx(ifScope, parent);
    TestsOk(node, 0, c, [], st1);
    var t := TestsFrom(node, 0, c, [], st1);
    if t.Ok? {
      Emit1Ok(t.st, JUMP, Label(end));
      var st3 := Emit(t.st, JUMP, [Label(end)]);
      BodiesOk(node, 0, c, t.value, end, st3);
      var b := BodiesFrom(node, 0, c, t.value, end, st3);
      if b.Ok? {
        UpdateLabelOk(b.st, end);
        assert CompileIf(node, ifScope, parent, st) == Ok((), UpdateLabel(b.st, end));
      }
    }
  }

  /**
   * Label `l` resolves to a `JUMPIF` that is followed directly by
   * `JUMP [l]`: the jump lands on the instruction just before itself.
   */
  ghost predicate BoundBeforeJumpTo(st: State, l: nat) {
    && l < |st.labels|
    && 0 <= Resolve(st, l) < |st.ir| - 1
    && st.ir[Resolve(st, l)].op == JUMPIF
    && st.ir[Resolve(st, l) + 1] == Instr(JUMP, [Label(l)])
  }

  /**
   * In `if c1 ... elseif ... else ... end` the else label is the second
   * entry of the label list but the else clause comes after at least one
   * elseif, so pass 2 never rebinds it: it stays bound to the first
   * clause's JUMPIF, the instruction just before `JUMP [else]` itself.
   */
  lemma {:induction false} ElseAfterElseifIsNotRebound(node: Node, ifScope: ScopeRef, parent: Option<Ctx>, st: State)
    requires ElseAfterElseifs(node)
    requires Inv(st) && ScopeRefOk(ifScope, st) && ParentOk(parent, st)
    ensures var o := CompileIf(node, ifScope, parent, st);
      var (end, st1) := NewLabel(st);
      var (l1, st2) := NewLabel(st1);
      var cv := CompileNode(node.clauses[0].condition, Some(IfCtx(ifScope, parent)), st2);
      o.Ok? ==> cv.Ok? && BoundBeforeJumpTo(o.st, |cv.st.labels|)
  {
    var c := IfCtx(ifScope, parent);
    var (end, st1) := NewLabel(st);
    IfKeepsUnreboundLabels(node, ifScope, parent, st);
    ElseLabelAfterTests(node, c, st1);
    var o := CompileIf(node, ifScope, parent, st);
    if o.Ok? {
      var (l1, st2) := NewLabel(st1);
      var cv := CompileNode(node.clauses[0].condition, Some(c), st2);
      var t := TestsFrom(node, 0, c, [], st1);
      KeptLabel(t.st, o.st, |cv.st.labels|);
    }
  }

  /** Pass 1 of `if c1 ... elseif ... else ... end` binds the else label just before `JUMP [else]`. */
  lemma {:induction false} ElseLabelAfterTests(node: Node, c: Ctx, st: State)
    requires ElseAfterElseifs(node)
    requires Inv(st) && CtxOk(c, st) && |st.labels| >= 1
    ensures var (l1, st1) := NewLabel(st);
      var cv := CompileNode(node.clauses[0].condition, Some(c), st1);
      var t := TestsFrom(node, 0, c, [], st);
      t.Ok? ==>
      var l2 := if cv.Ok? then |cv.st.labels| else 0;
      && cv.Ok? && |st.labels| - 1 < l2 < |t.st.labels| && !Rebinds(node, 0, t.value, l2)
      && t.st.labels[l2].increment == 0 && BoundBeforeJumpTo(t.st, l2)
  {
    IfElseifElseTests(node, c, st);
    NewLabelOk(st);
    var (l1, st1) := NewLabel(st);
    NodeOk(node.clauses[0].condition, Some(c), st1);
    var cv := CompileNode(node.clauses[0].condition, Some(c), st1);
    var t := TestsFrom(node, 0, c, [], st);
    if !(cv.Ok? && cv.value.Some?) {
      assert TestStep(node, 0, c, st).Fail?;
    } else if t.Ok? {
      var st2 := Emit(cv.st, JUMPIF, [RegOf(cv.value.value.register), Label(l1)]);
      var (l2, st3) := NewLabel(st2);
      var st4 := Emit(st3, JUMP, [Label(l2)]);
      assert t == Ok([l1, l2], st4);
      SecondLabelNotRebound(node, [l1, l2]);
      assert st4.labels[l2] == LabelCell(|st2.ir| - 1, 0);
      assert st4.ir[|st2.ir| - 1] == Instr(JUMPIF, [RegOf(cv.value.value.register), Label(l1)]);
      assert st4.ir[|st2.ir|] == Instr(JUMP, [Label(l2)]);
    }
  }

  /** A label whose binding survives into a longer program still lands before the same jump. */
  lemma KeptLabel(t: State, o: State, l: nat)
    requires l < |t.labels| <= |o.labels| && t.ir <= o.ir && o.labels[l] == t.labels[l]
    requires BoundBeforeJumpTo(t, l)
    ensures BoundBeforeJumpTo(o, l)
  {
    var p := Resolve(t, l);
    assert o.ir[p] == t.ir[p] && o.ir[p + 1] == t.ir[p + 1];
  }

  lemma {:induction false} SecondLabelNotRebound(node: Node, ids: seq<nat>)
    requires ElseAfterElseifs(node) && |ids| == 2 && ids[0] != ids[1]
    ensures !Rebinds(node, 0, ids, ids[1])
  {
    assert node.clauses[1].ElseifClause?;
  }

  /**
   * `label.update()` followed by more code: compiling any statements after
   * the update leaves the label resolving to the instruction that was last
   * when it was updated, and a second update makes only the later position
   * count, whatever the first one was.
   */
  lemma {:induction false} LastUpdateWins(nodes: seq<Node>, parent: Option<Ctx>, st: State, id: nat)
    requires Inv(st) && ParentOk(parent, st) && id < |st.labels|
    ensures var st1 := UpdateLabel(st, id);
      var o := NodesFrom(nodes, 0, parent, st1);
      o.Ok? ==>
      && id < |o.st.labels| && Resolve(o.st, id) == |st.ir| - 1
      && Resolve(UpdateLabel(o.st, id), id) == |o.st.ir| - 1
  {
    UpdateLabelOk(st, id);
    var st1 := UpdateLabel(st, id);
    NodesOk(nodes, 0, parent, st1);
    var o := NodesFrom(nodes, 0, parent, st1);
    if o.Ok? {
      UpdateLabelOk(o.st, id);
    }
  }
}
