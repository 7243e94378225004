/**
 * The lowering rules of src/index.js (`compileNode` and every `compile*`
 * function, `getTableFromMemberExpression` and `treverseTree`) as functions
 * that thread the compile state explicitly.
 *
 * The `parent` argument of the source is a `Ctx`: the parent node's type, the
 * scope it was given (`node.scope`) and its break label (`node.breakLabel`).
 * A JavaScript exception (reading a property of undefined or null, the
 * temporal dead zone, `set` on the undefined `top` of the root scope) ends
 * the compilation: it is the outcome `Fail`, and the partial state is
 * dropped.  `Ok(None, _)` is a rule that returns undefined.
 */
module Lowering {
  import opened Wrappers
  import opened Values
  import opened Scopes
  import opened Bytecode
  import opened CompileState
  import opened Ast

  /** The exceptions the compiler can raise. */
  datatype Failure =
    | ReadOfUndefined   // `x.register` and the like on a rule that returned undefined
    | ReadOfNull        // `parent.type` or `parent.breakLabel` with a null parent
    | RootSet           // `this.top.set` on the root scope, whose `top` is undefined
    | TemporalDeadZone  // the reference to `variable` before its declaration

  datatype Outcome<T> = Ok(value: T, st: State) | Fail(error: Failure)

  /**
   * The `type` of a parent object: the node types whose rules pass their own
   * node as the parent, and the empty type of the synthetic parent.
   */
  datatype ParentKind =
    | CallStatementKind | CallExpressionKind | StringCallExpressionKind | BinaryExpressionKind
    | TableConstructorKind | WhileStatementKind | IfStatementKind | AssignmentStatementKind
    | LocalStatementKind | MemberExpressionKind | Untyped

  /** The `type` string each parent kind stands for. */
  function KindName(k: ParentKind): string {
    match k
    case CallStatementKind => "CallStatement"
    case CallExpressionKind => "CallExpression"
    case StringCallExpressionKind => "StringCallExpression"
    case BinaryExpressionKind => "BinaryExpression"
    case TableConstructorKind => "TableConstructorExpression"
    case WhileStatementKind => "WhileStatement"
    case IfStatementKind => "IfStatement"
    case AssignmentStatementKind => "AssignmentStatement"
    case LocalStatementKind => "LocalStatement"
    case MemberExpressionKind => "MemberExpression"
    case Untyped => ""
  }

  /** The `parent` object a rule is given. */
  datatype Ctx = Ctx(kind: ParentKind, scope: Option<ScopeRef>, breakLabel: Option<nat>)

  /** The kind of a call node passed as the parent of its callee and arguments. */
  function CallKind(node: Node): ParentKind {
    if node.CallExpression? then CallExpressionKind else StringCallExpressionKind
  }

  /** The `{ type: "" }` parent a member expression's base is compiled with. */
  const Synthetic := Ctx(Untyped, None, None)

  /** The parent's scope when it has one other than the main scope, else the main scope. */
  function NodeScope(parent: Option<Ctx>): ScopeRef {
    if parent.Some? && parent.value.scope.Some? && parent.value.scope.value.id != 0 then parent.value.scope.value
    else MainScope
  }

  /** Parent types under which an identifier yields only its constant. */
  predicate KeyOnly(kind: ParentKind) {
    kind == AssignmentStatementKind || kind == TableConstructorKind || kind == MemberExpressionKind || kind == LocalStatementKind
  }

  /** The opcode of each of the seven operators with a lowering. */
  function BinaryOpcode(operator: string): Option<Opcode> {
    if operator == "+" then Some(ADD)
    else if operator == "-" then Some(SUB)
    else if operator == "/" then Some(DIV)
    else if operator == "*" then Some(MUL)
    else if operator == "^" then Some(POW)
    else if operator == "%" then Some(MOD)
    else if operator == "==" then Some(EQ)
    else None
  }

  /** `node.value` of a non-nil literal. */
  function LiteralOf(node: Node): Value
    requires node.NumericLiteral? || node.StringLiteral? || node.BooleanLiteral?
  {
    match node
    case NumericLiteral(n) => Num(n)
    case StringLiteral(s) => Str(s)
    case BooleanLiteral(b) => Bool(b)
  }

  function Lift(o: Outcome<Res>): Outcome<Option<Res>> {
    match o
    case Ok(v, st) => Ok(Some(v), st)
    case Fail(e) => Fail(e)
  }

  function Discard(o: Outcome<()>): Outcome<Option<Res>> {
    match o
    case Ok(_, st) => Ok(None, st)
    case Fail(e) => Fail(e)
  }

  /** `compileIdentifier` (src/index.js:199-215). */
  function CompileIdentifier(name: string, parent: Option<Ctx>, st: State): Outcome<Res> {
    var (k, st1) := Intern(st, Str(name));
    if parent.None? then Fail(ReadOfNull)
    else if KeyOnly(parent.value.kind) then Ok(Res(NoType, None, Some(k), None), st1)
    else
      var (r, st2) := Alloc(st1);
      var s := parent.value.scope;
      if s.Some? && Truthy(Lookup(st2, s.value, name)) then
        Ok(Res(Variable, Some(r), Some(k), None), Emit(st2, SCOPEGET, [Reg(s.value.register), Const(k), Reg(r)]))
      else
        Ok(Res(Variable, Some(r), Some(k), None), Emit(st2, GETVAR, [Const(k), Reg(r)]))
  }

  /** `compileLiteral` (src/index.js:358-369). */
  function CompileLiteral(node: Node, st: State): (Res, State)
    requires IsLiteral(node)
  {
    var (r, st1) := Alloc(st);
    if node.NilLiteral? then
      (Res(LiteralValue, Some(r), None, None), Emit(st1, SETNIL, [Reg(r)]))
    else
      var (k, st2) := Intern(st1, LiteralOf(node));
      (Res(LiteralValue, Some(r), None, None), Emit(st2, LOAD, [Const(k), Reg(r)]))
  }

  /** `compileBreakStatement` (src/index.js:217-219). */
  function CompileBreak(parent: Option<Ctx>, st: State): Outcome<()> {
    if parent.None? then Fail(ReadOfNull)
    else
      var target := if parent.value.breakLabel.Some? then Label(parent.value.breakLabel.value) else Undef;
      Ok((), Emit(st, JUMP, [target]))
  }

  /**
   * `compileNode` (src/index.js:127-161): the node's scope is the parent's
   * unless that is the main scope; a while or if statement first gets a new
   * scope of its own.
   */
  function CompileNode(node: Node, parent: Option<Ctx>, st: State): Outcome<Option<Res>>
    decreases node, 3, 0
  {
    var s := NodeScope(parent);
    match node
    case Identifier(name) => Lift(CompileIdentifier(name, parent, st))
    case NumericLiteral(_) => var (r, st1) := CompileLiteral(node, st); Ok(Some(r), st1)
    case StringLiteral(_) => var (r, st1) := CompileLiteral(node, st); Ok(Some(r), st1)
    case BooleanLiteral(_) => var (r, st1) := CompileLiteral(node, st); Ok(Some(r), st1)
    case NilLiteral => var (r, st1) := CompileLiteral(node, st); Ok(Some(r), st1)
    case CallStatement(e) => CompileNode(e, Some(Ctx(CallStatementKind, Some(s), None)), st)
    case CallExpression(_, _) => Lift(CompileCall(node, s, st))
    case StringCallExpression(_, _) => Lift(CompileCall(node, s, st))
    case WhileStatement(_, _) =>
      var (ws, st1) := CreateScope(st, s);
      Discard(CompileWhile(node, ws, st1))
    case BreakStatement => Discard(CompileBreak(parent, st))
    case BinaryExpression(_, _, _) => Lift(CompileBinary(node, s, st))
    case IfStatement(_) =>
      var (ifScope, st1) := CreateScope(st, s);
      Discard(CompileIf(node, ifScope, parent, st1))
    case TableConstructorExpression(_) => Lift(CompileTable(node, s, st))
    case AssignmentStatement(_, _) => Discard(AssignFrom(node, 0, s, st))
    case LocalStatement(_, _) => Discard(LocalFrom(node, 0, s, st))
    case MemberExpression(_, _) => Ok(None, st)
    case Other(_) => Ok(None, st)
  }

  /** `compileNodes` over `nodes[i..]`: the nodes in order, stopping at the first exception. */
  function NodesFrom(nodes: seq<Node>, i: nat, parent: Option<Ctx>, st: State): Outcome<()>
    requires i <= |nodes|
    decreases nodes, 0, |nodes| - i
  {
    if i == |nodes| then Ok((), st)
    else
      match CompileNode(nodes[i], parent, st)
      case Fail(e) => Fail(e)
      case Ok(_, st1) => NodesFrom(nodes, i + 1, parent, st1)
  }

  /** `compileBinaryExpression` (src/index.js:225-251). */
  function CompileBinary(node: Node, s: ScopeRef, st: State): Outcome<Res>
    requires node.BinaryExpression?
    decreases node, 2, 0
  {
    var c := Ctx(BinaryExpressionKind, Some(s), None);
    match CompileNode(node.left, Some(c), st)
    case Fail(e) => Fail(e)
    case Ok(l, st1) =>
      match CompileNode(node.right, Some(c), st1)
      case Fail(e) => Fail(e)
      case Ok(r, st2) =>
        var (ret, st3) := Alloc(st2);
        var res := Res(BinaryExpr, Some(ret), None, None);
        match BinaryOpcode(node.operator)
        case None => Ok(res, st3)
        case Some(op) =>
          if l.None? || r.None? then Fail(ReadOfUndefined)
          else Ok(res, Emit(st3, op, [RegOf(l.value.register), RegOf(r.value.register), Reg(ret)]))
  }

  /** `compileTableExpression` (src/index.js:167-197). */
  function CompileTable(node: Node, s: ScopeRef, st: State): Outcome<Res>
    requires node.TableConstructorExpression?
    decreases node, 2, 0
  {
    var (t, st1) := Alloc(st);
    var st2 := Emit(st1, NEWTABLE, [Reg(t)]);
    match FieldsFrom(node, 0, t, Ctx(TableConstructorKind, Some(s), None), st2)
    case Fail(e) => Fail(e)
    case Ok(_, st3) => Ok(Res(TableConstructor, Some(t), None, None), st3)
  }

  /** The `forEach` over `node.fields[i..]`. */
  function FieldsFrom(node: Node, i: nat, t: nat, c: Ctx, st: State): Outcome<()>
    requires node.TableConstructorExpression? && i <= |node.fields|
    decreases node, 1, |node.fields| - i
  {
    if i == |node.fields| then Ok((), st)
    else
      match FieldStep(node, i, t, c, st)
      case Fail(e) => Fail(e)
      case Ok(_, st1) => FieldsFrom(node, i + 1, t, c, st1)
  }

  /**
   * One field of a table constructor: `name = value` gives
   * `SETTABLEK [t, name, value]`, `[key] = value` gives
   * `SETTABLE [t, key, value]` and a positional value `PUSHTABLE [t, value]`.
   */
  function FieldStep(node: Node, i: nat, t: nat, c: Ctx, st: State): Outcome<()>
    requires node.TableConstructorExpression? && i < |node.fields|
    decreases node, 0, 0
  {
    match node.fields[i]
    case TableKeyString(keyName, value) =>
      (match CompileIdentifier(keyName, Some(c), st)
       case Fail(e) => Fail(e)
       case Ok(key, st1) =>
         match CompileNode(value, Some(c), st1)
         case Fail(e) => Fail(e)
         case Ok(v, st2) =>
           if v.None? then Fail(ReadOfUndefined)
           else Ok((), Emit(st2, SETTABLEK, [Reg(t), ConstOf(key.constant), RegOf(v.value.register)])))
    case TableKey(key, value) =>
      (match CompileNode(key, Some(c), st)
       case Fail(e) => Fail(e)
       case Ok(k, st1) =>
         match CompileNode(value, Some(c), st1)
         case Fail(e) => Fail(e)
         case Ok(v, st2) =>
           if k.None? || v.None? then Fail(ReadOfUndefined)
           else Ok((), Emit(st2, SETTABLE, [Reg(t), RegOf(k.value.register), RegOf(v.value.register)])))
    case TableValue(value) =>
      (match CompileNode(value, Some(c), st)
       case Fail(e) => Fail(e)
       case Ok(v, st1) =>
         if v.None? then Fail(ReadOfUndefined)
         else Ok((), Emit(st1, PUSHTABLE, [Reg(t), RegOf(v.value.register)])))
  }

  /**
   * `compileCallExpression` (src/index.js:337-352): the callee, then the
   * result register, then the arguments, then one CALL.
   */
  function CompileCall(node: Node, s: ScopeRef, st: State): Outcome<Res>
    requires node.CallExpression? || node.StringCallExpression?
    decreases node, 2, 1
  {
    var c := Ctx(CallKind(node), Some(s), None);
    match CompileNode(node.base, Some(c), st)
    case Fail(e) => Fail(e)
    case Ok(f, st1) =>
      if f.None? then Fail(ReadOfUndefined)
      else
        var (ret, st2) := Alloc(st1);
        match CallArgs(node, c, st2)
        case Fail(e) => Fail(e)
        case Ok(args, st3) =>
          Ok(Res(CallResult, Some(ret), None, None), Emit(st3, CALL, [RegOf(f.value.register), Args(args), Reg(ret)]))
  }

  /** The argument array: one register per argument, or the whole result of a string-call argument. */
  function CallArgs(node: Node, c: Ctx, st: State): Outcome<seq<Operand>>
    requires node.CallExpression? || node.StringCallExpression?
    decreases node, 2, 0
  {
    if node.CallExpression? then ArgsFrom(node, 0, c, [], st)
    else
      match CompileNode(node.argument, Some(c), st)
      case Fail(e) => Fail(e)
      case Ok(a, st1) => Ok([if a.Some? then Junk(a.value) else Undef], st1)
  }

  /** The `forEach` over `node.arguments[i..]`, appending to `acc`. */
  function ArgsFrom(node: Node, i: nat, c: Ctx, acc: seq<Operand>, st: State): Outcome<seq<Operand>>
    requires node.CallExpression? && i <= |node.arguments|
    decreases node, 1, |node.arguments| - i
  {
    if i == |node.arguments| then Ok(acc, st)
    else
      match CompileNode(node.arguments[i], Some(c), st)
      case Fail(e) => Fail(e)
      case Ok(a, st1) =>
        if a.None? then Fail(ReadOfUndefined)
        else ArgsFrom(node, i + 1, c, acc + [RegOf(a.value.register)], st1)
  }

  /**
   * `compileWhileStatement` (src/index.js:301-309), given the loop's new
   * scope: the condition once, the loop and break labels, the body, then
   * JUMPIF on the condition's register and the break label rebound to it.
   */
  function CompileWhile(node: Node, ws: ScopeRef, st: State): Outcome<()>
    requires node.WhileStatement?
    decreases node, 2, 0
  {
    match CompileNode(node.condition, Some(Ctx(WhileStatementKind, Some(ws), None)), st)
    case Fail(e) => Fail(e)
    case Ok(cond, st1) =>
      var (whileLabel, st2) := NewLabel(st1);
      var (breakLabel, st3) := NewLabel(st2);
      match NodesFrom(node.body, 0, Some(Ctx(WhileStatementKind, Some(ws), Some(breakLabel))), st3)
      case Fail(e) => Fail(e)
      case Ok(_, st4) =>
        if cond.None? then Fail(ReadOfUndefined)
        else
          var st5 := Emit(st4, JUMPIF, [RegOf(cond.value.register), Label(whileLabel)]);
          Ok((), UpdateLabel(st5, breakLabel))
  }

  /** The context the clauses of an if statement are compiled in: its scope and the parent's break label. */
  function IfCtx(ifScope: ScopeRef, parent: Option<Ctx>): Ctx {
    Ctx(IfStatementKind, Some(ifScope), if parent.Some? then parent.value.breakLabel else None)
  }

  /**
   * `compileIfStatement` (src/index.js:253-299), given the statement's new
   * scope: the end label, the tests of pass 1, `JUMP [end]`, the bodies of
   * pass 2, and the end label rebound to the last instruction.
   */
  function CompileIf(node: Node, ifScope: ScopeRef, parent: Option<Ctx>, st: State): Outcome<()>
    requires node.IfStatement?
    decreases node, 2, 0
  {
    var (end, st1) := NewLabel(st);
    var c := IfCtx(ifScope, parent);
    match TestsFrom(node, 0, c, [], st1)
    case Fail(e) => Fail(e)
    case Ok(ids, st2) =>
      var st3 := Emit(st2, JUMP, [Label(end)]);
      match BodiesFrom(node, 0, c, ids, end, st3)
      case Fail(e) => Fail(e)
      case Ok(_, st4) => Ok((), UpdateLabel(st4, end))
  }

  /**
   * Pass 1 over `node.clauses[i..]`: a label and a test for each IfClause, a
   * label and an unconditional jump for an ElseClause, nothing for an
   * ElseifClause.  The result is the list of labels created, in order.
   */
  function TestsFrom(node: Node, i: nat, c: Ctx, ids: seq<nat>, st: State): Outcome<seq<nat>>
    requires node.IfStatement? && i <= |node.clauses|
    decreases node, 1, |node.clauses| - i
  {
    if i == |node.clauses| then Ok(ids, st)
    else
      match TestStep(node, i, c, st)
      case Fail(e) => Fail(e)
      case Ok(l, st1) => TestsFrom(node, i + 1, c, if l.Some? then ids + [l.value] else ids, st1)
  }

  /** Pass 1 on clause i: the label it creates, if any, and its test or jump. */
  function TestStep(node: Node, i: nat, c: Ctx, st: State): Outcome<Option<nat>>
    requires node.IfStatement? && i < |node.clauses|
    decreases node, 0, 0
  {
    match node.clauses[i]
    case IfClause(condition, _) =>
      var (l, st1) := NewLabel(st);
      (match CompileNode(condition, Some(c), st1)
       case Fail(e) => Fail(e)
       case Ok(cond, st2) =>
         if cond.None? then Fail(ReadOfUndefined)
         else Ok(Some(l), Emit(st2, JUMPIF, [RegOf(cond.value.register), Label(l)])))
    case ElseClause(_) =>
      var (l, st1) := NewLabel(st);
      Ok(Some(l), Emit(st1, JUMP, [Label(l)]))
    case ElseifClause(_, _) => Ok(None, st)
  }

  /**
   * Pass 2 over `node.clauses[i..]`: for each IfClause or ElseClause, the
   * label at the clause's own position in the list (when there is one) is
   * rebound, then the body follows; an IfClause body ends with `JUMP [end]`.
   * An ElseifClause is skipped.
   */
  function BodiesFrom(node: Node, i: nat, c: Ctx, ids: seq<nat>, end: nat, st: State): Outcome<()>
    requires node.IfStatement? && i <= |node.clauses|
    decreases node, 1, |node.clauses| - i
  {
    if i == |node.clauses| then Ok((), st)
    else
      match BodyStep(node, i, c, ids, end, st)
      case Fail(e) => Fail(e)
      case Ok(_, st1) => BodiesFrom(node, i + 1, c, ids, end, st1)
  }

  /** Pass 2 on clause i. */
  function BodyStep(node: Node, i: nat, c: Ctx, ids: seq<nat>, end: nat, st: State): Outcome<()>
    requires node.IfStatement? && i < |node.clauses|
    decreases node, 0, 0
  {
    if node.clauses[i].ElseifClause? then Ok((), st)
    else
      var st1 := if i < |ids| then UpdateLabel(st, ids[i]) else st;
      match NodesFrom(node.clauses[i].body, 0, Some(c), st1)
      case Fail(e) => Fail(e)
      case Ok(_, st2) =>
        if node.clauses[i].IfClause? then Ok((), Emit(st2, JUMP, [Label(end)])) else Ok((), st2)
  }

  /**
   * `getTableFromMemberExpression` (src/index.js:100-125): the table register
   * and the key constant of an assignment target `base.identifier`.
   */
  function GetTable(member: Node, c: Ctx, st: State): Outcome<Res>
    requires member.MemberExpression?
    decreases member, 1, 0
  {
    var (table, st1) := Alloc(st);
    match TableBase(member, c, st1)
    case Fail(e) => Fail(e)
    case Ok(b, st2) => MemberKey(member.base.MemberExpression?, member.identifier, c, table, b, st2)
  }

  /**
   * The base of a member expression: a nested member expression through
   * `getTableFromMemberExpression`, anything else through `compileNode` with
   * the synthetic parent.
   */
  function TableBase(member: Node, c: Ctx, st: State): Outcome<Option<Res>>
    requires member.MemberExpression?
    decreases member, 0, 0
  {
    if member.base.MemberExpression? then Lift(GetTable(member.base, c, st))
    else CompileNode(member.base, Some(Synthetic), st)
  }

  /**
   * The end of `getTableFromMemberExpression` once the base is compiled:
   * the identifier is compiled with the member expression's parent, and a
   * base without a value cannot be read.
   */
  function MemberKey(chained: bool, name: string, c: Ctx, table: nat, b: Option<Res>, st: State): Outcome<Res> {
    match CompileIdentifier(name, Some(c), st)
    case Fail(e) => Fail(e)
    case Ok(iden, st1) =>
      if b.None? then Fail(ReadOfUndefined)
      else
        var (r, st2) := LinkTable(chained, table, b.value, iden, st1);
        Ok(r, st2)
  }

  /**
   * `sharedRegister` for a base value: its own shared register when that is
   * truthy, else its register when it is a variable, else none.
   */
  function SharedRegister(b: Res): Option<nat> {
    if b.shared.Some? && b.shared.value != 0 then b.shared
    else if b.kind == Variable then b.register
    else None
  }

  /**
   * The end of `getTableFromMemberExpression` once the base and the
   * identifier are compiled: a base that is itself a member expression is
   * fetched into the table register with GETTABLE from the shared register.
   */
  function LinkTable(chained: bool, table: nat, b: Res, iden: Res, st: State): (Res, State) {
    var shared := SharedRegister(b);
    if chained then
      (Res(NoType, Some(table), iden.constant, Some(table)), Emit(st, GETTABLE, [RegOf(shared), ConstOf(b.constant), Reg(table)]))
    else
      (Res(NoType, b.register, iden.constant, shared), st)
  }

  /** `compileAssignmentStatement` (src/index.js:372-395): the `forEach` over `node.variables[i..]`. */
  function AssignFrom(node: Node, i: nat, s: ScopeRef, st: State): Outcome<()>
    requires node.AssignmentStatement? && i <= |node.variables|
    decreases node, 1, |node.variables| - i
  {
    if i == |node.variables| then Ok((), st)
    else if i >= |node.init| then AssignFrom(node, i + 1, s, st)
    else
      match AssignStep(node, i, s, st)
      case Fail(e) => Fail(e)
      case Ok(_, st1) => AssignFrom(node, i + 1, s, st1)
  }

  /**
   * One target with an initialiser: the initialiser, then SETTABLEK for a
   * member target; otherwise the temporal-dead-zone error when the
   * initialiser is an identifier the scope binds truthily, else the target's
   * constant and SETVAR.
   */
  function AssignStep(node: Node, i: nat, s: ScopeRef, st: State): Outcome<()>
    requires node.AssignmentStatement? && i < |node.variables| && i < |node.init|
    decreases node, 0, 1
  {
    var c := Ctx(AssignmentStatementKind, Some(s), None);
    var value := node.init[i];
    match CompileNode(value, Some(c), st)
    case Fail(e) => Fail(e)
    case Ok(init, st1) =>
      if node.variables[i].MemberExpression? then AssignMember(node.variables[i], c, init, st1)
      else if value.Identifier? && Truthy(Lookup(st1, s, value.name)) then Fail(TemporalDeadZone)
      else
        match CompileNode(node.variables[i], Some(c), st1)
        case Fail(e) => Fail(e)
        case Ok(v, st2) =>
          if init.None? || v.None? then Fail(ReadOfUndefined)
          else Ok((), Emit(st2, SETVAR, [RegOf(init.value.register), ConstOf(v.value.constant)]))
  }

  /** A member target: the table and key from `getTableFromMemberExpression`, then SETTABLEK. */
  function AssignMember(target: Node, c: Ctx, init: Option<Res>, st: State): Outcome<()>
    requires target.MemberExpression?
    decreases target, 2, 0
  {
    match GetTable(target, c, st)
    case Fail(e) => Fail(e)
    case Ok(tv, st1) =>
      if init.None? then Fail(ReadOfUndefined)
      else Ok((), Emit(st1, SETTABLEK, [RegOf(tv.register), ConstOf(tv.constant), RegOf(init.value.register)]))
  }

  /** `compileLocalStatement` (src/index.js:397-409): the `forEach` over `node.names[i..]`. */
  function LocalFrom(node: Node, i: nat, s: ScopeRef, st: State): Outcome<()>
    requires node.LocalStatement? && i <= |node.names|
    decreases node, 1, |node.names| - i
  {
    if i == |node.names| then Ok((), st)
    else if i >= |node.init| then LocalFrom(node, i + 1, s, st)
    else
      match LocalStep(node, i, s, st)
      case Fail(e) => Fail(e)
      case Ok(_, st1) => LocalFrom(node, i + 1, s, st1)
  }

  /** The scope entry `set` stores for a local: the initialiser's register, or undefined. */
  function BindingOf(r: Option<nat>): Binding {
    if r.Some? then RegisterId(r.value) else Undefined
  }

  /** One declared name with an initialiser: the initialiser, the name's constant, `scope.set`, then SCOPESET. */
  function LocalStep(node: Node, i: nat, s: ScopeRef, st: State): Outcome<()>
    requires node.LocalStatement? && i < |node.names| && i < |node.init|
    decreases node, 0, 0
  {
    var c := Ctx(LocalStatementKind, Some(s), None);
    match CompileNode(node.init[i], Some(c), st)
    case Fail(e) => Fail(e)
    case Ok(init, st1) =>
      match CompileIdentifier(node.names[i], Some(c), st1)
      case Fail(e) => Fail(e)
      case Ok(v, st2) =>
        if init.None? then Fail(ReadOfUndefined)
        else
          match Store(st2, s, node.names[i], BindingOf(init.value.register))
          case None => Fail(RootSet)
          case Some(st3) => Ok((), Emit(st3, SCOPESET, [Reg(s.register), ConstOf(v.constant), RegOf(init.value.register)]))
  }

  /** `treverseTree` (src/index.js:461-465): every top-level statement with a null parent, from the initial state. */
  function CompileChunk(body: seq<Node>): Outcome<()> {
    NodesFrom(body, 0, None, Initial())
  }
}
