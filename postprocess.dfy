/**
 * src/postprocess.js: a pass over the syntax tree that the compiler does not
 * call.  `processAssignmentStatement` splits a multiple assignment into one
 * statement per target; the exported function deep-copies the tree and walks
 * the copy without changing it.
 */
module Postprocess {
  import opened Ast

  /**
   * The statements `processAssignmentStatement` builds.  Both constructors
   * (src/postprocess.js:1-15) keep their first argument as `init` and their
   * second as `variable`.
   */
  datatype Split =
    | AssignmentStatement(init: Node, variable: Node)
    | TableAssignmentStatement(init: Node, variable: Node)

  /** `value.init[idx] ? value.init[idx] : createNilLiteral()`: a node is an object, so only a missing one is falsy. */
  function ValueAt(init: seq<Node>, idx: nat): (v: Node)
    ensures idx >= |init| ==> NodeType(v) == "NilLiteral"
  {
    if idx < |init| then init[idx] else NilLiteral
  }

  /**
   * `variable.type === "IndexExpression"`: an IndexExpression has no rule
   * in the compiler, so in this syntax tree it is an `Other` node.
   */
  predicate IsIndexExpression(n: Node) {
    n.Other? && n.kind == "IndexExpression"
  }

  /** No node kind the compiler knows has the `type` "IndexExpression". */
  lemma IndexExpressionIffType(n: Node)
    ensures IsIndexExpression(n) <==> NodeType(n) == "IndexExpression"
  {
    if !n.Other? {
      assert |NodeType(n)| != |"IndexExpression"|;
    }
  }

  /**
   * `processAssignmentStatement`: for each target in order, a
   * TableAssignmentStatement when the target is an IndexExpression and an
   * AssignmentStatement otherwise.  The call sites pass the target first, so
   * the target ends up in `init` and the assigned value in `variable`.
   */
  method ProcessAssignmentStatement(variables: seq<Node>, init: seq<Node>) returns (newStatements: seq<Split>)
    ensures |newStatements| == |variables|
    ensures forall i :: 0 <= i < |variables| ==>
      (newStatements[i].TableAssignmentStatement? <==> IsIndexExpression(variables[i]))
    ensures forall i :: 0 <= i < |variables| ==> newStatements[i].init == variables[i]
    ensures forall i :: 0 <= i < |variables| ==> newStatements[i].variable == ValueAt(init, i)
  {
    newStatements := [];
    var idx := 0;
    while idx < |variables|
      invariant idx <= |variables| && |newStatements| == idx
      invariant forall i :: 0 <= i < idx ==>
        (newStatements[i].TableAssignmentStatement? <==> IsIndexExpression(variables[i]))
      invariant forall i :: 0 <= i < idx ==> newStatements[i].init == variables[i]
      invariant forall i :: 0 <= i < idx ==> newStatements[i].variable == ValueAt(init, i)
    {
      var variable := variables[idx];
      var assignmentValue := ValueAt(init, idx);
      if IsIndexExpression(variable) {
        newStatements := newStatements + [TableAssignmentStatement(variable, assignmentValue)];
      } else {
        newStatements := newStatements + [Split.AssignmentStatement(variable, assignmentValue)];
      }
      idx := idx + 1;
    }
  }

  /**
   * `structuredClone`: a copy of the tree built node by node.  Walking the
   * copy with `traverse` only reads it, so it is not modelled separately.
   */
  function CloneNode(n: Node): Node
    decreases n, 1
  {
    match n
    case BinaryExpression(op, l, r) => BinaryExpression(op, CloneNode(l), CloneNode(r))
    case CallExpression(b, args) => CallExpression(CloneNode(b), CloneNodes(args))
    case StringCallExpression(b, a) => StringCallExpression(CloneNode(b), CloneNode(a))
    case CallStatement(e) => CallStatement(CloneNode(e))
    case TableConstructorExpression(fields) => TableConstructorExpression(CloneFields(fields))
    case MemberExpression(b, id) => MemberExpression(CloneNode(b), id)
    case AssignmentStatement(vs, ins) => Node.AssignmentStatement(CloneNodes(vs), CloneNodes(ins))
    case LocalStatement(names, ins) => LocalStatement(names, CloneNodes(ins))
    case IfStatement(clauses) => IfStatement(CloneClauses(clauses))
    case WhileStatement(c, body) => WhileStatement(CloneNode(c), CloneNodes(body))
    case _ => n
  }

  function CloneNodes(ns: seq<Node>): seq<Node>
    decreases ns, 0
  {
    if |ns| == 0 then [] else [CloneNode(ns[0])] + CloneNodes(ns[1..])
  }

  function CloneField(f: Field): Field
    decreases f, 1
  {
    match f
    case TableKeyString(k, v) => TableKeyString(k, CloneNode(v))
    case TableKey(k, v) => TableKey(CloneNode(k), CloneNode(v))
    case TableValue(v) => TableValue(CloneNode(v))
  }

  function CloneFields(fs: seq<Field>): seq<Field>
    decreases fs, 0
  {
    if |fs| == 0 then [] else [CloneField(fs[0])] + CloneFields(fs[1..])
  }

  function CloneClause(c: Clause): Clause
    decreases c, 1
  {
    match c
    case IfClause(cond, body) => IfClause(CloneNode(cond), CloneNodes(body))
    case ElseifClause(cond, body) => ElseifClause(CloneNode(cond), CloneNodes(body))
    case ElseClause(body) => ElseClause(CloneNodes(body))
  }

  function CloneClauses(cs: seq<Clause>): seq<Clause>
    decreases cs, 0
  {
    if |cs| == 0 then [] else [CloneClause(cs[0])] + CloneClauses(cs[1..])
  }

  /** The copy is structurally equal to the tree it was made from. */
  lemma {:induction false} CloneNodeIsCopy(n: Node)
    ensures CloneNode(n) == n
    decreases n, 1
  {
    match n
    case BinaryExpression(_, l, r) => CloneNodeIsCopy(l); CloneNodeIsCopy(r);
    case CallExpression(b, args) => CloneNodeIsCopy(b); CloneNodesIsCopy(args);
    case StringCallExpression(b, a) => CloneNodeIsCopy(b); CloneNodeIsCopy(a);
    case CallStatement(e) => CloneNodeIsCopy(e);
    case TableConstructorExpression(fields) => CloneFieldsIsCopy(fields);
    case MemberExpression(b, _) => CloneNodeIsCopy(b);
    case AssignmentStatement(vs, ins) => CloneNodesIsCopy(vs); CloneNodesIsCopy(ins);
    case LocalStatement(_, ins) => CloneNodesIsCopy(ins);
    case IfStatement(clauses) => CloneClausesIsCopy(clauses);
    case WhileStatement(c, body) => CloneNodeIsCopy(c); CloneNodesIsCopy(body);
    case _ =>
  }

  lemma {:induction false} CloneNodesIsCopy(ns: seq<Node>)
    ensures CloneNodes(ns) == ns
    decreases ns, 0
  {
    if |ns| > 0 {
      CloneNodeIsCopy(ns[0]);
      CloneNodesIsCopy(ns[1..]);
      assert ns == [ns[0]] + ns[1..];
    }
  }

  lemma {:induction false} CloneFieldIsCopy(f: Field)
    ensures CloneField(f) == f
    decreases f, 1
  {
    match f
    case TableKeyString(_, v) => CloneNodeIsCopy(v);
    case TableKey(k, v) => CloneNodeIsCopy(k); CloneNodeIsCopy(v);
    case TableValue(v) => CloneNodeIsCopy(v);
  }

  lemma {:induction false} CloneFieldsIsCopy(fs: seq<Field>)
    ensures CloneFields(fs) == fs
    decreases fs, 0
  {
    if |fs| > 0 {
      CloneFieldIsCopy(fs[0]);
      CloneFieldsIsCopy(fs[1..]);
      assert fs == [fs[0]] + fs[1..];
    }
  }

  lemma {:induction false} CloneClauseIsCopy(c: Clause)
    ensures CloneClause(c) == c
    decreases c, 1
  {
    match c
    case IfClause(cond, body) => CloneNodeIsCopy(cond); CloneNodesIsCopy(body);
    case ElseifClause(cond, body) => CloneNodeIsCopy(cond); CloneNodesIsCopy(body);
    case ElseClause(body) => CloneNodesIsCopy(body);
  }

  lemma {:induction false} CloneClausesIsCopy(cs: seq<Clause>)
    ensures CloneClauses(cs) == cs
    decreases cs, 0
  {
    if |cs| > 0 {
      CloneClauseIsCopy(cs[0]);
      CloneClausesIsCopy(cs[1..]);
      assert cs == [cs[0]] + cs[1..];
    }
  }

  /**
   * The exported function: a deep copy of the tree, walked without change,
   * is returned; it equals the input, and the input (a value) is untouched.
   */
  function PostprocessTree(ast: Node): (tree: Node)
    ensures tree == ast
  {
    CloneNodeIsCopy(ast);
    CloneNode(ast)
  }
}
