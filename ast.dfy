/**
 * The part of the luaparse syntax tree the compiler looks at.  Node kinds
 * the compiler has no rule for are `Other(kind)`; a `MemberExpression` is
 * kept because it may be an assignment target.  Where luaparse always puts an
 * Identifier node (the names of a `local` statement, the identifier of a
 * member expression, the key of a `TableKeyString` field) the model keeps
 * just the name.
 */
module Ast {

  datatype Node =
    | Identifier(name: string)
    | NumericLiteral(num: int)
    | StringLiteral(text: string)
    | BooleanLiteral(flag: bool)
    | NilLiteral
    | BinaryExpression(operator: string, left: Node, right: Node)
    | CallExpression(base: Node, arguments: seq<Node>)
    | StringCallExpression(base: Node, argument: Node)
    | CallStatement(expression: Node)
    | TableConstructorExpression(fields: seq<Field>)
    | MemberExpression(base: Node, identifier: string)
    | AssignmentStatement(variables: seq<Node>, init: seq<Node>)
    | LocalStatement(names: seq<string>, init: seq<Node>)
    | IfStatement(clauses: seq<Clause>)
    | WhileStatement(condition: Node, body: seq<Node>)
    | BreakStatement
    | Other(kind: string)

  datatype Field =
    | TableKeyString(keyName: string, value: Node)
    | TableKey(key: Node, value: Node)
    | TableValue(value: Node)

  datatype Clause =
    | IfClause(condition: Node, body: seq<Node>)
    | ElseifClause(condition: Node, body: seq<Node>)
    | ElseClause(body: seq<Node>)

  /** The node's `type` string. */
  function NodeType(node: Node): string {
    match node
    case Identifier(_) => "Identifier"
    case NumericLiteral(_) => "NumericLiteral"
    case StringLiteral(_) => "StringLiteral"
    case BooleanLiteral(_) => "BooleanLiteral"
    case NilLiteral => "NilLiteral"
    case BinaryExpression(_, _, _) => "BinaryExpression"
    case CallExpression(_, _) => "CallExpression"
    case StringCallExpression(_, _) => "StringCallExpression"
    case CallStatement(_) => "CallStatement"
    case TableConstructorExpression(_) => "TableConstructorExpression"
    case MemberExpression(_, _) => "MemberExpression"
    case AssignmentStatement(_, _) => "AssignmentStatement"
    case LocalStatement(_, _) => "LocalStatement"
    case IfStatement(_) => "IfStatement"
    case WhileStatement(_, _) => "WhileStatement"
    case BreakStatement => "BreakStatement"
    case Other(kind) => kind
  }

  predicate IsLiteral(node: Node) {
    node.NumericLiteral? || node.StringLiteral? || node.BooleanLiteral? || node.NilLiteral?
  }
}
