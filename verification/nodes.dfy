/** The abstract syntax tree the parser builds and the SQL generator reads.
    Every node is an immutable value owned by its parent; the closed variant
    types replace the source's dataclasses and `isinstance` dispatch. */
module Nodes {
  import opened Wrappers

  /** A field's domain: exactly one of a symbolic name or an inclusive integer
      range. The range always has its first and last bound; the middle bound
      written `[first, second .. last]` is optional. */
  datatype Domain =
    | DomainRef(name: string)
    | RangeDef(first: int, second: Option<int>, last: int)

  /** The two field modifiers; a field written without one carries `None`. */
  datatype FieldModifier = KeyMember | Nullable

  datatype FieldDef = FieldDef(
    name: string,
    domain: Domain,
    isKey: bool,
    isNullable: bool,
    isUnique: bool)

  /** `record Name { field; ... }`: one table declaration, fields in order. */
  datatype RecordDef = RecordDef(name: string, fields: seq<FieldDef>)

  /** The six comparison nodes share one left/right shape. */
  datatype ComparisonOp = Less | LessEqual | Greater | GreaterEqual | NotEqual | Equal

  /** Expression nodes. The literal variants come first: `true`, `false` and
      `null` carry nothing, an int, float or string literal exactly one value.
      A float literal carries the text Python's `str` gives its value. */
  datatype Expr =
    | FloatPrimitive(text: string)
    | IntPrimitive(number: int)
    | StringPrimitive(text: string)
    | TruePrimitive
    | FalsePrimitive
    | NullPrimitive
    | Ref(name: string)
    | Call(callee: Expr, args: seq<Param>)
    | AttrAccess(target: Expr, attr: string)
    | FieldAccess(target: Expr, field: string)
    | Addition(left: Expr, right: Expr)
    | Subtraction(left: Expr, right: Expr)
    | Multiplication(left: Expr, right: Expr)
    | Division(left: Expr, right: Expr)
    | ArithmeticNegation(operand: Expr)
    | Conjunction(left: Expr, right: Expr)
    | Disjunction(left: Expr, right: Expr)
    | LogicalNegation(operand: Expr)
    | InExpr(subject: Expr, container: Expr)
    | NotInExpr(subject: Expr, container: Expr)
    | IsExpr(left: Expr, right: Expr)
    | IsNotExpr(left: Expr, right: Expr)
    | Comparison(op: ComparisonOp, left: Expr, right: Expr)
  {
    /** The literal variants, the only values the generator can serialize. */
    predicate IsLiteral() {
      FloatPrimitive? || IntPrimitive? || StringPrimitive? || TruePrimitive? || FalsePrimitive? || NullPrimitive?
    }
  }

  /** A parameter of a create instance or a call: a bare expression, or a
      column name paired with a value. */
  datatype Param =
    | Positional(value: Expr)
    | KeywordParam(name: string, value: Expr)

  /** `Name(params)`: one row to insert. */
  datatype CreateInstance = CreateInstance(name: string, params: seq<Param>)

  /** `create instance, ...;`: one batch of rows, in order. */
  datatype CreateStmt = CreateStmt(instances: seq<CreateInstance>)

  /** Any node the generator may be handed as its root. */
  datatype Ast =
    | RecordDefNode(record: RecordDef)
    | CreateStmtNode(stmt: CreateStmt)
    | FieldDefNode(field: FieldDef)
    | DomainNode(domain: Domain)
    | CreateInstanceNode(instance: CreateInstance)
    | ParamNode(param: Param)
    | ExprNode(expr: Expr)
}
