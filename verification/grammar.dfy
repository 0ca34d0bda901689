/** The parser's semantic actions: what each production builds once the
    parser has recognised it. The derivation the parser finds is given here as
    a syntax value (`FieldSyntax`, `ExprSyntax`, ...) and the `Build`
    functions apply the actions bottom-up; how the parser finds the derivation
    (table construction, precedence and associativity) is not modelled. */
module Grammar {
  import opened Wrappers
  import opened Nodes

  // ---------------------------------------------------------------------------
  // Fields

  /** `modifier : exclam | quest | empty` */
  datatype ModifierSyntax = Exclam | Quest | NoModifier

  /** `domain_spec : name | '[' int second_opt '..' int ']'`, where
      `second_opt : ',' int | empty`. */
  datatype DomainSyntax =
    | NamedDomain(name: string)
    | RangeSyntax(first: int, second: Option<int>, last: int)

  /** `field : name modifier unique_opt domain_spec` */
  datatype FieldSyntax = FieldSyntax(
    name: string,
    modifier: ModifierSyntax,
    uniqueKeyword: bool,
    domain: DomainSyntax)

  function ModifierAction(m: ModifierSyntax): Option<FieldModifier> {
    match m
    case Exclam => Some(KeyMember)
    case Quest => Some(Nullable)
    case NoModifier => None
  }

  function DomainAction(d: DomainSyntax): Domain {
    match d
    case NamedDomain(n) => DomainRef(n)
    case RangeSyntax(first, second, last) => RangeDef(first, second, last)
  }

  /** The field action: a field is a key iff its modifier is the key member,
      nullable iff it is nullable. One modifier is one choice, so the built
      field is never both. */
  function FieldAction(name: string, modifier: Option<FieldModifier>, unique: bool, domain: Domain): (f: FieldDef)
    ensures !(f.isKey && f.isNullable)
    ensures f.name == name && f.domain == domain && f.isUnique == unique
  {
    FieldDef(name, domain, modifier == Some(KeyMember), modifier == Some(Nullable), unique)
  }

  function BuildField(s: FieldSyntax): FieldDef {
    FieldAction(s.name, ModifierAction(s.modifier), s.uniqueKeyword, DomainAction(s.domain))
  }

  /** The field a parser would have had to see to build `f`; defined exactly
      for the fields that are not both key and nullable. */
  function FieldSyntaxOf(f: FieldDef): (s: FieldSyntax)
    requires !(f.isKey && f.isNullable)
  {
    var modifier := if f.isKey then Exclam else if f.isNullable then Quest else NoModifier;
    var domain := match f.domain
      case DomainRef(n) => NamedDomain(n)
      case RangeDef(first, second, last) => RangeSyntax(first, second, last);
    FieldSyntax(f.name, modifier, f.isUnique, domain)
  }

  /** The field action is a bijection between field syntax and the fields that
      are not both key and nullable: `!` gives exactly the key fields, `?`
      exactly the nullable ones, `unique` exactly the unique ones, and the
      domain and its bounds are kept as written. */
  lemma FieldRoundTrip(s: FieldSyntax, f: FieldDef)
    ensures FieldSyntaxOf(BuildField(s)) == s
    ensures !(f.isKey && f.isNullable) ==> BuildField(FieldSyntaxOf(f)) == f
  {
  }

  // ---------------------------------------------------------------------------
  // Left-recursive lists

  /** `list : list item`: the action appends the new item to the list built
      so far. */
  function Append<T>(list: seq<T>, item: T): seq<T> {
    list + [item]
  }

  /** The list a left-recursive rule has built after reducing `items` onto
      `acc`, one production at a time from left to right. */
  function Reduce<T>(acc: seq<T>, items: seq<T>): seq<T>
    decreases |items|
  {
    if |items| == 0 then acc else Reduce(Append(acc, items[0]), items[1..])
  }

  /** Reducing appends the items after the accumulated list, in source order. */
  lemma {:induction false} ReduceAppendsInOrder<T>(acc: seq<T>, items: seq<T>)
    ensures Reduce(acc, items) == acc + items
    decreases |items|
  {
    if |items| > 0 {
      ReduceAppendsInOrder(Append(acc, items[0]), items[1..]);
      assert acc + [items[0]] + items[1..] == acc + items;
    }
  }

  /** `field_list : field_list field ';' | empty` over the fields in source order. */
  function FieldList(fields: seq<FieldDef>): seq<FieldDef> {
    Reduce([], fields)
  }

  /** `prefix : item | prefix ',' item`, used for both instance and
      parameter lists, and `list : prefix | <nothing>`. */
  function CommaList<T>(items: seq<T>): seq<T> {
    if |items| == 0 then [] else Reduce([items[0]], items[1..])
  }

  /** The field, instance and parameter lists keep their items in source
      order, and an empty record body, `create ;` and `()` give empty lists. */
  lemma ListsKeepSourceOrder(fields: seq<FieldDef>, instances: seq<CreateInstance>, params: seq<Param>)
    ensures FieldList(fields) == fields
    ensures CommaList(instances) == instances
    ensures CommaList(params) == params
  {
    ReduceAppendsInOrder([], fields);
    if |instances| > 0 {
      ReduceAppendsInOrder([instances[0]], instances[1..]);
    }
    if |params| > 0 {
      ReduceAppendsInOrder([params[0]], params[1..]);
    }
  }

  /** `record_def : record name '{' field_list '}'` */
  function BuildRecord(name: string, fields: seq<FieldSyntax>): (r: RecordDef)
    ensures r.name == name && |r.fields| == |fields|
    ensures forall i :: 0 <= i < |fields| ==> r.fields[i] == BuildField(fields[i])
  {
    var built := seq(|fields|, i requires 0 <= i < |fields| => BuildField(fields[i]));
    ReduceAppendsInOrder([], built);
    RecordDef(name, FieldList(built))
  }

  // ---------------------------------------------------------------------------
  // Expressions

  /** The literal tokens: `primitive : float | int | string | true | false | null`. */
  datatype LiteralToken =
    | FloatToken(text: string)
    | IntToken(number: int)
    | StringToken(text: string)
    | TrueToken
    | FalseToken
    | NullToken

  /** The binary operator tokens, named after the lexer's token types. */
  datatype InfixToken =
    | PlusToken | MinusToken | StarToken | SlashToken
    | OrToken | AndToken
    | InToken | NotInToken | IsToken | IsNotToken
    | LessToken | LessEqualToken | GreaterToken | GreaterEqualToken | NotEqualToken | EqualEqualToken

  /** The prefix operator tokens: unary minus and `not`. */
  datatype PrefixToken = MinusPrefix | NotPrefix

  /** A derivation of `expr`. `Embraced` is `'(' expr ')'`. */
  datatype ExprSyntax =
    | Embraced(inner: ExprSyntax)
    | Literal(token: LiteralToken)
    | NameExpr(name: string)
    | CallExpr(callee: ExprSyntax, args: seq<ParamSyntax>)
    | DotAccess(target: ExprSyntax, attr: string)
    | ColonAccess(target: ExprSyntax, field: string)
    | Infix(op: InfixToken, left: ExprSyntax, right: ExprSyntax)
    | Prefix(prefix: PrefixToken, operand: ExprSyntax)

  /** `param : expr | name '=' expr` */
  datatype ParamSyntax =
    | PositionalArg(expr: ExprSyntax)
    | KeywordArg(name: string, expr: ExprSyntax)

  /** The six primitive productions: each builds the literal node of its own
      token, carrying the token's value. */
  function LiteralAction(t: LiteralToken): (r: Expr)
    ensures r.IsLiteral()
    ensures LiteralTokenOf(r) == Some(t)
  {
    match t
    case FloatToken(text) => FloatPrimitive(text)
    case IntToken(n) => IntPrimitive(n)
    case StringToken(text) => StringPrimitive(text)
    case TrueToken => TruePrimitive
    case FalseToken => FalsePrimitive
    case NullToken => NullPrimitive
  }

  /** Which literal token a node is built from, if any, with its payload. */
  function LiteralTokenOf(e: Expr): Option<LiteralToken> {
    match e
    case FloatPrimitive(text) => Some(FloatToken(text))
    case IntPrimitive(n) => Some(IntToken(n))
    case StringPrimitive(text) => Some(StringToken(text))
    case TruePrimitive => Some(TrueToken)
    case FalsePrimitive => Some(FalseToken)
    case NullPrimitive => Some(NullToken)
    case _ => None
  }

  /** Every literal node is built by exactly one primitive production, the
      one of its own token with its own payload, and no other node is built
      by a primitive production. */
  lemma LiteralActionComplete(e: Expr)
    ensures LiteralTokenOf(e).Some? <==> e.IsLiteral()
    ensures e.IsLiteral() ==> LiteralAction(LiteralTokenOf(e).value) == e
    ensures forall t :: LiteralAction(t) == e ==> LiteralTokenOf(e) == Some(t)
  {
  }

  /** The binary-operator actions, one node per operator token, operands in
      the order written. */
  function InfixAction(op: InfixToken, l: Expr, r: Expr): Expr {
    match op
    case PlusToken => Addition(l, r)
    case MinusToken => Subtraction(l, r)
    case StarToken => Multiplication(l, r)
    case SlashToken => Division(l, r)
    case OrToken => Disjunction(l, r)
    case AndToken => Conjunction(l, r)
    case InToken => InExpr(l, r)
    case NotInToken => NotInExpr(l, r)
    case IsToken => IsExpr(l, r)
    case IsNotToken => IsNotExpr(l, r)
    case LessToken => Comparison(Less, l, r)
    case LessEqualToken => Comparison(LessEqual, l, r)
    case GreaterToken => Comparison(Greater, l, r)
    case GreaterEqualToken => Comparison(GreaterEqual, l, r)
    case NotEqualToken => Comparison(NotEqual, l, r)
    case EqualEqualToken => Comparison(Equal, l, r)
  }

  /** The two prefix productions: `- e` and `not e` wrap their operand in a
      negation node of their own kind, never in a binary one. */
  function PrefixAction(op: PrefixToken, e: Expr): (r: Expr)
    ensures r.ArithmeticNegation? || r.LogicalNegation?
    ensures r.ArithmeticNegation? <==> op == MinusPrefix
    ensures r.operand == e
    ensures InfixTokenOf(r).None?
  {
    match op
    case MinusPrefix => ArithmeticNegation(e)
    case NotPrefix => LogicalNegation(e)
  }

  /** Which prefix production builds a node, if any. */
  function PrefixTokenOf(e: Expr): Option<PrefixToken> {
    match e
    case ArithmeticNegation(_) => Some(MinusPrefix)
    case LogicalNegation(_) => Some(NotPrefix)
    case _ => None
  }

  /** Every negation node is built by exactly the prefix production of its
      own kind from its own operand, and a prefix production builds nothing
      else. */
  lemma PrefixActionComplete(e: Expr)
    ensures PrefixTokenOf(e).Some? <==> e.ArithmeticNegation? || e.LogicalNegation?
    ensures PrefixTokenOf(e).Some? ==> PrefixAction(PrefixTokenOf(e).value, e.operand) == e
    ensures forall op, x :: PrefixAction(op, x) == e ==> PrefixTokenOf(e) == Some(op) && x == e.operand
  {
  }

  /** Which binary production builds a node, if any. */
  function InfixTokenOf(e: Expr): Option<InfixToken> {
    match e
    case Addition(_, _) => Some(PlusToken)
    case Subtraction(_, _) => Some(MinusToken)
    case Multiplication(_, _) => Some(StarToken)
    case Division(_, _) => Some(SlashToken)
    case Disjunction(_, _) => Some(OrToken)
    case Conjunction(_, _) => Some(AndToken)
    case InExpr(_, _) => Some(InToken)
    case NotInExpr(_, _) => Some(NotInToken)
    case IsExpr(_, _) => Some(IsToken)
    case IsNotExpr(_, _) => Some(IsNotToken)
    case Comparison(op, _, _) =>
      Some(match op
        case Less => LessToken
        case LessEqual => LessEqualToken
        case Greater => GreaterToken
        case GreaterEqual => GreaterEqualToken
        case NotEqual => NotEqualToken
        case Equal => EqualEqualToken)
    case _ => None
  }

  /** The two children of a binary node, left first. */
  function Operands(e: Expr): (Expr, Expr)
    requires InfixTokenOf(e).Some?
  {
    match e
    case Addition(l, r) => (l, r)
    case Subtraction(l, r) => (l, r)
    case Multiplication(l, r) => (l, r)
    case Division(l, r) => (l, r)
    case Disjunction(l, r) => (l, r)
    case Conjunction(l, r) => (l, r)
    case InExpr(l, r) => (l, r)
    case NotInExpr(l, r) => (l, r)
    case IsExpr(l, r) => (l, r)
    case IsNotExpr(l, r) => (l, r)
    case Comparison(_, l, r) => (l, r)
  }

  /** Building a binary node and reading it back gives the operator token
      and the operands in the order written. */
  lemma InfixActionInverse(op: InfixToken, l: Expr, r: Expr)
    ensures InfixTokenOf(InfixAction(op, l, r)) == Some(op)
    ensures Operands(InfixAction(op, l, r)) == (l, r)
  {
    match op
    case PlusToken =>
    case MinusToken =>
    case StarToken =>
    case SlashToken =>
    case OrToken =>
    case AndToken =>
    case InToken =>
    case NotInToken =>
    case IsToken =>
    case IsNotToken =>
    case LessToken =>
    case LessEqualToken =>
    case GreaterToken =>
    case GreaterEqualToken =>
    case NotEqualToken =>
    case EqualEqualToken =>
  }

  /** Every binary node is rebuilt by the production of its own operator
      token from its own operands: no binary node is out of the parser's
      reach, and none is built by two productions. */
  lemma InfixActionComplete(e: Expr)
    requires InfixTokenOf(e).Some?
    ensures InfixAction(InfixTokenOf(e).value, Operands(e).0, Operands(e).1) == e
  {
    match e
    case Comparison(op, l, r) => {
      match op
      case Less =>
      case LessEqual =>
      case Greater =>
      case GreaterEqual =>
      case NotEqual =>
      case Equal =>
    }
    case _ =>
  }

  /** Applies the actions bottom-up to a derivation of `expr`. */
  function BuildExpr(s: ExprSyntax): Expr
    decreases s
  {
    match s
    case Embraced(inner) => BuildExpr(inner)
    case Literal(t) => LiteralAction(t)
    case NameExpr(n) => Ref(n)
    case CallExpr(callee, args) =>
      Call(BuildExpr(callee), CommaList(seq(|args|, i requires 0 <= i < |args| => BuildParam(args[i]))))
    case DotAccess(target, attr) => AttrAccess(BuildExpr(target), attr)
    case ColonAccess(target, field) => FieldAccess(BuildExpr(target), field)
    case Infix(op, l, r) => InfixAction(op, BuildExpr(l), BuildExpr(r))
    case Prefix(op, e) => PrefixAction(op, BuildExpr(e))
  }

  /** `param : expr` keeps the bare expression; `param : name '=' expr`
      pairs the name with it. */
  function BuildParam(p: ParamSyntax): Param
    decreases p
  {
    match p
    case PositionalArg(e) => Positional(BuildExpr(e))
    case KeywordArg(n, e) => KeywordParam(n, BuildExpr(e))
  }

  /** The same derivation with every pair of parentheses removed. */
  function StripParens(s: ExprSyntax): ExprSyntax
    decreases s
  {
    match s
    case Embraced(inner) => StripParens(inner)
    case Literal(_) => s
    case NameExpr(_) => s
    case CallExpr(callee, args) =>
      CallExpr(StripParens(callee), seq(|args|, i requires 0 <= i < |args| => StripParamParens(args[i])))
    case DotAccess(target, attr) => DotAccess(StripParens(target), attr)
    case ColonAccess(target, field) => ColonAccess(StripParens(target), field)
    case Infix(op, l, r) => Infix(op, StripParens(l), StripParens(r))
    case Prefix(op, e) => Prefix(op, StripParens(e))
  }

  function StripParamParens(p: ParamSyntax): ParamSyntax
    decreases p
  {
    match p
    case PositionalArg(e) => PositionalArg(StripParens(e))
    case KeywordArg(n, e) => KeywordArg(n, StripParens(e))
  }

  /** The root of the tree a derivation builds is fixed by its outermost
      production under any parentheses: a primitive builds a literal, a name
      a reference, a call a call, `.` and `:` an attribute and a field
      access, and nothing else builds any of these. */
  lemma {:induction false} RootNodeKind(s: ExprSyntax)
    ensures BuildExpr(s).IsLiteral() <==> StripParens(s).Literal?
    ensures BuildExpr(s).Ref? <==> StripParens(s).NameExpr?
    ensures BuildExpr(s).Call? <==> StripParens(s).CallExpr?
    ensures BuildExpr(s).AttrAccess? <==> StripParens(s).DotAccess?
    ensures BuildExpr(s).FieldAccess? <==> StripParens(s).ColonAccess?
    decreases s
  {
    match s
    case Embraced(inner) =>
      RootNodeKind(inner);
    case Infix(op, l, r) =>
      InfixActionInverse(op, BuildExpr(l), BuildExpr(r));
    case _ =>
  }

  /** Parentheses add no node: a derivation builds the same tree with every
      pair of parentheses removed, however deeply they are nested. */
  lemma {:induction false} ParensAddNoNode(s: ExprSyntax)
    ensures BuildExpr(StripParens(s)) == BuildExpr(s)
    decreases s
  {
    match s
    case Embraced(inner) =>
      ParensAddNoNode(inner);
    case Literal(_) =>
    case NameExpr(_) =>
    case CallExpr(callee, args) =>
      ParensAddNoNode(callee);
      var t := StripParens(s);
      assert t.args == seq(|args|, i requires 0 <= i < |args| => StripParamParens(args[i]));
      var before := seq(|args|, i requires 0 <= i < |args| => BuildParam(args[i]));
      var after := seq(|t.args|, i requires 0 <= i < |t.args| => BuildParam(t.args[i]));
      forall i | 0 <= i < |args|
        ensures after[i] == before[i]
      {
        assert args[i] in args;
        ParensAddNoNode(args[i].expr);
      }
      assert after == before;
    case DotAccess(target, _) =>
      ParensAddNoNode(target);
    case ColonAccess(target, _) =>
      ParensAddNoNode(target);
    case Infix(_, l, r) =>
      ParensAddNoNode(l);
      ParensAddNoNode(r);
    case Prefix(_, e) =>
      ParensAddNoNode(e);
  }

  // ---------------------------------------------------------------------------
  // Create statements

  /** `record_creation : name param_list` */
  datatype InstanceSyntax = InstanceSyntax(name: string, args: seq<ParamSyntax>)

  /** `param_list : '(' param_list_prefix ')' | '(' ')'`: the parameters in
      the order written, each keyword argument a keyword parameter and each
      bare expression a positional one. */
  function BuildParams(args: seq<ParamSyntax>): (ps: seq<Param>)
    ensures |ps| == |args|
    ensures forall i :: 0 <= i < |args| ==> (ps[i].KeywordParam? <==> args[i].KeywordArg?)
    ensures forall i :: 0 <= i < |args| ==> ps[i].value == BuildExpr(args[i].expr)
    ensures forall i :: 0 <= i < |args| && args[i].KeywordArg? ==> ps[i].name == args[i].name
  {
    var built := seq(|args|, i requires 0 <= i < |args| => BuildParam(args[i]));
    ListsKeepSourceOrder([], [], built);
    CommaList(built)
  }

  function BuildInstance(s: InstanceSyntax): CreateInstance {
    CreateInstance(s.name, BuildParams(s.args))
  }

  /** `create_stmt : create record_creation_list ';'`: one instance per
      record creation, in the order written. */
  function BuildCreate(instances: seq<InstanceSyntax>): (c: CreateStmt)
    ensures |c.instances| == |instances|
    ensures forall i :: 0 <= i < |instances| ==> c.instances[i] == BuildInstance(instances[i])
  {
    var built := seq(|instances|, i requires 0 <= i < |instances| => BuildInstance(instances[i]));
    ListsKeepSourceOrder([], built, []);
    CreateStmt(CommaList(built))
  }
}
