/** The SQL code generator: a record definition becomes one `create table`
    statement, a create statement becomes `insert into` statements, wrapped
    in a deferred-constraints transaction when there is more than one. Every
    exception the generator raises is a `Failure`, so a unit either yields its
    whole text or none of it. */
module Sql {
  import opened Wrappers
  import opened Text
  import opened Nodes

  /** The exceptions generation can raise. */
  datatype GenError =
    | UnexpectedAstType        // the root is neither a record definition nor a create statement
    | MiddleBoundUnsupported   // the assertion that a range has no middle bound fails
    | IncohesiveKeywordParams  // keyword and positional parameters mixed in one instance
    | NoValueAttribute         // a value node without a `value` attribute: binary nodes, references, calls
    | ReprOfChild              // a value node whose `value` is a child node: negations and accesses

  // ---------------------------------------------------------------------------
  // Domains

  /** The built-in domain names and their SQL column types. */
  const Types: map<string, string> := map["Integer" := "integer", "String" := "text", "Boolean" := "boolean", "Float" := "real"]

  /** What a domain resolves to: a built-in type, a reference to the table of
      another record (by lower-cased name), or an integer range check. */
  datatype Resolution = Builtin(sqlType: string) | Foreign(table: string) | Checked(first: int, last: int)

  predicate HasMiddleBound(d: Domain) {
    d.RangeDef? && d.second.Some?
  }

  /** A name in the built-in table is that type; any other name is taken as a
      record reference, never checked against other declarations; a range is
      an integer check unless it has a middle bound, which is unsupported. */
  function Resolve(d: Domain): (r: Result<Resolution, GenError>)
    ensures r.Failure? <==> HasMiddleBound(d)
    ensures r.Failure? ==> r.error == MiddleBoundUnsupported
    ensures r.Success? ==> (r.value.Builtin? <==> d.DomainRef? && d.name in Types)
    ensures r.Success? && r.value.Builtin? ==> r.value.sqlType == Types[d.name]
    ensures r.Success? ==> (r.value.Foreign? <==> d.DomainRef? && d.name !in Types)
    ensures r.Success? && r.value.Foreign? ==> r.value.table == Lower(d.name)
    ensures r.Success? ==> (r.value.Checked? <==> d.RangeDef?)
    ensures r.Success? && r.value.Checked? ==> r.value.first == d.first && r.value.last == d.last
  {
    match d
    case DomainRef(name) =>
      if name in Types then Success(Builtin(Types[name])) else Success(Foreign(Lower(name)))
    case RangeDef(first, second, last) =>
      if second.Some? then Failure(MiddleBoundUnsupported) else Success(Checked(first, last))
  }

  function ColumnType(res: Resolution): string {
    match res
    case Builtin(t) => t
    case _ => "integer"
  }

  function DomainConstraints(fieldName: string, res: Resolution): seq<string> {
    match res
    case Builtin(_) => []
    case Foreign(table) => ["references " + table]
    case Checked(first, last) =>
      ["check (" + fieldName + " between " + IntText(first) + " and " + IntText(last) + ")"]
  }

  // ---------------------------------------------------------------------------
  // Columns

  /** The constraints of one column, in their fixed order: the domain's
      constraint, then `unique` exactly when the field is unique, then
      `not null` exactly when it is not nullable. Being a key adds nothing. */
  function ColumnConstraints(f: FieldDef): (r: Result<seq<string>, GenError>)
    ensures r.Failure? <==> HasMiddleBound(f.domain)
    ensures r.Failure? ==> r.error == MiddleBoundUnsupported
    ensures r.Success? ==> ("unique" in r.value <==> f.isUnique)
    ensures r.Success? ==> ("not null" in r.value <==> !f.isNullable)
    ensures r.Success? ==>
      |r.value| == (if f.domain.DomainRef? && f.domain.name in Types then 0 else 1)
                   + (if f.isUnique then 1 else 0) + (if f.isNullable then 0 else 1)
    ensures r.Success? && !f.isNullable ==> r.value[|r.value| - 1] == "not null"
    ensures r.Success? && f.isUnique ==> r.value[|r.value| - (if f.isNullable then 1 else 2)] == "unique"
    ensures r.Success? && f.domain.DomainRef? && f.domain.name !in Types ==>
      r.value[0] == "references " + Lower(f.domain.name)
    ensures r.Success? && f.domain.RangeDef? ==>
      r.value[0] == "check (" + f.name + " between " + IntText(f.domain.first) + " and " + IntText(f.domain.last) + ")"
  {
    var res :- Resolve(f.domain);
    Success(DomainConstraints(f.name, res)
            + (if f.isUnique then ["unique"] else [])
            + (if f.isNullable then [] else ["not null"]))
  }

  /** Space-joining a name, a type and a constraint list leaves no trailing
      space when the list is empty. */
  lemma {:induction false} SpaceJoin(name: string, sqlType: string, constraints: seq<string>)
    ensures Join([name, sqlType] + constraints, " ")
            == if |constraints| > 0 then name + " " + sqlType + " " + Join(constraints, " ") else name + " " + sqlType
  {
    var parts := [name, sqlType] + constraints;
    var rest := [sqlType] + constraints;
    assert Join(parts, " ") == name + " " + Join(rest, " ") by {
      assert parts[0] == name && parts[1..] == rest;
    }
    if |constraints| > 0 {
      var tail := Join(constraints, " ");
      assert Join(rest, " ") == sqlType + " " + tail by {
        assert rest[0] == sqlType && rest[1..] == constraints;
      }
      assert name + " " + (sqlType + " " + tail) == name + " " + sqlType + " " + tail;
    } else {
      assert rest == [sqlType];
    }
  }

  /** One column of the table: the field's name, its column type and its
      constraints, separated by single spaces, with no trailing space when
      there is no constraint. */
  function ColumnClause(f: FieldDef): (r: Result<string, GenError>)
    ensures r.Failure? <==> HasMiddleBound(f.domain)
    ensures r.Failure? ==> r.error == MiddleBoundUnsupported
    ensures r.Success? ==>
      r.value == Join([f.name, ColumnType(Resolve(f.domain).value)] + ColumnConstraints(f).value, " ")
    ensures r.Success? && f.domain.DomainRef? && f.domain.name in Types ==>
      r.value == Join([f.name, Types[f.domain.name]] + ColumnConstraints(f).value, " ")
    ensures r.Success? && !(f.domain.DomainRef? && f.domain.name in Types) ==>
      r.value == Join([f.name, "integer"] + ColumnConstraints(f).value, " ")
  {
    var res :- Resolve(f.domain);
    var constraints := ColumnConstraints(f).value;
    var column := f.name + " " + ColumnType(res);
    SpaceJoin(f.name, ColumnType(res), constraints);
    if |constraints| > 0 then Success(column + " " + Join(constraints, " ")) else Success(column)
  }

  /** Whether a field is a key never changes its column. */
  lemma {:induction false} KeyLeavesColumnUnchanged(f: FieldDef, isKey: bool)
    ensures ColumnClause(f.(isKey := isKey)) == ColumnClause(f)
  {
  }

  // ---------------------------------------------------------------------------
  // Tables

  /** The names of the key fields, in declaration order. */
  function KeyNames(fields: seq<FieldDef>): (names: seq<string>)
    ensures |names| <= |fields|
    ensures |names| == 0 <==> forall i :: 0 <= i < |fields| ==> !fields[i].isKey
    ensures forall i :: 0 <= i < |fields| && fields[i].isKey ==> fields[i].name in names
    ensures forall n :: n in names ==> exists i :: 0 <= i < |fields| && fields[i].isKey && fields[i].name == n
    decreases |fields|
  {
    if |fields| == 0 then []
    else
      var rest := KeyNames(fields[1..]);
      assert forall i :: 1 <= i < |fields| ==> fields[1..][i - 1] == fields[i];
      (if fields[0].isKey then [fields[0].name] else []) + rest
  }

  /** Key names distribute over concatenation of field lists, so the key
      fields keep their relative declaration order. */
  lemma {:induction false} KeyNamesAppend(a: seq<FieldDef>, b: seq<FieldDef>)
    ensures KeyNames(a + b) == KeyNames(a) + KeyNames(b)
    decreases |a|
  {
    if |a| > 0 {
      assert (a + b)[1..] == a[1..] + b;
      KeyNamesAppend(a[1..], b);
    } else {
      assert a + b == b;
    }
  }

  /** Every field of the list has a domain the generator supports. */
  predicate FieldsGenerate(fields: seq<FieldDef>) {
    forall i :: 0 <= i < |fields| ==> !HasMiddleBound(fields[i].domain)
  }

  /** The column of each field, in declaration order. */
  function Columns(fields: seq<FieldDef>): (columns: seq<string>)
    requires FieldsGenerate(fields)
    ensures |columns| == |fields|
  {
    seq(|fields|, i requires 0 <= i < |fields| => ColumnClause(fields[i]).value)
  }

  /** `_field_list`: the list is built exactly when every field's domain is
      supported, and is then the columns laid out one per line; an empty
      record gives nothing. */
  function FieldListText(fields: seq<FieldDef>): (r: Result<string, GenError>)
    ensures r.Success? <==> FieldsGenerate(fields)
    ensures r.Failure? ==> r.error == MiddleBoundUnsupported
    ensures r.Success? ==> r.value == Lines(Columns(fields))
  {
    if |fields| == 0 then Success("")
    else
      var columns :- MapAll(fields, ColumnClause);
      assert FieldsGenerate(fields) by {
        forall i | 0 <= i < |fields|
          ensures !HasMiddleBound(fields[i].domain)
        {
          assert ColumnClause(fields[i]).Success?;
        }
      }
      assert columns == Columns(fields);
      assert Lines(columns) == "\n\t" + Join(columns, ",\n\t") by {
        LinesIsJoin(columns);
      }
      Success("\n\t" + Join(columns, ",\n\t"))
  }

  /** The primary key over the named columns, in the given order. */
  function PrimaryKeyClause(keys: seq<string>): string {
    "primary key (" + Join(keys, ", ") + ")"
  }

  /** `_constraints_list`: the composite primary key over the key fields, or
      nothing when no field is a key. */
  function PrimaryKeyText(fields: seq<FieldDef>): (r: string)
    ensures r == "" <==> forall i :: 0 <= i < |fields| ==> !fields[i].isKey
  {
    var keys := KeyNames(fields);
    if |keys| > 0 then ",\n\t" + PrimaryKeyClause(keys) else ""
  }

  /** Table elements laid out one per line, each preceded by a newline and a
      tab, consecutive elements separated by a comma. */
  function Lines(items: seq<string>): string
    decreases |items|
  {
    if |items| == 0 then ""
    else if |items| == 1 then "\n\t" + items[0]
    else Lines(items[..|items| - 1]) + ",\n\t" + items[|items| - 1]
  }

  lemma {:induction false} LinesIsJoin(items: seq<string>)
    requires |items| > 0
    ensures Lines(items) == "\n\t" + Join(items, ",\n\t")
    decreases |items|
  {
    if |items| > 1 {
      var init := items[..|items| - 1];
      LinesIsJoin(init);
      JoinSnoc(init, items[|items| - 1], ",\n\t");
      assert init + [items[|items| - 1]] == items;
    }
  }

  lemma {:induction false} LinesSnoc(items: seq<string>, x: string)
    requires |items| > 0
    ensures Lines(items + [x]) == Lines(items) + (",\n\t" + x)
  {
    assert (items + [x])[..|items|] == items;
    AppendAssoc(Lines(items), ",\n\t", x);
  }

  predicate Generates(rec: RecordDef) {
    FieldsGenerate(rec.fields)
  }

  /** The elements of the table a record declares: the column of each field
      in declaration order, then one primary key over exactly the key fields
      when there is at least one. */
  function TableElements(rec: RecordDef): (elements: seq<string>)
    requires Generates(rec)
    ensures |elements| == |rec.fields| + (if |KeyNames(rec.fields)| > 0 then 1 else 0)
    ensures forall i :: 0 <= i < |rec.fields| ==> elements[i] == ColumnClause(rec.fields[i]).value
    ensures |KeyNames(rec.fields)| > 0 ==> elements[|elements| - 1] == PrimaryKeyClause(KeyNames(rec.fields))
  {
    var keys := KeyNames(rec.fields);
    Columns(rec.fields) + (if |keys| > 0 then [PrimaryKeyClause(keys)] else [])
  }

  lemma {:induction false} KeyedTableBody(rec: RecordDef)
    requires Generates(rec) && |rec.fields| > 0 && |KeyNames(rec.fields)| > 0
    ensures FieldListText(rec.fields).Success?
    ensures FieldListText(rec.fields).value + PrimaryKeyText(rec.fields) == Lines(TableElements(rec))
  {
    var columns := Columns(rec.fields);
    var clause := PrimaryKeyClause(KeyNames(rec.fields));
    KeyedElements(rec);
    LinesSnoc(columns, clause);
  }

  lemma KeyedElements(rec: RecordDef)
    requires Generates(rec) && |KeyNames(rec.fields)| > 0
    ensures PrimaryKeyText(rec.fields) == ",\n\t" + PrimaryKeyClause(KeyNames(rec.fields))
    ensures TableElements(rec) == Columns(rec.fields) + [PrimaryKeyClause(KeyNames(rec.fields))]
  {
  }

  lemma AppendAssoc(a: string, b: string, c: string)
    ensures a + (b + c) == a + b + c
  {
  }

  lemma {:induction false} KeylessTableBody(rec: RecordDef)
    requires Generates(rec) && |KeyNames(rec.fields)| == 0
    ensures FieldListText(rec.fields).Success?
    ensures FieldListText(rec.fields).value + PrimaryKeyText(rec.fields) == Lines(TableElements(rec))
  {
    var columns := Columns(rec.fields);
    assert TableElements(rec) == columns;
    assert PrimaryKeyText(rec.fields) == "";
    assert Lines(columns) + "" == Lines(columns);
  }

  /** The column list followed by the primary key clause is the table
      elements laid out one per line. */
  lemma {:induction false} TableBodyLayout(rec: RecordDef)
    requires Generates(rec)
    ensures FieldListText(rec.fields).Success?
    ensures FieldListText(rec.fields).value + PrimaryKeyText(rec.fields) == Lines(TableElements(rec))
  {
    if |KeyNames(rec.fields)| > 0 {
      KeyedTableBody(rec);
    } else {
      KeylessTableBody(rec);
    }
  }

  /** `DefEvaluator.evaluate`: the record generates exactly when no field has
      a range with a middle bound, and then the text is `create table`, the
      record's name and its table elements one per line in parentheses. */
  function DefEvaluate(rec: RecordDef): (r: Result<string, GenError>)
    ensures r.Success? <==> Generates(rec)
    ensures r.Failure? ==> r.error == MiddleBoundUnsupported
    ensures r.Success? ==> r.value == "create table " + rec.name + " (" + Lines(TableElements(rec)) + "\n);"
  {
    var body :- FieldListText(rec.fields);
    assert body + PrimaryKeyText(rec.fields) == Lines(TableElements(rec)) by {
      TableBodyLayout(rec);
    }
    Success("create table " + rec.name + " (" + (body + PrimaryKeyText(rec.fields)) + "\n);")
  }

  // ---------------------------------------------------------------------------
  // Values

  /** `_primitive`: `true`, `false` and `null` verbatim; every other literal
      is its Python `str` text between single quotes, nothing escaped, so an
      integer comes out quoted too. No other node can be serialized. */
  function Primitive(e: Expr): (r: Result<string, GenError>)
    ensures r.Success? <==> e.IsLiteral()
    ensures e.TruePrimitive? ==> r == Success("true")
    ensures e.FalsePrimitive? ==> r == Success("false")
    ensures e.NullPrimitive? ==> r == Success("null")
    ensures e.IntPrimitive? ==> r == Success("'" + IntText(e.number) + "'")
    ensures e.StringPrimitive? || e.FloatPrimitive? ==> r == Success("'" + e.text + "'")
    ensures r.Failure? ==>
      (r.error == ReprOfChild <==> e.ArithmeticNegation? || e.LogicalNegation? || e.AttrAccess? || e.FieldAccess?)
    ensures r.Failure? ==> r.error == ReprOfChild || r.error == NoValueAttribute
  {
    match e
    case TruePrimitive => Success("true")
    case FalsePrimitive => Success("false")
    case NullPrimitive => Success("null")
    case IntPrimitive(n) => Success("'" + IntText(n) + "'")
    case FloatPrimitive(text) => Success("'" + text + "'")
    case StringPrimitive(text) => Success("'" + text + "'")
    case ArithmeticNegation(_) => Failure(ReprOfChild)
    case LogicalNegation(_) => Failure(ReprOfChild)
    case AttrAccess(_, _) => Failure(ReprOfChild)
    case FieldAccess(_, _) => Failure(ReprOfChild)
    case _ => Failure(NoValueAttribute)
  }

  /** The text of a quoted literal between its quotes. */
  function Unquote(s: string): string
    requires |s| >= 2
  {
    s[1..|s| - 1]
  }

  /** A serialized int or string literal determines its payload: the string
      comes back as written and the integer is read back from its digits. An
      integer and the string of its digits serialize alike. */
  lemma {:induction false} QuotedLiteralPayload(n: int, text: string)
    ensures Unquote(Primitive(StringPrimitive(text)).value) == text
    ensures SignedValue(Unquote(Primitive(IntPrimitive(n)).value)) == n
    ensures Primitive(IntPrimitive(n)) == Primitive(StringPrimitive(IntText(n)))
  {
    assert Unquote("'" + text + "'") == text;
    assert Unquote("'" + IntText(n) + "'") == IntText(n);
    IntTextRoundTrip(n);
  }

  // ---------------------------------------------------------------------------
  // Inserts

  predicate HasKeyword(ps: seq<Param>) {
    exists i :: 0 <= i < |ps| && ps[i].KeywordParam?
  }

  predicate AllKeyword(ps: seq<Param>) {
    forall i :: 0 <= i < |ps| ==> ps[i].KeywordParam?
  }

  /** Keyword and positional parameters in one parameter list. */
  predicate Mixed(ps: seq<Param>) {
    HasKeyword(ps) && !AllKeyword(ps)
  }

  function ParamPrimitive(p: Param): Result<string, GenError> {
    Primitive(p.value)
  }

  /** The serialized values of the parameters, in order. */
  function ValueList(ps: seq<Param>): Result<seq<string>, GenError> {
    MapAll(ps, ParamPrimitive)
  }

  function ColumnNames(ps: seq<Param>): (names: seq<string>)
    requires AllKeyword(ps)
    ensures |names| == |ps|
    ensures forall i :: 0 <= i < |ps| ==> names[i] == ps[i].name
  {
    seq(|ps|, i requires 0 <= i < |ps| => ps[i].name)
  }

  /** `_insert`: mixing keyword and positional parameters fails before any
      value is looked at. All-keyword parameters give a column list in
      parameter order followed by `values` and one value per column;
      positional parameters (or none) give the values alone. */
  function Insert(ins: CreateInstance): (r: Result<string, GenError>)
    ensures Mixed(ins.params) ==> r == Failure(IncohesiveKeywordParams)
    ensures !Mixed(ins.params) ==>
      (r.Success? <==> forall i :: 0 <= i < |ins.params| ==> Primitive(ins.params[i].value).Success?)
    ensures !Mixed(ins.params) && r.Failure? ==>
      exists i :: 0 <= i < |ins.params| && Primitive(ins.params[i].value) == Failure(r.error)
    ensures r.Failure? ==> r.error in {IncohesiveKeywordParams, ReprOfChild, NoValueAttribute}
    ensures r.Success? && HasKeyword(ins.params) ==>
      r.value == "insert into " + ins.name + " (" + Join(ColumnNames(ins.params), ", ") + ")\n\tvalues ("
                 + Join(ValueList(ins.params).value, ", ") + ");"
    ensures r.Success? && !HasKeyword(ins.params) ==>
      r.value == "insert into " + ins.name + " (" + Join(ValueList(ins.params).value, ", ") + ");"
  {
    var ps := ins.params;
    if HasKeyword(ps) && !AllKeyword(ps) then Failure(IncohesiveKeywordParams)
    else
      var values :- ValueList(ps);
      var columns := if HasKeyword(ps) then "(" + Join(ColumnNames(ps), ", ") + ")\n\tvalues " else "";
      Success("insert into " + ins.name + " " + columns + "(" + Join(values, ", ") + ");")
  }

  /** In the keyword form every column gets exactly one value: the i-th
      value listed is the serialized value of the parameter that names the
      i-th column. */
  lemma {:induction false} KeywordInsertPairsColumns(ins: CreateInstance)
    requires Insert(ins).Success? && HasKeyword(ins.params)
    ensures AllKeyword(ins.params)
    ensures |ColumnNames(ins.params)| == |ValueList(ins.params).value| == |ins.params|
    ensures forall i :: 0 <= i < |ins.params| ==>
      ColumnNames(ins.params)[i] == ins.params[i].name
      && ValueList(ins.params).value[i] == Primitive(ins.params[i].value).value
  {
    assert !Mixed(ins.params);
  }

  // ---------------------------------------------------------------------------
  // Create statements

  const TransactionBegin: string := "begin;\nset constraints all deferred;\n"
  const TransactionEnd: string := "\ncommit;"

  /** The insert of each instance, in order. */
  function InsertTexts(instances: seq<CreateInstance>): (texts: seq<string>)
    requires forall i :: 0 <= i < |instances| ==> Insert(instances[i]).Success?
    ensures |texts| == |instances|
  {
    seq(|instances|, i requires 0 <= i < |instances| => Insert(instances[i]).value)
  }

  /** `_immediate`: the inserts of all instances in order, one per line; the
      first instance that cannot be inserted fails the whole batch. */
  function Immediate(instances: seq<CreateInstance>): (r: Result<string, GenError>)
    ensures r.Success? <==> forall i :: 0 <= i < |instances| ==> Insert(instances[i]).Success?
    ensures r.Failure? ==>
      exists i :: 0 <= i < |instances| && Insert(instances[i]) == Failure(r.error)
                  && forall j :: 0 <= j < i ==> Insert(instances[j]).Success?
    ensures r.Success? ==> r.value == Join(InsertTexts(instances), "\n")
  {
    var inserts :- MapAll(instances, Insert);
    assert inserts == InsertTexts(instances);
    Success(Join(inserts, "\n"))
  }

  /** `_deferred`: the same inserts inside one transaction whose constraint
      checks are deferred to the commit, failing exactly as they do. */
  function Deferred(instances: seq<CreateInstance>): (r: Result<string, GenError>)
    ensures r.Success? <==> forall i :: 0 <= i < |instances| ==> Insert(instances[i]).Success?
    ensures r.Failure? ==>
      exists i :: 0 <= i < |instances| && Insert(instances[i]) == Failure(r.error)
                  && forall j :: 0 <= j < i ==> Insert(instances[j]).Success?
    ensures r.Success? ==> r.value == TransactionBegin + Join(InsertTexts(instances), "\n") + TransactionEnd
  {
    var body :- Immediate(instances);
    Success(TransactionBegin + body + TransactionEnd)
  }

  /** `CreateEvaluator.evaluate`: the statement generates exactly when every
      instance does, and otherwise fails with the first failing instance's
      error. No instance gives the empty text, one a bare insert, and more
      than one the inserts in order inside one deferred transaction. */
  function CreateEvaluate(stmt: CreateStmt): (r: Result<string, GenError>)
    ensures r.Success? <==> forall i :: 0 <= i < |stmt.instances| ==> Insert(stmt.instances[i]).Success?
    ensures r.Failure? ==>
      exists i :: 0 <= i < |stmt.instances| && Insert(stmt.instances[i]) == Failure(r.error)
                  && forall j :: 0 <= j < i ==> Insert(stmt.instances[j]).Success?
    ensures |stmt.instances| == 0 ==> r == Success("")
    ensures |stmt.instances| == 1 ==> r == Insert(stmt.instances[0])
    ensures |stmt.instances| > 1 && r.Success? ==>
      r.value == TransactionBegin + Join(InsertTexts(stmt.instances), "\n") + TransactionEnd
  {
    var instances := stmt.instances;
    if |instances| > 1 then Deferred(instances) else Immediate(instances)
  }

  // ---------------------------------------------------------------------------
  // Entry

  /** Every insert starts with `insert into `. */
  lemma {:induction false} InsertStartsWith(ins: CreateInstance)
    requires Insert(ins).Success?
    ensures "insert into " <= Insert(ins).value
  {
    var p := "insert into ";
    var values := Join(ValueList(ins.params).value, ", ");
    var a := p + ins.name;
    var b := a + " (";
    assert p <= a <= b;
    if HasKeyword(ins.params) {
      var c := b + Join(ColumnNames(ins.params), ", ");
      var d := c + ")\n\tvalues (";
      var e := d + values;
      assert b <= c <= d <= e <= e + ");";
      assert Insert(ins).value == e + ");";
    } else {
      var c := b + values;
      assert b <= c <= c + ");";
      assert Insert(ins).value == c + ");";
    }
  }

  /** A create statement's text is empty, a bare insert, or a transaction. */
  lemma {:induction false} CreateTextShape(stmt: CreateStmt)
    requires CreateEvaluate(stmt).Success?
    ensures var t := CreateEvaluate(stmt).value;
            t == "" || "insert into " <= t || TransactionBegin <= t
  {
    var n := |stmt.instances|;
    if n == 1 {
      InsertStartsWith(stmt.instances[0]);
    } else if n > 1 {
      var body := Join(InsertTexts(stmt.instances), "\n");
      assert CreateEvaluate(stmt).value == TransactionBegin + (body + TransactionEnd);
    }
  }

  /** A record's text starts with `create table `. */
  lemma {:induction false} TableTextShape(rec: RecordDef)
    requires DefEvaluate(rec).Success?
    ensures "create table " <= DefEvaluate(rec).value
  {
    var p := "create table ";
    var a := p + rec.name;
    var b := a + " (";
    var c := b + Lines(TableElements(rec));
    assert p <= a <= b <= c <= c + "\n);";
    assert DefEvaluate(rec).value == c + "\n);";
  }

  /** `EvaluatorFactory.get(ast).evaluate()`: a record definition yields a
      `create table` statement, a create statement yields inserts (or
      nothing when it has no instance), and any other root fails. */
  function Generate(ast: Ast): (r: Result<string, GenError>)
    ensures r == Failure(UnexpectedAstType) <==> !(ast.RecordDefNode? || ast.CreateStmtNode?)
    ensures ast.RecordDefNode? ==> r == DefEvaluate(ast.record)
    ensures ast.CreateStmtNode? ==> r == CreateEvaluate(ast.stmt)
    ensures ast.RecordDefNode? && r.Success? ==> "create table " <= r.value
    ensures ast.CreateStmtNode? && r.Success? ==>
      r.value == "" || "insert into " <= r.value || TransactionBegin <= r.value
  {
    match ast
    case RecordDefNode(rec) =>
      var r := DefEvaluate(rec);
      assert r.Success? ==> "create table " <= r.value by {
        if r.Success? {
          TableTextShape(rec);
        }
      }
      r
    case CreateStmtNode(stmt) =>
      var r := CreateEvaluate(stmt);
      assert r.Failure? ==> r.error != UnexpectedAstType by {
        if r.Failure? {
          var i :| 0 <= i < |stmt.instances| && Insert(stmt.instances[i]) == Failure(r.error);
        }
      }
      assert r.Success? ==> r.value == "" || "insert into " <= r.value || TransactionBegin <= r.value by {
        if r.Success? {
          CreateTextShape(stmt);
        }
      }
      r
    case _ => Failure(UnexpectedAstType)
  }
}
