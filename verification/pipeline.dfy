/** Properties that span the parser's actions, the lexer's token values and
    the generator: what a declaration or statement as written turns into. */
module Pipeline {
  import opened Wrappers
  import opened Text
  import opened Nodes
  import opened Tokens
  import opened Grammar
  import opened Sql

  // ---------------------------------------------------------------------------
  // Records

  /** A record as written generates exactly when none of its ranges is
      written with a middle bound `[first, second .. last]`. */
  lemma {:induction false} ParsedRecordGenerates(name: string, fields: seq<FieldSyntax>)
    ensures Generate(RecordDefNode(BuildRecord(name, fields))).Success?
            <==> forall i :: 0 <= i < |fields| ==> !(fields[i].domain.RangeSyntax? && fields[i].domain.second.Some?)
  {
    var rec := BuildRecord(name, fields);
    forall i | 0 <= i < |fields|
      ensures HasMiddleBound(rec.fields[i].domain)
              <==> fields[i].domain.RangeSyntax? && fields[i].domain.second.Some?
    {
      assert rec.fields[i] == BuildField(fields[i]);
    }
  }

  /** A field written with `!` is a key of its table and its column is
      declared `not null`, as the last of its constraints; one written with
      `?` is never a key and never `not null`. */
  lemma {:induction false} ParsedKeyColumnsNotNull(name: string, fields: seq<FieldSyntax>, i: nat)
    requires i < |fields|
    requires !(fields[i].domain.RangeSyntax? && fields[i].domain.second.Some?)
    ensures fields[i].modifier == Exclam ==>
      var rec := BuildRecord(name, fields);
      var constraints := ColumnConstraints(rec.fields[i]).value;
      fields[i].name in KeyNames(rec.fields)
      && |constraints| > 0 && constraints[|constraints| - 1] == "not null"
    ensures fields[i].modifier == Quest ==>
      var rec := BuildRecord(name, fields);
      !rec.fields[i].isKey && "not null" !in ColumnConstraints(rec.fields[i]).value
  {
    var rec := BuildRecord(name, fields);
    var f := rec.fields[i];
    assert f == BuildField(fields[i]);
    assert !HasMiddleBound(f.domain);
    if fields[i].modifier == Exclam {
      assert f.isKey && !f.isNullable;
    }
  }

  // ---------------------------------------------------------------------------
  // Literals

  /** An int literal reaches the output as its digits between single quotes,
      less any superfluous leading zeros; one written without them reaches it
      exactly as written. */
  lemma {:induction false} IntLiteralEndToEnd(lexeme: string)
    requires |lexeme| > 0 && AllDigits(lexeme)
    ensures Primitive(LiteralAction(IntToken(IntTokenValue(lexeme)))) == Success("'" + StripLeadingZeros(lexeme) + "'")
    ensures Canonical(lexeme) ==> Primitive(LiteralAction(IntToken(IntTokenValue(lexeme)))) == Success("'" + lexeme + "'")
  {
    IntTokenValueDropsLeadingZeros(lexeme);
  }

  /** A string literal reaches the output with its double quotes replaced by
      single quotes and its text untouched. */
  lemma {:induction false} StringLiteralEndToEnd(text: string)
    ensures Primitive(LiteralAction(StringToken(StringTokenValue(Quoted(text))))) == Success("'" + text + "'")
  {
    StringTokenValueOfQuoted(text);
  }

  // ---------------------------------------------------------------------------
  // Create statements

  /** One instance written with both `name = value` arguments and bare
      arguments makes the whole statement fail, whatever the other
      instances are. */
  lemma {:induction false} ParsedMixedArgumentsFail(instances: seq<InstanceSyntax>, k: nat, a: nat, b: nat)
    requires k < |instances| && a < |instances[k].args| && b < |instances[k].args|
    requires instances[k].args[a].KeywordArg? && instances[k].args[b].PositionalArg?
    ensures Generate(CreateStmtNode(BuildCreate(instances))).Failure?
  {
    var stmt := BuildCreate(instances);
    var ins := stmt.instances[k];
    assert ins == BuildInstance(instances[k]);
    assert ins.params[a].KeywordParam? && !ins.params[b].KeywordParam?;
    assert Mixed(ins.params);
    assert Insert(ins).Failure?;
  }

  /** A statement whose instances all use bare literal arguments becomes
      their inserts: each one the values alone, in the order written. */
  lemma {:induction false} ParsedPositionalInsert(name: string, literals: seq<LiteralToken>)
    ensures Insert(BuildInstance(InstanceSyntax(name, seq(|literals|, i requires 0 <= i < |literals| => PositionalArg(Literal(literals[i]))))))
            == Success("insert into " + name + " ("
                       + Join(seq(|literals|, i requires 0 <= i < |literals| => Primitive(LiteralAction(literals[i])).value), ", ")
                       + ");")
  {
    var args := seq(|literals|, i requires 0 <= i < |literals| => PositionalArg(Literal(literals[i])));
    var ins := BuildInstance(InstanceSyntax(name, args));
    var ps := ins.params;
    assert !HasKeyword(ps);
    forall i | 0 <= i < |ps|
      ensures Primitive(ps[i].value) == Primitive(LiteralAction(literals[i]))
    {
      assert ps[i].value == BuildExpr(args[i].expr);
    }
    var values := seq(|literals|, i requires 0 <= i < |literals| => Primitive(LiteralAction(literals[i])).value);
    assert ValueList(ps).value == values;
  }
}
