# relang in Dafny

relang is a small declarative language compiled to SQL. A `record Name { ... }`
declaration becomes one `create table` statement. A `create Name(...), ...;`
statement becomes `insert into` statements; when it has more than one
instance, the inserts are wrapped in a transaction whose constraint checks are
deferred to the commit.

This project models the core of that compiler as pure functions over immutable
datatypes, and proves properties of them:

- `Nodes` (`nodes.dfy`) holds the syntax tree: domains, fields, records, create
  statements, parameters, literals and expression nodes. These are closed
  variant types, so a domain is exactly one of a reference or a range, and a
  field modifier is one of two values or absent (`Option`). Literals
  `true`/`false`/`null` carry nothing; int, float and string literals carry one
  value. The six comparisons share one shape.
- `Sql` (`sql.dfy`) is the generator. Every exception it can raise is a
  `Failure` of `GenError`, so a statement yields its whole text or nothing.
- `Grammar` (`grammar.dfy`) holds the parser's semantic actions. The derivation
  the parser finds is given as a syntax value, and the actions are applied to
  it bottom-up.
- `Tokens` (`tokens.dfy`) holds the computations inside the lexer rules:
  - keyword reclassification;
  - int and string token values;
  - line counting;
  - error recovery;
  - `find_column`.
- `Text` (`text.dfy`) holds the Python string operations the source relies on:
  `join`, ASCII `lower`, and `str`/`int` on integers.
- `Wrappers` (`wrappers.dfy`) holds `Option`, `Result`, and `MapAll`. `MapAll`
  is a list comprehension that stops at the first exception.
- `Pipeline` (`pipeline.dfy`) holds properties that span lexer, parser and
  generator.

Behaviour worth noting:

- Integer values are emitted between single quotes, like every other
  non-keyword literal.
- The positional insert form has no column list and no `values` keyword.
- The reserved-word list contains `check` and lacks `create` and `in`; see
  Findings.
- A record without fields gives `create table N (\n);`.

## Model

| member | source | states |
|---|---|---|
| Wrappers.MapAll | sql.py:44 | a list comprehension over a raising function succeeds iff every element succeeds, keeps length and order, and otherwise fails with the first failing element's error |
| Text.Lower | sql.py:56 | lower-casing keeps the length, maps every character, and leaves no upper-case ASCII letter |
| Text.DecimalTextOfValue | tokens.py:47 | reading a numeral without superfluous leading zero and printing the number gives the numeral back |
| Text.DecimalValueLeadingZero | tokens.py:47 | `int` ignores a leading zero: prefixing `0` to a numeral does not change the number it denotes |
| Text.StripLeadingZeros | tokens.py:47 | dropping the superfluous leading zeros of a numeral leaves a canonical numeral for the same number, a suffix of the original preceded only by zeros, and the original itself exactly when that is canonical |
| Text.IntTextRoundTrip | sql.py:121 | every integer is recovered from the text `str` gives it, minus sign included |
| Tokens.NameKindOf | tokens.py:39-43 | an identifier becomes a keyword token exactly when its text is in the reserved-word list, and its token type is then the text itself; otherwise it is a name |
| Tokens.GrammarKeywordsLexAsNames | tokens.py:20-23 | `create` and `in` are terminals of the grammar but the lexer classifies them as names |
| Tokens.ReservedKindOf | tokens.py:20-23 | with `create` and `in` added to the reserved words, an identifier is a keyword exactly when it is in the extended list |
| Tokens.ReservedKindCoversGrammar | grammar.py:124-126 | with the extended list every word terminal of the grammar is produced by the lexer, and every other identifier is classified as before |
| Tokens.IntTokenValue | tokens.py:45-48 | printing an int token's value gives back every lexeme without a superfluous leading zero unchanged |
| Tokens.IntTokenValueDropsLeadingZeros | tokens.py:45-48 | printing the value of any int token gives back its lexeme with the superfluous leading zeros dropped (`007` gives `7`, `000` gives `0`) |
| Tokens.StringTokenValue | tokens.py:50-53 | a string token's value is its lexeme with exactly the first and last character removed, every other character kept in place |
| Tokens.StringTokenValueOfQuoted | tokens.py:50-53 | stripping the double quotes from a quoted text gives the text back; nothing is unescaped |
| Tokens.NewlineAction | tokens.py:55-57 | a run of newlines raises the line number by the number of newlines in it |
| Tokens.LineAfterCountsNewlines | tokens.py:55-57 | over lexemes that are each a newline run or newline-free, the line number rises by exactly the number of newlines consumed |
| Tokens.CompositeNewlineUncounted | tokens.py:31-37 | a composite `is`/`not` or `not`/`in` lexeme whose separator is a newline holds one newline but leaves the line number unchanged |
| Tokens.LineAfterCounted | tokens.py:55-57 | when every lexeme raises the line number by its own newlines, it rises by exactly the newlines consumed, for any lexemes |
| Tokens.LineAfterCountedAgrees | tokens.py:55-57 | on lexemes that are each a newline run or newline-free, counting every lexeme's newlines agrees with the newline rule alone |
| Tokens.ErrorResume | tokens.py:59-61 | after an illegal character lexing resumes one position later, skipping exactly that character |
| Tokens.LastNewline | tokens.py:96 | `rfind` gives the last newline before the end, or -1; no newline lies after it |
| Tokens.FindColumn | tokens.py:95-97 | the column is at least 1; it is `lexpos + 1` exactly when no newline precedes the position; otherwise it counts from the character after the last preceding newline |
| Grammar.FieldAction | grammar.py:69-77 | a built field is never both key and nullable, and keeps its name, domain and uniqueness |
| Grammar.FieldRoundTrip | grammar.py:69-118 | field syntax and fields that are not both key and nullable correspond one to one: `!` gives exactly the key fields, `?` exactly the nullable ones, `unique` exactly the unique ones, and domains and range bounds are kept as written |
| Grammar.ReduceAppendsInOrder | grammar.py:60-67 | a left-recursive list rule appends the items after the list built so far, in source order |
| Grammar.ListsKeepSourceOrder | grammar.py:128-164 | field, instance and parameter lists keep source order; an empty body, `create ;` and `()` give empty lists |
| Grammar.BuildRecord | grammar.py:53-67 | a record keeps its name and has one field per field written, each built by the field action, in order |
| Grammar.LiteralAction | grammar.py:270-292 | each primitive production builds a literal node that records its own token and the token's value |
| Grammar.LiteralActionComplete | grammar.py:270-292 | every literal node is built by exactly the primitive production of its own token and value, and no other node is built by one |
| Grammar.RootNodeKind | grammar.py:174-196 | under any parentheses, a primitive builds a literal, a name a reference, a call a call, `.` an attribute access and `:` a field access, and no other production builds these |
| Grammar.InfixActionInverse | grammar.py:198-268 | every binary production builds a node that records its own operator and its operands in the order written |
| Grammar.InfixActionComplete | grammar.py:198-268 | every binary node is built by exactly the production of its own operator from its own operands |
| Grammar.PrefixAction | grammar.py:214-228 | `- e` builds an arithmetic negation and `not e` a logical negation of exactly `e`; neither builds a binary node |
| Grammar.PrefixActionComplete | grammar.py:214-228 | every negation node is built by exactly the prefix production of its own kind from its own operand, and no other node is built by a prefix production |
| Grammar.ParensAddNoNode | grammar.py:174-176 | a derivation builds the same tree with all parentheses removed, at any depth, inside call arguments too |
| Grammar.BuildParams | grammar.py:149-172 | parameters keep source order; `name = expr` gives a keyword parameter carrying the name and a bare expression a positional one |
| Grammar.BuildCreate | grammar.py:124-147 | a create statement has one instance per record creation written, in order |
| Sql.Resolve | sql.py:51-62 | a built-in domain name resolves to its SQL type, any other name to a reference to its lower-cased table, a range to a check; a range with a middle bound fails |
| Sql.ColumnConstraints | sql.py:49-68 | the constraints come in fixed order: the domain constraint first, then `unique` exactly for unique fields, then `not null` exactly for non-nullable fields, with nothing else |
| Sql.SpaceJoin | sql.py:69-71 | joining name, type and constraints with spaces leaves no trailing space when there is no constraint |
| Sql.ColumnClause | sql.py:69-72 | a column is its name, its type and its constraints separated by single spaces; it fails exactly for a range with a middle bound |
| Sql.KeyLeavesColumnUnchanged | sql.py:63-68 | whether a field is a key never changes its column text |
| Sql.KeyNames | sql.py:74 | the key list is empty exactly when no field is a key, contains every key field's name, and only names of key fields |
| Sql.KeyNamesAppend | sql.py:74 | the key list distributes over concatenated field lists, so keys keep declaration order |
| Sql.PrimaryKeyText | sql.py:73-78 | the primary key clause is empty exactly when no field is a key |
| Sql.LinesIsJoin | sql.py:45 | laying elements out one per line is the `,\n\t` join after a leading newline and tab |
| Sql.FieldListText | sql.py:42-47 | the column list is built exactly when no field has a middle-bound range, fails with that error otherwise, and is then the columns in declaration order laid out one per line |
| Sql.TableBodyLayout | sql.py:37-47 | the column list followed by the primary key clause is the table elements laid out one per line, in every case with or without fields and keys |
| Sql.DefEvaluate | sql.py:36-40 | a record generates exactly when no range has a middle bound; the text is `create table`, the name, and the table elements one per line in parentheses |
| Sql.Primitive | sql.py:113-121 | `true`, `false` and `null` are verbatim; int, float and string literals are their text between single quotes with nothing escaped; every other node fails |
| Sql.QuotedLiteralPayload | sql.py:121 | a serialized string literal gives back its text, a serialized int its number, and an int serializes like the string of its digits |
| Sql.Insert | sql.py:99-111 | mixed keyword and positional parameters fail; otherwise the insert succeeds iff every value serializes; all-keyword gives the columns in order then `values` and the values; positional gives only the values |
| Sql.KeywordInsertPairsColumns | sql.py:102-110 | in the keyword form there are as many values as columns, and the i-th value is the serialized value of the parameter naming the i-th column |
| Sql.Immediate | sql.py:96-97 | the batch succeeds iff every instance's insert does, otherwise fails with the first failing instance's error; the text is the inserts in instance order joined by newlines |
| Sql.Deferred | sql.py:90-94 | the same inserts, failing exactly when the immediate batch does, inside `begin;`, `set constraints all deferred;` and `commit;` |
| Sql.CreateEvaluate | sql.py:84-97 | a statement succeeds iff every insert does, otherwise with the first failure; no instance gives empty text, one a bare insert, and more the inserts joined by newlines inside one deferred transaction |
| Sql.Generate | sql.py:23-31 | a record root gives exactly the record's `create table` text or its failure, a create root exactly the statement's inserts or their failure, and any other root fails as unexpected |
| Pipeline.ParsedRecordGenerates | sql.py:57-58 | a parsed record generates exactly when no range in it is written with a middle bound |
| Pipeline.ParsedKeyColumnsNotNull | grammar.py:69-89 | a field written with `!` is in the primary key and its column ends in `not null`; one written with `?` is not a key and not `not null` |
| Pipeline.IntLiteralEndToEnd | tokens.py:45-48 | an int literal reaches the output as its digits in single quotes less its superfluous leading zeros, and one without them exactly as written |
| Pipeline.StringLiteralEndToEnd | tokens.py:50-53 | a string literal reaches the output with its double quotes replaced by single quotes and its text unchanged |
| Pipeline.ParsedMixedArgumentsFail | sql.py:102-104 | one instance mixing `name = value` and bare arguments makes the whole statement produce nothing |
| Pipeline.ParsedPositionalInsert | sql.py:109-110 | bare literal arguments give an insert with the serialized values alone, in the order written |

## Left out

- The LALR table construction, parse loop, precedence and associativity of the
  parser library (grammar.py:14-27, 302). The parser is not shown, so the
  derivation is an input to `Grammar`.
- The regular expressions and rule order of the lexer. This includes the
  composite `is not`/`not in` rules (only their effect on the line number is
  modelled), the ignored characters and comments, and the `float` token, which
  is declared but has no rule.
- The `main` functions: stdin reads, prints, and `p_error`'s print and exit.
  The message of `t_error` is also I/O; only the skip is modelled.
- `p_sequence_def` (grammar.py:120-122): no statement rule reaches it.
- `lang.py`: an older duplicate of the node types that nothing imports.
- The grammar's `equal_equal` terminal is not declared by the lexer, which
  declares `two_equal` for `==`. `EqualEqualToken` models the production as
  written. This concerns the token stream and the table construction, neither
  of which is modelled; see Findings.
- The `unimplemented field domain` error (sql.py:61-62): a `Domain` is a closed
  type with two variants, so the branch cannot be reached.
- The error message texts: a `GenError` names the failure kind only.
- Python's `assert` is taken to be enabled. Under `-O` a middle-bound range
  would generate a check that ignores the middle bound.
- Sql.Primitive: for a negation, attribute-access or field-access node the
  source emits the Python representation of the child node between quotes.
  The model reports `ReprOfChild` instead, because dataclass representations
  are not part of the model.
- Sql.Primitive: a float literal carries the text Python's `str` gives its
  value, unexamined, because the model has no floating point.
- Text.Lower: only the ASCII letters are lower-cased; other case mappings
  belong to Unicode tables that are not modelled.
- Tokens.IntTokenValue: only ASCII digits are taken as digits, while Python's
  `\d` also matches other Unicode decimal digits.
- Tokens.IntTokenValue: the interpreter's limit on integer string conversion
  is not modelled. Since Python 3.10.7 and 3.11, `int` of a numeral longer than
  4300 digits raises `ValueError` and aborts the lexer (tokens.py:47); the
  model gives its value. Integers are unbounded here, so the limit is a
  property of the runtime and not of the language.
- Pipeline.IntLiteralEndToEnd: for the same reason it does not promise that a
  literal of more than 4300 digits fails; the source would stop in the lexer.
- Sql.Primitive: likewise, `str` of an int of more than 4300 digits in a
  hand-built tree raises in the source (sql.py:121), and so does the range
  check text of such a bound (sql.py:60); the model emits the digits.

## Findings

| source | as written | input that shows it | evidently intended | confidence | as-written member | corrected member |
|---|---|---|---|---|---|---|
| tokens.py:20-23 | the reserved words are `and check false is not null or record true unique`; the grammar also uses `create` and `in` as terminals (grammar.py:125, 231) | `create Person(id = 1);` lexes `create` as a name, so no create statement can be parsed, and neither can `a in b`; since `create`, `in` and `equal_equal` are grammar terminals never declared as tokens, the parser library would likely refuse to build the tables at all (grammar.py:302) | `create` and `in` are reserved words, so the lexer produces the terminals the grammar expects | high (not executed) | Tokens.GrammarKeywordsLexAsNames | Tokens.ReservedKindCoversGrammar |
| tokens.py:31-37 | the composite rules `is\snot` and `not\sin` come before every other rule, and `\s` matches a newline, but only `t_newline` (tokens.py:55-57) raises the line number | `a is` on one line and `not b` on the next: the `is_not` token swallows the newline, so the line number of every later token is one too low | every newline consumed, inside a composite token too, raises the line number | medium (not executed) | Tokens.CompositeNewlineUncounted | Tokens.LineAfterCounted |
