/** The pure computations inside the lexer's rules: keyword reclassification
    of identifiers, the values of int and string tokens, line counting, error
    recovery and the column of a token. The regular-expression matching that
    selects a rule is not modelled; each function receives the lexeme its rule
    matched. */
module Tokens {
  import opened Text

  // ---------------------------------------------------------------------------
  // Identifiers and keywords (t_name)

  /** The reserved words of the lexer, in the order it lists them. */
  const Keywords: seq<string> := ["and", "check", "false", "is", "not", "null", "or", "record", "true", "unique"]

  /** Token type of an identifier: the reserved word itself, or `name`. */
  datatype NameKind = Keyword(word: string) | Name

  /** An identifier is reclassified as a keyword exactly when its text is one
      of the reserved words, and then the token type is the text itself. */
  function NameKindOf(text: string): (kind: NameKind)
    ensures kind.Keyword? <==> text in Keywords
    ensures kind.Keyword? ==> kind.word == text
  {
    if text in Keywords then Keyword(text) else Name
  }

  /** The words the grammar's productions use as terminal token types. */
  const GrammarKeywords: seq<string> := ["and", "create", "false", "in", "is", "not", "null", "or", "record", "true", "unique"]

  /** As written, `create` and `in` are grammar terminals yet lex as plain
      names, so no token stream the lexer produces can contain them. */
  lemma GrammarKeywordsLexAsNames()
    ensures "create" in GrammarKeywords && NameKindOf("create") == Name
    ensures "in" in GrammarKeywords && NameKindOf("in") == Name
  {
  }

  /** The reserved words with the two terminals the grammar needs added. */
  const ReservedWords: seq<string> := Keywords + ["create", "in"]

  /** Keyword reclassification over `ReservedWords`. */
  function ReservedKindOf(text: string): (kind: NameKind)
    ensures kind.Keyword? <==> text in ReservedWords
    ensures kind.Keyword? ==> kind.word == text
  {
    if text in ReservedWords then Keyword(text) else Name
  }

  /** With the corrected list every word terminal of the grammar is produced
      by the lexer, and every other identifier is classified as before. */
  lemma ReservedKindCoversGrammar(text: string)
    ensures text in GrammarKeywords ==> ReservedKindOf(text) == Keyword(text)
    ensures text != "create" && text != "in" ==> ReservedKindOf(text) == NameKindOf(text)
  {
    if text in GrammarKeywords {
      assert text in ReservedWords by {
        var i :| 0 <= i < |GrammarKeywords| && GrammarKeywords[i] == text;
        assert ReservedWords == ["and", "check", "false", "is", "not", "null", "or", "record", "true", "unique", "create", "in"];
      }
    }
    if text != "create" && text != "in" {
      assert text in ReservedWords <==> text in Keywords;
    }
  }

  // ---------------------------------------------------------------------------
  // Literal values (t_int, t_string)

  /** The value of an int token: the number its digit lexeme denotes.
      Printing that number gives a lexeme without a superfluous leading zero
      back unchanged. */
  function IntTokenValue(lexeme: string): (v: nat)
    requires |lexeme| > 0 && AllDigits(lexeme)
    ensures Canonical(lexeme) ==> DecimalText(v) == lexeme
    ensures Canonical(lexeme) ==> IntText(v) == lexeme
  {
    var v := DecimalValue(lexeme);
    assert Canonical(lexeme) ==> DecimalText(v) == lexeme by {
      if Canonical(lexeme) {
        DecimalTextOfValue(lexeme);
      }
    }
    v
  }

  /** Printing the value of any int token gives back its lexeme with the
      superfluous leading zeros dropped: `007` prints as `7`, `000` as `0`. */
  lemma IntTokenValueDropsLeadingZeros(lexeme: string)
    requires |lexeme| > 0 && AllDigits(lexeme)
    ensures DecimalText(IntTokenValue(lexeme)) == StripLeadingZeros(lexeme)
    ensures IntText(IntTokenValue(lexeme)) == StripLeadingZeros(lexeme)
  {
    DecimalTextOfValue(StripLeadingZeros(lexeme));
  }

  /** The lexeme of a string token: its text between double quotes. */
  function Quoted(text: string): string {
    "\"" + text + "\""
  }

  /** The value of a string token: the lexeme with its first and last
      character removed (Python's `lexeme[1:-1]`); nothing is unescaped. */
  function StringTokenValue(lexeme: string): (v: string)
    ensures |lexeme| >= 2 ==> |v| == |lexeme| - 2
    ensures |lexeme| < 2 ==> v == ""
    ensures forall i :: 0 <= i < |v| ==> v[i] == lexeme[i + 1]
  {
    if |lexeme| < 2 then "" else lexeme[1..|lexeme| - 1]
  }

  /** Removing the delimiters recovers exactly the text between them. */
  lemma StringTokenValueOfQuoted(text: string)
    ensures StringTokenValue(Quoted(text)) == text
  {
    assert Quoted(text)[1..|Quoted(text)| - 1] == text;
  }

  // ---------------------------------------------------------------------------
  // Line tracking (t_newline)

  function NewlineCount(s: string): nat
    decreases |s|
  {
    if |s| == 0 then 0 else NewlineCount(s[..|s| - 1]) + (if s[|s| - 1] == '\n' then 1 else 0)
  }

  lemma {:induction false} NewlineCountAppend(a: string, b: string)
    ensures NewlineCount(a + b) == NewlineCount(a) + NewlineCount(b)
    decreases |b|
  {
    if |b| > 0 {
      assert (a + b)[..|a + b| - 1] == a + b[..|b| - 1];
      NewlineCountAppend(a, b[..|b| - 1]);
    } else {
      assert a + b == a;
    }
  }

  predicate NewlineRun(s: string) {
    |s| > 0 && forall i :: 0 <= i < |s| ==> s[i] == '\n'
  }

  predicate NewlineFree(s: string) {
    forall i :: 0 <= i < |s| ==> s[i] != '\n'
  }

  lemma {:induction false} NewlineCountOfRun(s: string)
    requires forall i :: 0 <= i < |s| ==> s[i] == '\n'
    ensures NewlineCount(s) == |s|
    decreases |s|
  {
    if |s| > 0 {
      NewlineCountOfRun(s[..|s| - 1]);
    }
  }

  lemma {:induction false} NewlineCountOfFree(s: string)
    requires NewlineFree(s)
    ensures NewlineCount(s) == 0
    decreases |s|
  {
    if |s| > 0 {
      NewlineCountOfFree(s[..|s| - 1]);
    }
  }

  /** The line number after a newline run: one more per newline. */
  function NewlineAction(lineno: int, lexeme: string): (r: int)
    ensures NewlineRun(lexeme) ==> r == lineno + NewlineCount(lexeme)
    ensures NewlineRun(lexeme) ==> r > lineno
  {
    assert NewlineRun(lexeme) ==> NewlineCount(lexeme) == |lexeme| by {
      if NewlineRun(lexeme) {
        NewlineCountOfRun(lexeme);
      }
    }
    lineno + |lexeme|
  }

  function Concat(lexemes: seq<string>): string
    decreases |lexemes|
  {
    if |lexemes| == 0 then "" else lexemes[0] + Concat(lexemes[1..])
  }

  /** The line number after the lexer has consumed `lexemes` in order: only
      a newline run moves it. */
  function LineAfter(lineno: int, lexemes: seq<string>): int
    decreases |lexemes|
  {
    if |lexemes| == 0 then lineno
    else LineAfter(if NewlineRun(lexemes[0]) then NewlineAction(lineno, lexemes[0]) else lineno, lexemes[1..])
  }

  /** When every lexeme is a newline run or holds no newline, the line number
      counts exactly the newlines consumed. Names, numbers, operators, string
      literals and comments cannot hold a newline; the composite `is\snot` and
      `not\sin` rules can, and are the exception (`CompositeNewlineUncounted`). */
  lemma {:induction false} LineAfterCountsNewlines(lineno: int, lexemes: seq<string>)
    requires forall i :: 0 <= i < |lexemes| ==> NewlineRun(lexemes[i]) || NewlineFree(lexemes[i])
    ensures LineAfter(lineno, lexemes) == lineno + NewlineCount(Concat(lexemes))
    decreases |lexemes|
  {
    if |lexemes| > 0 {
      var head := lexemes[0];
      var next := if NewlineRun(head) then NewlineAction(lineno, head) else lineno;
      if !NewlineRun(head) {
        NewlineCountOfFree(head);
      }
      assert next == lineno + NewlineCount(head);
      LineAfterCountsNewlines(next, lexemes[1..]);
      NewlineCountAppend(head, Concat(lexemes[1..]));
    }
  }

  /** The composite rules are tried before the name rule, and the `\s`
      between their two words also matches a newline: `is` and `not` (or
      `not` and `in`) written on two lines become one token whose newline the
      line number never counts. */
  lemma {:induction false} CompositeNewlineUncounted(lineno: int, first: string, second: string)
    requires |first| > 0 && NewlineFree(first) && NewlineFree(second)
    ensures NewlineCount(Concat([first + "\n" + second])) == 1
    ensures LineAfter(lineno, [first + "\n" + second]) == lineno
  {
    var lexeme := first + "\n" + second;
    assert lexeme[0] == first[0] && !NewlineRun(lexeme);
    assert [lexeme][1..] == [];
    assert Concat([lexeme]) == lexeme + "";
    NewlineCountOfFree(first);
    NewlineCountOfFree(second);
    NewlineCountOfRun("\n");
    NewlineCountAppend(first, "\n");
    NewlineCountAppend(first + "\n", second);
    assert lexeme + "" == lexeme;
  }

  /** The line number when every rule, the composite ones included, raises it
      by the number of newlines in its lexeme. */
  function LineAfterCounted(lineno: int, lexemes: seq<string>): (r: int)
    ensures r == lineno + NewlineCount(Concat(lexemes))
    decreases |lexemes|
  {
    if |lexemes| == 0 then lineno
    else
      assert NewlineCount(Concat(lexemes)) == NewlineCount(lexemes[0]) + NewlineCount(Concat(lexemes[1..])) by {
        NewlineCountAppend(lexemes[0], Concat(lexemes[1..]));
      }
      LineAfterCounted(lineno + NewlineCount(lexemes[0]), lexemes[1..])
  }

  /** Where no lexeme mixes newlines with other characters, counting every
      lexeme's newlines moves the line number exactly as the newline rule
      alone does. */
  lemma LineAfterCountedAgrees(lineno: int, lexemes: seq<string>)
    requires forall i :: 0 <= i < |lexemes| ==> NewlineRun(lexemes[i]) || NewlineFree(lexemes[i])
    ensures LineAfterCounted(lineno, lexemes) == LineAfter(lineno, lexemes)
  {
    LineAfterCountsNewlines(lineno, lexemes);
  }

  // ---------------------------------------------------------------------------
  // Error recovery (t_error)

  /** Where lexing resumes after an illegal character at `lexpos`: exactly
      that one character is skipped and nothing else. */
  function ErrorResume(input: string, lexpos: nat): (next: nat)
    requires lexpos < |input|
    ensures lexpos < next <= |input|
    ensures input[..next] == input[..lexpos] + [input[lexpos]]
  {
    lexpos + 1
  }

  // ---------------------------------------------------------------------------
  // Columns (find_column)

  function Min(a: int, b: int): int {
    if a <= b then a else b
  }

  /** Python's `s.rfind('\n', 0, end)`: the index of the last newline before
      `end`, or -1 when there is none. */
  function LastNewline(s: string, end: nat): (i: int)
    requires end <= |s|
    ensures -1 <= i < end
    ensures i >= 0 ==> s[i] == '\n'
    ensures forall k :: i < k < end ==> s[k] != '\n'
    decreases end
  {
    if end == 0 then -1
    else if s[end - 1] == '\n' then end - 1
    else LastNewline(s, end - 1)
  }

  /** The 1-based column of the character at `lexpos`: its distance from the
      character after the last preceding newline, plus one. A search end past
      the input is clamped, as Python's slicing does. */
  function FindColumn(input: string, lexpos: nat): (col: int)
    ensures 1 <= col <= lexpos + 1
    ensures col == lexpos + 1 <==> forall k :: 0 <= k < Min(lexpos, |input|) ==> input[k] != '\n'
    ensures col <= lexpos ==> lexpos - col < |input| && input[lexpos - col] == '\n'
    ensures forall k :: lexpos - col < k < Min(lexpos, |input|) ==> input[k] != '\n'
  {
    var lineStart := LastNewline(input, Min(lexpos, |input|)) + 1;
    (lexpos - lineStart) + 1
  }
}
