/** String helpers the source takes from Python's `str`: `join`, `lower`,
    `str(int)` and `int(str)`. */
module Text {

  /** `sep.join(parts)`. */
  function Join(parts: seq<string>, sep: string): string
    decreases |parts|
  {
    if |parts| == 0 then ""
    else if |parts| == 1 then parts[0]
    else parts[0] + sep + Join(parts[1..], sep)
  }

  /** Joining is associative with appending one more part at the end. */
  lemma {:induction false} JoinSnoc(parts: seq<string>, x: string, sep: string)
    requires |parts| > 0
    ensures Join(parts + [x], sep) == Join(parts, sep) + sep + x
    decreases |parts|
  {
    if |parts| == 1 {
      assert (parts + [x])[1..] == [x];
    } else {
      assert (parts + [x])[1..] == parts[1..] + [x];
      JoinSnoc(parts[1..], x, sep);
    }
  }

  // ---------------------------------------------------------------------------
  // Case mapping

  predicate IsUpper(c: char) {
    'A' <= c <= 'Z'
  }

  function LowerChar(c: char): char {
    if IsUpper(c) then (c as int + 32) as char else c
  }

  /** `str.lower()` on the ASCII letters; every other character is kept. */
  function Lower(s: string): (r: string)
    ensures |r| == |s|
    ensures forall i :: 0 <= i < |s| ==> r[i] == LowerChar(s[i])
    ensures forall i :: 0 <= i < |r| ==> !IsUpper(r[i])
  {
    seq(|s|, i requires 0 <= i < |s| => LowerChar(s[i]))
  }

  // ---------------------------------------------------------------------------
  // Decimal numerals

  predicate IsDigit(c: char) {
    '0' <= c <= '9'
  }

  predicate AllDigits(s: string) {
    forall i :: 0 <= i < |s| ==> IsDigit(s[i])
  }

  /** A numeral in the form `str(n)` produces: no superfluous leading zero. */
  predicate Canonical(s: string) {
    |s| > 0 && AllDigits(s) && (s[0] != '0' || |s| == 1)
  }

  function DigitChar(d: nat): char
    requires d < 10
  {
    ('0' as int + d) as char
  }

  function DigitValue(c: char): nat
    requires IsDigit(c)
  {
    c as int - '0' as int
  }

  /** `str(n)` for a non-negative integer. */
  function DecimalText(n: nat): (s: string)
    ensures Canonical(s)
    decreases n
  {
    if n < 10 then [DigitChar(n)] else DecimalText(n / 10) + [DigitChar(n % 10)]
  }

  /** `int(s)` for a string of ASCII decimal digits. */
  function DecimalValue(s: string): nat
    requires AllDigits(s)
    decreases |s|
  {
    if |s| == 0 then 0 else DecimalValue(s[..|s| - 1]) * 10 + DigitValue(s[|s| - 1])
  }

  /** Printing a number and reading it back gives the number. */
  lemma {:induction false} DecimalValueOfText(n: nat)
    ensures DecimalValue(DecimalText(n)) == n
    decreases n
  {
    var s := DecimalText(n);
    if n >= 10 {
      assert s[..|s| - 1] == DecimalText(n / 10);
      DecimalValueOfText(n / 10);
    }
  }

  /** A numeral without a superfluous leading zero denotes a positive number
      unless it is the single digit `0`. */
  lemma {:induction false} LeadingDigitPositive(s: string)
    requires |s| > 0 && AllDigits(s) && s[0] != '0'
    ensures DecimalValue(s) > 0
    decreases |s|
  {
    if |s| > 1 {
      LeadingDigitPositive(s[..|s| - 1]);
    }
  }

  /** Reading a canonical numeral and printing the number gives the numeral
      back: on canonical text `DecimalText` and `DecimalValue` are inverse. */
  lemma {:induction false} DecimalTextOfValue(s: string)
    requires Canonical(s)
    ensures DecimalText(DecimalValue(s)) == s
    decreases |s|
  {
    if |s| > 1 {
      var p := s[..|s| - 1];
      var d := DigitValue(s[|s| - 1]);
      LeadingDigitPositive(p);
      DecimalTextOfValue(p);
      var v := DecimalValue(s);
      assert v == DecimalValue(p) * 10 + d;
      DivModTen(DecimalValue(p), d);
      assert DecimalText(v) == DecimalText(DecimalValue(p)) + [DigitChar(d)];
      assert s == p + [s[|s| - 1]];
    }
  }

  /** A leading zero adds nothing to the value of a numeral. */
  lemma {:induction false} DecimalValueLeadingZero(s: string)
    requires AllDigits(s)
    ensures DecimalValue("0" + s) == DecimalValue(s)
    decreases |s|
  {
    var z := "0" + s;
    if |s| > 0 {
      assert z[..|z| - 1] == "0" + s[..|s| - 1];
      assert z[|z| - 1] == s[|s| - 1];
      DecimalValueLeadingZero(s[..|s| - 1]);
    } else {
      assert z[..|z| - 1] == [];
    }
  }

  /** A numeral with its superfluous leading zeros dropped: the longest
      suffix that is canonical, which denotes the same number. All zeros
      leave the single digit `0`. */
  function StripLeadingZeros(s: string): (r: string)
    requires |s| > 0 && AllDigits(s)
    ensures Canonical(r)
    ensures r == s <==> Canonical(s)
    ensures |r| <= |s| && r == s[|s| - |r|..]
    ensures forall i :: 0 <= i < |s| - |r| ==> s[i] == '0'
    ensures DecimalValue(r) == DecimalValue(s)
    decreases |s|
  {
    if |s| > 1 && s[0] == '0' then
      var r := StripLeadingZeros(s[1..]);
      StripLeadingZero(s, r);
      r
    else s
  }

  /** Dropping one leading zero: what holds of the rest's stripped form
      holds of the whole numeral's. */
  lemma StripLeadingZero(s: string, r: string)
    requires |s| > 1 && s[0] == '0' && AllDigits(s)
    requires |r| <= |s| - 1 && r == s[1..][|s| - 1 - |r|..]
    requires forall i :: 0 <= i < |s| - 1 - |r| ==> s[1..][i] == '0'
    requires DecimalValue(r) == DecimalValue(s[1..])
    ensures |r| < |s| && r == s[|s| - |r|..]
    ensures forall i :: 0 <= i < |s| - |r| ==> s[i] == '0'
    ensures DecimalValue(r) == DecimalValue(s)
  {
    assert s == "0" + s[1..];
    DecimalValueLeadingZero(s[1..]);
    forall i | 0 <= i < |s| - |r|
      ensures s[i] == '0'
    {
      if i > 0 {
        assert s[i] == s[1..][i - 1];
      }
    }
  }

  lemma DivModTen(q: nat, d: nat)
    requires d < 10
    ensures (q * 10 + d) / 10 == q && (q * 10 + d) % 10 == d
  {
  }

  /** `str(n)` for any integer: a minus sign before the magnitude when negative. */
  function IntText(n: int): (s: string)
    ensures |s| > 0
    ensures (s[0] == '-') <==> n < 0
    ensures n >= 0 ==> Canonical(s)
    ensures n < 0 ==> Canonical(s[1..])
  {
    if n < 0 then "-" + DecimalText(-n) else DecimalText(n)
  }

  /** Reads the text `IntText` produces: an optional minus sign and a numeral. */
  function SignedValue(s: string): int
    requires |s| > 0
    requires if s[0] == '-' then AllDigits(s[1..]) else AllDigits(s)
  {
    if s[0] == '-' then -(DecimalValue(s[1..]) as int) else DecimalValue(s)
  }

  /** Every integer is recovered from its printed form. */
  lemma IntTextRoundTrip(n: int)
    ensures SignedValue(IntText(n)) == n
  {
    if n < 0 {
      assert IntText(n)[1..] == DecimalText(-n);
      DecimalValueOfText(-n);
    } else {
      DecimalValueOfText(n);
    }
  }
}
