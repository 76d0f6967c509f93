/** Character classes and string helpers with the semantics of the JavaScript
    built-ins the library calls (`split`, `join`, regular-expression classes). */
module Strings {
  import opened Wrappers

  /** The line terminators that the regular-expression `.` does not match. */
  predicate IsLineTerminator(c: char) {
    c == '\n' || c == '\r' || c == '\U{2028}' || c == '\U{2029}'
  }

  /** The regular-expression `.`: any character but a line terminator. */
  predicate IsAnyChar(c: char) {
    !IsLineTerminator(c)
  }

  /** The regular-expression class `\s`. */
  predicate IsWhitespace(c: char) {
    c == ' ' || c == '\t' || c == '\n' || c == '\U{000B}' || c == '\U{000C}' || c == '\r'
    || c == '\U{00A0}' || c == '\U{1680}' || ('\U{2000}' <= c <= '\U{200A}')
    || c == '\U{2028}' || c == '\U{2029}' || c == '\U{202F}' || c == '\U{205F}'
    || c == '\U{3000}' || c == '\U{FEFF}'
  }

  /** The regular-expression class `\d`. */
  predicate IsDigit(c: char) {
    '0' <= c <= '9'
  }

  /** The regular-expression class `[\-\w]`. */
  predicate IsWordOrDash(c: char) {
    ('a' <= c <= 'z') || ('A' <= c <= 'Z') || IsDigit(c) || c == '_' || c == '-'
  }

  predicate IsUpperAscii(c: char) {
    'A' <= c <= 'Z'
  }

  /** `toLowerCase` restricted to the ASCII letters. */
  function LowerChar(c: char): (d: char)
    ensures !IsUpperAscii(d)
    ensures IsUpperAscii(c) ==> d as int == c as int + 32
    ensures !IsUpperAscii(c) ==> d == c
  {
    if IsUpperAscii(c) then (c as int + 32) as char else c
  }

  function Lower(s: string): (r: string)
    ensures |r| == |s|
    ensures forall i :: 0 <= i < |s| ==> r[i] == LowerChar(s[i])
  {
    seq(|s|, i requires 0 <= i < |s| => LowerChar(s[i]))
  }

  predicate IsLower(s: string) {
    forall i :: 0 <= i < |s| ==> !IsUpperAscii(s[i])
  }

  /** Lower-casing is the identity exactly on strings without upper-case letters. */
  lemma LowerFixpoint(s: string)
    ensures Lower(s) == s <==> IsLower(s)
  {
    if IsLower(s) {
      assert forall i :: 0 <= i < |s| ==> Lower(s)[i] == s[i];
    } else {
      var i :| 0 <= i < |s| && IsUpperAscii(s[i]);
      assert Lower(s)[i] != s[i];
    }
  }

  lemma LowerConcat(a: string, b: string)
    requires IsLower(a) && IsLower(b)
    ensures IsLower(a + b)
  {
    forall i | 0 <= i < |a + b| ensures !IsUpperAscii((a + b)[i]) {
      if i >= |a| { assert (a + b)[i] == b[i - |a|]; }
    }
  }

  /** Length of the longest prefix of `s` whose characters all satisfy `p`
      (a greedy `[...]*` match). */
  function Span(s: string, p: char -> bool): (n: nat)
    ensures n <= |s|
    ensures forall i :: 0 <= i < n ==> p(s[i])
    ensures n < |s| ==> !p(s[n])
  {
    if |s| == 0 || !p(s[0]) then 0 else 1 + Span(s[1..], p)
  }

  /** `s.split(sep)` for a one-character separator: never empty, and the
      empty string splits into one empty part. */
  function Split(s: string, sep: char): (parts: seq<string>)
    ensures |parts| >= 1
    ensures forall i :: 0 <= i < |parts| ==> sep !in parts[i]
  {
    if |s| == 0 then [""]
    else if s[0] == sep then [""] + Split(s[1..], sep)
    else
      var rest := Split(s[1..], sep);
      [[s[0]] + rest[0]] + rest[1..]
  }

  /** `parts.join(sep)`. */
  function Join(parts: seq<string>, sep: char): string
  {
    if |parts| == 0 then ""
    else if |parts| == 1 then parts[0]
    else parts[0] + [sep] + Join(parts[1..], sep)
  }

  lemma JoinCons(x: string, rest: seq<string>, sep: char)
    requires |rest| >= 1
    ensures Join([x] + rest, sep) == x + [sep] + Join(rest, sep)
  {
    assert ([x] + rest)[1..] == rest;
  }

  /** Putting a character in front of the first part puts it in front of the join. */
  lemma ExtendHead(c: char, rest: seq<string>, sep: char)
    requires |rest| >= 1
    ensures Join([[c] + rest[0]] + rest[1..], sep) == [c] + Join(rest, sep)
  {
    if |rest| > 1 {
      JoinCons([c] + rest[0], rest[1..], sep);
      JoinCons(rest[0], rest[1..], sep);
      assert rest == [rest[0]] + rest[1..];
    }
  }

  /** Joining the parts of a split gives back the original string. */
  lemma {:induction false} JoinSplit(s: string, sep: char)
    ensures Join(Split(s, sep), sep) == s
  {
    if |s| > 0 {
      JoinSplit(s[1..], sep);
      var rest := Split(s[1..], sep);
      if s[0] == sep {
        JoinCons("", rest, sep);
        assert s == [sep] + s[1..];
      } else {
        ExtendHead(s[0], rest, sep);
        assert s == [s[0]] + s[1..];
      }
    }
  }

  /** A piece without the separator, followed by the separator, contributes
      exactly one part. */
  lemma {:induction false} SplitPiece(a: string, sep: char, b: string)
    requires sep !in a
    ensures Split(a + [sep] + b, sep) == [a] + Split(b, sep)
  {
    if |a| == 0 {
      assert a + [sep] + b == [sep] + b;
      assert ([sep] + b)[1..] == b;
    } else {
      SplitPiece(a[1..], sep, b);
      assert (a + [sep] + b)[1..] == a[1..] + [sep] + b;
      assert a == [a[0]] + a[1..];
    }
  }

  /** A string without the separator is a single part. */
  lemma {:induction false} SplitNoSeparator(a: string, sep: char)
    requires sep !in a
    ensures Split(a, sep) == [a]
  {
    if |a| > 0 {
      SplitNoSeparator(a[1..], sep);
      assert a == [a[0]] + a[1..];
    }
  }

  /** Splitting a join of separator-free parts gives back the parts. */
  lemma {:induction false} SplitJoin(parts: seq<string>, sep: char)
    requires |parts| >= 1
    requires forall i :: 0 <= i < |parts| ==> sep !in parts[i]
    ensures Split(Join(parts, sep), sep) == parts
  {
    if |parts| == 1 {
      SplitNoSeparator(parts[0], sep);
    } else {
      SplitJoin(parts[1..], sep);
      SplitPiece(parts[0], sep, Join(parts[1..], sep));
      assert parts == [parts[0]] + parts[1..];
    }
  }

  // ---------------------------------------------------------------------
  // Numerals

  /** The decimal numeral of `n`, as `String(n)` writes it. */
  function Decimal(n: nat): (s: string)
    ensures |s| >= 1
    ensures forall i :: 0 <= i < |s| ==> IsDigit(s[i])
    ensures (n < 10) == (|s| == 1)
  {
    if n < 10 then [('0' as int + n) as char]
    else Decimal(n / 10) + [('0' as int + n % 10) as char]
  }

  /** Different numbers have different numerals. */
  lemma {:induction false} DecimalInjective(n: nat, m: nat)
    requires Decimal(n) == Decimal(m)
    ensures n == m
  {
    var s := Decimal(n);
    if n >= 10 {
      assert m >= 10;
      assert s[|s| - 1] == ('0' as int + n % 10) as char == ('0' as int + m % 10) as char;
      assert Decimal(n / 10) == s[..|s| - 1] == Decimal(m / 10);
      DecimalInjective(n / 10, m / 10);
    }
  }

  /** The value of a string of digits. */
  function DigitsValue(s: string): nat
    requires forall i :: 0 <= i < |s| ==> IsDigit(s[i])
  {
    if |s| == 0 then 0
    else
      assert IsDigit(s[|s| - 1]);
      DigitsValue(s[..|s| - 1]) * 10 + (s[|s| - 1] as int - '0' as int)
  }

  /** A numeral `Decimal` writes: digits, without a leading zero unless it is
      `0` itself. */
  predicate IsNumeral(s: string) {
    && |s| >= 1
    && (forall i :: 0 <= i < |s| ==> IsDigit(s[i]))
    && (|s| > 1 ==> s[0] != '0')
  }

  /** The number whose numeral `s` is, if any. */
  function ParseNumeral(s: string): (r: Option<nat>)
    ensures forall n: nat {:trigger Decimal(n)} :: r == Some(n) <==> s == Decimal(n)
  {
    if IsNumeral(s) then
      NumeralValue(s);
      forall n: nat ensures s == Decimal(n) ==> n == DigitsValue(s) {
        if s == Decimal(n) { DecimalInjective(n, DigitsValue(s)); }
      }
      Some(DigitsValue(s))
    else
      forall n: nat ensures s != Decimal(n) { DecimalIsNumeral(n); }
      None
  }

  /** Every numeral `Decimal` writes is a numeral. */
  lemma {:induction false} DecimalIsNumeral(n: nat)
    ensures IsNumeral(Decimal(n))
  {
    if n >= 10 {
      DecimalIsNumeral(n / 10);
      assert Decimal(n)[0] == Decimal(n / 10)[0];
    }
  }

  /** A numeral is the numeral of its value. */
  lemma {:induction false} NumeralValue(s: string)
    requires IsNumeral(s)
    ensures Decimal(DigitsValue(s)) == s
    decreases |s|
  {
    if |s| > 1 {
      var init := s[..|s| - 1];
      assert IsNumeral(init) by { assert init[0] == s[0]; }
      NumeralValue(init);
      LeadingDigitPositive(init);
      var n := DigitsValue(s);
      assert n / 10 == DigitsValue(init) && n % 10 == s[|s| - 1] as int - '0' as int;
      assert s == init + [s[|s| - 1]];
    }
  }

  /** A string of digits that does not start with `0` has a positive value. */
  lemma {:induction false} LeadingDigitPositive(s: string)
    requires |s| >= 1 && (forall i :: 0 <= i < |s| ==> IsDigit(s[i])) && s[0] != '0'
    ensures DigitsValue(s) > 0
    decreases |s|
  {
    if |s| > 1 {
      LeadingDigitPositive(s[..|s| - 1]);
    }
  }
}
