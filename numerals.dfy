/** Decimal integer text: Python's `str(int)`, the full matches of the
    patterns `-?\d+` and `-?\d+\.\d+`, and `int(text)`. Digits are ASCII. */
module Numerals {
  import opened Text

  function DigitChar(d: nat): (c: char)
    requires d < 10
    ensures IsDigit(c) && DigitValue(c) == d
  {
    ('0' as int + d) as char
  }

  function DigitValue(c: char): nat
    requires IsDigit(c)
  {
    c as int - '0' as int
  }

  predicate IsDigits(s: string)
  {
    |s| > 0 && forall k :: 0 <= k < |s| ==> IsDigit(s[k])
  }

  /** The value of a digit string read left to right. */
  function DigitsValue(s: string): nat
    requires forall k :: 0 <= k < |s| ==> IsDigit(s[k])
  {
    if s == [] then 0 else DigitsValue(s[..|s| - 1]) * 10 + DigitValue(s[|s| - 1])
  }

  /** `str(n)` for a natural number: no leading zero except for 0 itself. */
  function NatToString(n: nat): (r: string)
    ensures IsDigits(r) && DigitsValue(r) == n
    ensures r[0] != '0' || n == 0
  {
    if n < 10 then [DigitChar(n)]
    else
      var r := NatToString(n / 10) + [DigitChar(n % 10)];
      assert r[..|r| - 1] == NatToString(n / 10);
      r
  }

  /** `str(i)` for a Python int. */
  function IntToString(i: int): string
  {
    if i < 0 then "-" + NatToString(-i) else NatToString(i)
  }

  /** A full match of `-?\d+`. */
  predicate IsIntText(s: string)
  {
    IsDigits(s) || (|s| > 1 && s[0] == '-' && IsDigits(s[1..]))
  }

  /** `int(s)` for a string that fully matches `-?\d+`. */
  function IntTextValue(s: string): int
    requires IsIntText(s)
  {
    if s[0] == '-' then -(DigitsValue(s[1..]) as int) else DigitsValue(s)
  }

  /** Index of the first occurrence of `c`, or `|s|`. */
  function IndexOf(s: string, c: char): (k: nat)
    ensures k <= |s| && (k < |s| ==> s[k] == c)
  {
    if s == [] || s[0] == c then 0 else 1 + IndexOf(s[1..], c)
  }

  /** No `c` comes before the index `IndexOf` finds. */
  lemma {:induction false} IndexOfFirst(s: string, c: char, j: nat)
    requires j < IndexOf(s, c)
    ensures s[j] != c
  {
    if j > 0 {
      IndexOfFirst(s[1..], c, j - 1);
    }
  }

  /** A full match of `-?\d+\.\d+`. */
  predicate IsFloatText(s: string)
  {
    var b := if |s| > 0 && s[0] == '-' then s[1..] else s;
    var k := IndexOf(b, '.');
    k < |b| && IsDigits(b[..k]) && IsDigits(b[k + 1..])
  }

  /** The text `str` produces for an int matches `-?\d+` and reads back as that int. */
  lemma IntToStringRoundTrip(i: int)
    ensures IsIntText(IntToString(i)) && IntTextValue(IntToString(i)) == i
  {
    if i < 0 {
      var t := IntToString(i);
      assert t[1..] == NatToString(-i);
    }
  }

  /** Integer text is never float text: it has no '.'. */
  lemma {:induction false} IntTextNotFloat(s: string)
    requires IsIntText(s)
    ensures !IsFloatText(s)
  {
    var b := if |s| > 0 && s[0] == '-' then s[1..] else s;
    assert IsDigits(b) by {
      if s[0] == '-' {
        assert IsDigits(s[1..]);
      }
    }
    assert IndexOf(b, '.') == |b|;
  }

  /** Python's `int(text)` on a string: surrounding whitespace is allowed, an
      optional sign, and digits in groups separated by single underscores.
      */
  function PyInt(text: string): (r: IntResult)
  {
    var t := Strip(text);
    var neg := |t| > 0 && t[0] == '-';
    var body := if |t| > 0 && (t[0] == '-' || t[0] == '+') then t[1..] else t;
    if IsUnderscoredDigits(body) then
      UnderscoredChars(body);
      var v := DigitsValue(DropUnderscores(body));
      IntOk(if neg then -(v as int) else v)
    else ValueError
  }

  /** `int(text)` either gives a value or raises ValueError. */
  datatype IntResult = ValueError | IntOk(value: int)

  /** Digits, with single `_` characters allowed between two digits. */
  predicate IsUnderscoredDigits(s: string)
  {
    |s| > 0 && IsDigit(s[0]) && AfterDigit(s[1..])
  }

  /** What may follow a digit: nothing, another digit, or one `_` and a digit. */
  predicate AfterDigit(s: string)
    decreases |s|
  {
    || s == []
    || (IsDigit(s[0]) && AfterDigit(s[1..]))
    || (|s| > 1 && s[0] == '_' && IsDigit(s[1]) && AfterDigit(s[2..]))
  }

  lemma {:induction false} UnderscoredChars(s: string)
    requires IsUnderscoredDigits(s)
    ensures forall k :: 0 <= k < |s| ==> IsDigit(s[k]) || s[k] == '_'
  {
    AfterDigitChars(s[1..]);
    forall k | 0 < k < |s|
      ensures IsDigit(s[k]) || s[k] == '_'
    {
      assert s[k] == s[1..][k - 1];
    }
  }

  lemma {:induction false} AfterDigitChars(s: string)
    requires AfterDigit(s)
    ensures forall k :: 0 <= k < |s| ==> IsDigit(s[k]) || s[k] == '_'
    decreases |s|
  {
    if s != [] {
      var n := if IsDigit(s[0]) && AfterDigit(s[1..]) then 1 else 2;
      AfterDigitChars(s[n..]);
      forall k | n <= k < |s|
        ensures IsDigit(s[k]) || s[k] == '_'
      {
        assert s[k] == s[n..][k - n];
      }
    }
  }

  /** A plain digit string is one group. */
  lemma {:induction false} DigitsAfterDigit(s: string)
    requires forall k :: 0 <= k < |s| ==> IsDigit(s[k])
    ensures AfterDigit(s)
    decreases |s|
  {
    if s != [] {
      assert forall k :: 0 <= k < |s| - 1 ==> s[1..][k] == s[k + 1];
      DigitsAfterDigit(s[1..]);
    }
  }

  function DropUnderscores(s: string): (r: string)
    requires forall k :: 0 <= k < |s| ==> IsDigit(s[k]) || s[k] == '_'
    ensures forall k :: 0 <= k < |r| ==> IsDigit(r[k])
    ensures (forall k :: 0 <= k < |s| ==> IsDigit(s[k])) ==> r == s
  {
    if s == [] then []
    else if s[0] == '_' then DropUnderscores(s[1..])
    else [s[0]] + DropUnderscores(s[1..])
  }

  /** `int` reads back every text that `str` writes for an int. */
  lemma PyIntRoundTrip(i: int)
    ensures PyInt(IntToString(i)) == IntOk(i)
  {
    var t := IntToString(i);
    var body := NatToString(if i < 0 then -i else i);
    assert Strip(t) == t by {
      IntToStringRoundTrip(i);
      assert IsStripped(t) by {
        assert IsDigit(t[|t| - 1]);
      }
      StripOfStripped(t);
    }
    assert i < 0 ==> t[0] == '-' && t[1..] == body;
    assert IsDigit(body[0]);
    DigitsUnderscored(body);
  }

  /** A plain digit string is a valid `int` body. */
  lemma DigitsUnderscored(s: string)
    requires IsDigits(s)
    ensures IsUnderscoredDigits(s)
  {
    assert forall k :: 0 <= k < |s| - 1 ==> s[1..][k] == s[k + 1];
    DigitsAfterDigit(s[1..]);
  }
}
