/**
 * The few JavaScript built-ins the components rely on, stated over Dafny
 * strings: Number.prototype.toString for integers, parseInt on decimal text,
 * String.prototype.startsWith, and `split(sep).pop()`.
 */
module Text {

  datatype Option<+T> = None | Some(value: T)

  predicate IsDigit(c: char) { '0' <= c <= '9' }

  predicate AllDigits(s: string) { forall i :: 0 <= i < |s| ==> IsDigit(s[i]) }

  function DigitChar(d: nat): (c: char)
    requires d < 10
    ensures IsDigit(c) && c as int - '0' as int == d
  {
    ('0' as int + d) as char
  }

  /** The decimal text of a non-negative integer, without leading zeros. */
  function Decimal(n: nat): (s: string)
    ensures 1 <= |s| && AllDigits(s)
    ensures s[0] == '0' ==> n == 0
    ensures n < 10 <==> |s| == 1
  {
    if n < 10 then [DigitChar(n)] else Decimal(n / 10) + [DigitChar(n % 10)]
  }

  /** The value of a run of decimal digits (the inverse of Decimal). */
  function DigitsValue(s: string): nat
    requires AllDigits(s)
  {
    if s == [] then 0
    else DigitsValue(s[..|s| - 1]) * 10 + (s[|s| - 1] as int - '0' as int)
  }

  lemma {:induction false} DecimalRoundTrip(n: nat)
    ensures DigitsValue(Decimal(n)) == n
  {
    if n >= 10 {
      var s := Decimal(n);
      assert s[..|s| - 1] == Decimal(n / 10);
      DecimalRoundTrip(n / 10);
    }
  }

  /** Distinct numbers have distinct decimal texts. */
  lemma DecimalInjective(m: nat, n: nat)
    ensures Decimal(m) == Decimal(n) <==> m == n
  {
    DecimalRoundTrip(m);
    DecimalRoundTrip(n);
  }

  /** `String(i)` / `i.toString()` for an integer-valued number. */
  function IntToString(i: int): (s: string)
    ensures 1 <= |s|
    ensures s[0] == '-' <==> i < 0
    ensures i >= 0 ==> s == Decimal(i)
  {
    if i < 0 then "-" + Decimal(-i) else Decimal(i)
  }

  /** The longest prefix of `s` made of decimal digits. */
  function LeadingDigits(s: string): (d: string)
    ensures AllDigits(d) && d <= s
    ensures |d| == |s| || !IsDigit(s[|d|])
  {
    if s == [] || !IsDigit(s[0]) then [] else [s[0]] + LeadingDigits(s[1..])
  }

  /** The value of the decimal digits `s` starts with; `None` when it starts with none. */
  function ParseDigits(s: string): (r: Option<nat>)
    ensures r.Some? <==> |s| > 0 && IsDigit(s[0])
  {
    var digits := LeadingDigits(s);
    if digits == [] then None
    else
      assert digits[0] == s[0];
      Some(DigitsValue(digits))
  }

  /**
   * `parseInt(s)` for the inputs the pages produce: an optional sign and then
   * decimal digits, parsed as far as the digits go; `None` stands for NaN.
   * Leading white space and radix prefixes are not modelled.
   */
  function ParseInt(s: string): (r: Option<int>)
    ensures r.Some? <==> (|s| > 0 && IsDigit(s[0])) || (|s| > 1 && (s[0] == '-' || s[0] == '+') && IsDigit(s[1]))
  {
    if |s| > 0 && s[0] == '-' then
      match ParseDigits(s[1..])
      case None => None
      case Some(v) => Some(-(v as int))
    else if |s| > 0 && s[0] == '+' then
      match ParseDigits(s[1..])
      case None => None
      case Some(v) => Some(v as int)
    else
      match ParseDigits(s)
      case None => None
      case Some(v) => Some(v as int)
  }

  lemma LeadingDigitsOfDigits(s: string, rest: string)
    requires AllDigits(s)
    requires rest == [] || !IsDigit(rest[0])
    ensures LeadingDigits(s + rest) == s
  {
    var d := LeadingDigits(s + rest);
    assert d == (s + rest)[..|s|] == s;
  }

  /** Decimal digits followed by a non-digit (or nothing) parse to their value. */
  lemma ParseUnsigned(n: nat, rest: string)
    requires rest == [] || !IsDigit(rest[0])
    ensures ParseInt(Decimal(n) + rest) == Some(n)
  {
    var s := Decimal(n) + rest;
    assert s[0] == Decimal(n)[0];
    LeadingDigitsOfDigits(Decimal(n), rest);
    DecimalRoundTrip(n);
    assert ParseDigits(s) == Some(n);
  }

  lemma ParseMinus(t: string)
    ensures ParseInt("-" + t) == match ParseDigits(t) case None => None case Some(v) => Some(-(v as int))
  {
    assert ("-" + t)[1..] == t;
  }

  /** A minus sign in front negates the value. */
  lemma ParseNegative(n: nat, rest: string)
    requires rest == [] || !IsDigit(rest[0])
    ensures ParseInt("-" + Decimal(n) + rest) == Some(-(n as int))
  {
    ParseUnsigned(n, rest);
    ParseMinus(Decimal(n) + rest);
    assert "-" + Decimal(n) + rest == "-" + (Decimal(n) + rest);
  }

  /** parseInt reads back what toString wrote, also when text follows that is not a digit. */
  lemma ParseIntRoundTrip(i: int, rest: string)
    requires rest == [] || !IsDigit(rest[0])
    ensures ParseInt(IntToString(i) + rest) == Some(i)
  {
    if i < 0 {
      ParseNegative(-i, rest);
    } else {
      ParseUnsigned(i, rest);
    }
  }

  /** `s.startsWith(prefix)`. */
  predicate StartsWith(s: string, prefix: string)
  {
    prefix <= s
  }

  /**
   * `s.split(sep).pop()`: the text after the last `sep`, or all of `s` when
   * `sep` does not occur.
   */
  function AfterLast(s: string, sep: char): (r: string)
    ensures sep !in r && |r| <= |s|
  {
    if s == [] then []
    else if s[|s| - 1] == sep then []
    else AfterLast(s[..|s| - 1], sep) + [s[|s| - 1]]
  }

  /** The last segment is a suffix, preceded by the separator unless it is the whole text. */
  lemma {:induction false} AfterLastSuffix(s: string, sep: char)
    ensures var r := AfterLast(s, sep);
      r == s[|s| - |r|..] && (|r| == |s| || s[|s| - |r| - 1] == sep)
  {
    if s != [] && s[|s| - 1] != sep {
      var init := s[..|s| - 1];
      AfterLastSuffix(init, sep);
      var r := AfterLast(init, sep);
      assert init[|init| - |r|..] + [s[|s| - 1]] == s[|s| - |r| - 1..];
    }
  }

  /** The segment after the last separator is recovered from `base + sep + last`. */
  lemma {:induction false} AfterLastOfJoin(base: string, sep: char, last: string)
    requires sep !in last
    ensures AfterLast(base + [sep] + last, sep) == last
  {
    if last != [] {
      var s := base + [sep] + last;
      assert s[..|s| - 1] == base + [sep] + last[..|last| - 1];
      AfterLastOfJoin(base, sep, last[..|last| - 1]);
    }
  }

  /** Without a separator, the whole text is the last segment. */
  lemma {:induction false} AfterLastWithoutSeparator(s: string, sep: char)
    requires sep !in s
    ensures AfterLast(s, sep) == s
  {
    if s != [] {
      var init := s[..|s| - 1];
      assert sep !in init by {
        forall c | c in init ensures c != sep {
          var k :| 0 <= k < |init| && init[k] == c;
          assert s[k] == c;
        }
      }
      AfterLastWithoutSeparator(init, sep);
      assert init + [s[|s| - 1]] == s;
    }
  }
}
