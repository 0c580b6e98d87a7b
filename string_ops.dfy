/**
 * The JavaScript string and number built-ins that the field validator leans on:
 * `String.prototype.trim`, `Number.prototype.toString` on integer values, and the
 * unary `+` that turns the people field's text into a number.
 * Strings are sequences of characters and a string's length is `|s|`.
 */
module StringOps {
  import opened Wrappers

  /** The characters `trim` strips: ECMAScript's WhiteSpace and LineTerminator code points. */
  const Whitespace: set<char> := {
    '\t', '\n', '\U{000B}', '\U{000C}', '\r', ' ', '\U{00A0}', '\U{1680}',
    '\U{2000}', '\U{2001}', '\U{2002}', '\U{2003}', '\U{2004}', '\U{2005}',
    '\U{2006}', '\U{2007}', '\U{2008}', '\U{2009}', '\U{200A}',
    '\U{2028}', '\U{2029}', '\U{202F}', '\U{205F}', '\U{3000}', '\U{FEFF}'
  }

  /** No digit and no sign is whitespace, so trimming never cuts into a number's text. */
  predicate IsWhitespace(c: char)
    ensures IsWhitespace(c) ==> !('0' <= c <= '9') && c != '+' && c != '-'
  {
    c in Whitespace
  }

  /** True of the empty string and of every string made of whitespace only. */
  predicate AllWhitespace(s: string) {
    forall i :: 0 <= i < |s| ==> IsWhitespace(s[i])
  }

  /** Drops the leading whitespace: the result is a suffix of `s` and starts with a non-whitespace character. */
  function TrimStart(s: string): (r: string)
    ensures |r| <= |s| && r == s[|s| - |r|..]
    ensures forall i :: 0 <= i < |s| - |r| ==> IsWhitespace(s[i])
    ensures r == [] || !IsWhitespace(r[0])
  {
    if |s| > 0 && IsWhitespace(s[0]) then
      var r := TrimStart(s[1..]);
      assert r == s[1..][|s| - 1 - |r|..] == s[|s| - |r|..];
      r
    else s
  }

  /** Drops the trailing whitespace: the result is a prefix of `s` and ends with a non-whitespace character. */
  function TrimEnd(s: string): (r: string)
    ensures |r| <= |s| && r == s[..|r|]
    ensures forall i :: |r| <= i < |s| ==> IsWhitespace(s[i])
    ensures r == [] || !IsWhitespace(r[|r| - 1])
  {
    if |s| > 0 && IsWhitespace(s[|s| - 1]) then
      var r := TrimEnd(s[..|s| - 1]);
      assert r == s[..|s| - 1][..|r|] == s[..|r|];
      r
    else s
  }

  /** `String.prototype.trim`. */
  function Trim(s: string): (r: string)
    ensures r == [] <==> AllWhitespace(s)
    ensures r != [] ==> !IsWhitespace(r[0]) && !IsWhitespace(r[|r| - 1])
    ensures s == [] || (!IsWhitespace(s[0]) && !IsWhitespace(s[|s| - 1])) ==> r == s
  {
    TrimEnd(TrimStart(s))
  }

  predicate IsDigit(c: char) {
    '0' <= c <= '9'
  }

  predicate AllDigits(s: string) {
    forall i :: 0 <= i < |s| ==> IsDigit(s[i])
  }

  function DigitChar(d: nat): (c: char)
    requires d < 10
    ensures IsDigit(c) && c as int - '0' as int == d
  {
    ('0' as int + d) as char
  }

  /** The decimal digits of `n`, most significant first, without leading zeros. */
  function NatToDecimal(n: nat): (r: string)
    ensures |r| > 0 && AllDigits(r)
    ensures |r| > 1 ==> r[0] != '0'
  {
    if n < 10 then [DigitChar(n)] else NatToDecimal(n / 10) + [DigitChar(n % 10)]
  }

  /** The value of a string of decimal digits (leading zeros allowed). */
  function DecimalToNat(ds: string): nat
    requires AllDigits(ds)
  {
    if ds == [] then 0 else 10 * DecimalToNat(ds[..|ds| - 1]) + (ds[|ds| - 1] as int - '0' as int)
  }

  lemma {:induction false} DecimalRoundTrip(n: nat)
    ensures DecimalToNat(NatToDecimal(n)) == n
  {
    if n >= 10 {
      var ds := NatToDecimal(n);
      assert ds[..|ds| - 1] == NatToDecimal(n / 10);
      DecimalRoundTrip(n / 10);
    }
  }

  /** `Number.prototype.toString` on an integer value: an optional minus sign followed by decimal digits. */
  function IntToString(n: int): (r: string)
    ensures |r| > 0
    ensures forall i :: 0 <= i < |r| ==> !IsWhitespace(r[i])
    ensures n >= 0 ==> AllDigits(r)
    ensures n < 0 ==> r[0] == '-' && AllDigits(r[1..])
  {
    if n < 0 then "-" + NatToDecimal(-n) else NatToDecimal(n)
  }

  /**
   * The unary `+` applied to a text field's value, for texts that denote an integer:
   * surrounding whitespace is ignored, a blank text is 0, and an optional sign may precede
   * the decimal digits. Any other text gives `None` (a NaN or a non-integer number).
   */
  function ParseInteger(s: string): (r: Option<int>)
    ensures AllWhitespace(s) ==> r == Some(0)
    ensures AllDigits(s) && s != [] ==> r == Some(DecimalToNat(s))
  {
    var t := Trim(s);
    if t == [] then Some(0) else ParseSignedDecimal(t)
  }

  /**
   * A non-blank trimmed text read as an optional sign followed by at least one decimal digit;
   * anything else is `None`.
   */
  function ParseSignedDecimal(t: string): (r: Option<int>)
    requires t != []
    ensures r.Some? <==> AllDigits(t) || (|t| > 1 && (t[0] == '+' || t[0] == '-') && AllDigits(t[1..]))
    ensures AllDigits(t) ==> r == Some(DecimalToNat(t))
    ensures r.Some? && !AllDigits(t) ==>
      r.value == if t[0] == '-' then -(DecimalToNat(t[1..]) as int) else DecimalToNat(t[1..])
  {
    if (t[0] == '+' || t[0] == '-') && |t| > 1 && AllDigits(t[1..]) then
      var magnitude: int := DecimalToNat(t[1..]);
      Some(if t[0] == '-' then -magnitude else magnitude)
    else if AllDigits(t) then Some(DecimalToNat(t))
    else None
  }

  lemma {:induction false} TrimStartOfPadded(pre: string, u: string)
    requires AllWhitespace(pre) && u != [] && !IsWhitespace(u[0])
    ensures TrimStart(pre + u) == u
  {
    if pre != [] {
      assert (pre + u)[1..] == pre[1..] + u;
      TrimStartOfPadded(pre[1..], u);
    }
  }

  lemma {:induction false} TrimEndOfPadded(u: string, post: string)
    requires AllWhitespace(post) && u != [] && !IsWhitespace(u[|u| - 1])
    ensures TrimEnd(u + post) == u
  {
    if post != [] {
      var s := u + post;
      assert s[..|s| - 1] == u + post[..|post| - 1];
      TrimEndOfPadded(u, post[..|post| - 1]);
    }
  }

  /** Whitespace around the text of a number does not change how `+` reads it. */
  lemma ParseIntegerIgnoresPadding(pre: string, t: string, post: string)
    requires AllWhitespace(pre) && AllWhitespace(post)
    requires t != [] && !IsWhitespace(t[0]) && !IsWhitespace(t[|t| - 1])
    ensures ParseInteger(pre + t + post) == ParseSignedDecimal(t)
  {
    var padded := pre + t + post;
    assert padded == pre + (t + post);
    assert (t + post)[0] == t[0];
    TrimStartOfPadded(pre, t + post);
    TrimEndOfPadded(t, post);
    assert Trim(padded) == t;
  }

  /** Reading back the text `toString` gives for an integer yields that integer. */
  lemma ParseIntegerRoundTrip(n: int)
    ensures ParseInteger(IntToString(n)) == Some(n)
  {
    var r := IntToString(n);
    assert !IsWhitespace(r[0]) && !IsWhitespace(r[|r| - 1]);
    assert Trim(r) == r;
    assert ParseInteger(r) == ParseSignedDecimal(r);
    if n < 0 {
      NegativeRoundTrip(-n);
    } else {
      DecimalRoundTrip(n);
    }
  }

  lemma NegativeRoundTrip(m: nat)
    requires m > 0
    ensures ParseSignedDecimal("-" + NatToDecimal(m)) == Some(-(m as int))
  {
    var ds := NatToDecimal(m);
    var t := "-" + ds;
    assert t[0] == '-' && t[1..] == ds;
    DecimalRoundTrip(m);
  }
}
