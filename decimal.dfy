/**
 * Decimal text of integers: how Python prints an `int` (`str(n)`, f-strings) and how
 * Python's `int(text)` reads one back, over ASCII. `int()` is what turns the
 * `recipes_limit` query parameter into a slice bound; printing is what numbers the
 * lines of the shopping list.
 */
module Decimal {
  import opened Wrappers

  predicate IsDigit(c: char)
  {
    '0' <= c <= '9'
  }

  function DigitChar(d: nat): (c: char)
    requires d < 10
    ensures IsDigit(c) && DigitOf(c) == d
  {
    (('0' as int) + d) as char
  }

  function DigitOf(c: char): nat
    requires IsDigit(c)
  {
    (c as int) - ('0' as int)
  }

  /** `str(n)` for a non-negative `n`: digits only, no leading zero. */
  function NatToString(n: nat): (s: string)
    ensures |s| >= 1
    ensures forall i :: 0 <= i < |s| ==> IsDigit(s[i])
    ensures |s| > 1 ==> s[0] != '0'
    decreases n
  {
    if n < 10 then [DigitChar(n)] else NatToString(n / 10) + [DigitChar(n % 10)]
  }

  /** `str(n)` for any integer. */
  function IntToString(n: int): (s: string)
    ensures |s| >= 1
    ensures n < 0 <==> s[0] == '-'
  {
    if n < 0 then "-" + NatToString(-n) else NatToString(n)
  }

  /** The value of a string of decimal digits, most significant first. */
  function DigitsValue(ds: string): nat
    requires forall i :: 0 <= i < |ds| ==> IsDigit(ds[i])
  {
    if ds == [] then 0 else DigitsValue(ds[..|ds| - 1]) * 10 + DigitOf(ds[|ds| - 1])
  }

  lemma {:induction false} DigitsValueOfNatToString(n: nat)
    ensures DigitsValue(NatToString(n)) == n
    decreases n
  {
    if n >= 10 {
      var s := NatToString(n);
      assert s[..|s| - 1] == NatToString(n / 10);
      DigitsValueOfNatToString(n / 10);
    }
  }

  /** The whitespace Python's `int()` skips around a number (the ASCII part of it). */
  predicate IsSpace(c: char)
  {
    c == ' ' || ('\t' <= c <= '\r') || ('\U{1C}' <= c <= '\U{1F}')
  }

  function StripLeft(s: string): (r: string)
    ensures |r| <= |s|
    ensures forall i :: 0 <= i < |r| ==> r[i] == s[|s| - |r| + i]
    ensures r != [] ==> !IsSpace(r[0])
    ensures forall i :: 0 <= i < |s| - |r| ==> IsSpace(s[i])
  {
    if s != [] && IsSpace(s[0]) then StripLeft(s[1..]) else s
  }

  function StripRight(s: string): (r: string)
    ensures |r| <= |s|
    ensures forall i :: 0 <= i < |r| ==> r[i] == s[i]
    ensures r != [] ==> !IsSpace(r[|r| - 1])
    ensures forall i :: |r| <= i < |s| ==> IsSpace(s[i])
  {
    if s != [] && IsSpace(s[|s| - 1]) then StripRight(s[..|s| - 1]) else s
  }

  /** `s.strip()`: the text without its surrounding whitespace. */
  function Strip(s: string): string
  {
    StripRight(StripLeft(s))
  }

  /**
   * The body of a base-10 integer literal as `int()` accepts it: digits, where a single
   * underscore may separate two digits.
   */
  predicate IsDigitGroups(t: string)
  {
    && |t| > 0
    && IsDigit(t[0])
    && IsDigit(t[|t| - 1])
    && (forall i :: 0 <= i < |t| ==> IsDigit(t[i]) || t[i] == '_')
    && NoDoubleUnderscore(t)
  }

  predicate NoDoubleUnderscore(t: string)
  {
    |t| < 2 || (!(t[0] == '_' && t[1] == '_') && NoDoubleUnderscore(t[1..]))
  }

  function DropUnderscores(t: string): (r: string)
    requires forall i :: 0 <= i < |t| ==> IsDigit(t[i]) || t[i] == '_'
    ensures forall i :: 0 <= i < |r| ==> IsDigit(r[i])
  {
    if t == [] then []
    else (if t[0] == '_' then [] else [t[0]]) + DropUnderscores(t[1..])
  }

  function ParseDigitGroups(t: string): Option<nat>
  {
    if IsDigitGroups(t) then Some(DigitsValue(DropUnderscores(t)))
    else None
  }

  /**
   * Python's `int(text)` with the default base: `Some(n)` when the text is an integer
   * literal (optional surrounding whitespace, optional sign, digit groups), `None` where
   * Python raises `ValueError`.
   */
  function ParseInt(s: string): (r: Option<int>)
  {
    ParseLiteral(Strip(s))
  }

  /** An optional sign followed by digit groups, nothing around them. */
  function ParseLiteral(t: string): Option<int>
  {
    if |t| > 0 && IsSign(t[0]) then Signed(t[0] == '-', ParseDigitGroups(t[1..]))
    else Signed(false, ParseDigitGroups(t))
  }

  predicate IsSign(c: char)
  {
    c == '+' || c == '-'
  }

  function Signed(negative: bool, magnitude: Option<nat>): Option<int>
  {
    match magnitude
    case None => None
    case Some(v) => Some(if negative then -(v as int) else v as int)
  }

  /** Printing an integer and reading it back with `int()` gives the integer. */
  lemma {:induction false} ParseIntOfIntToString(n: int)
    ensures ParseInt(IntToString(n)) == Some(n)
  {
    StrippedIntToString(n);
    ParseIntOfStripped(IntToString(n));
    ParseLiteralOfIntToString(n);
  }

  lemma {:induction false} ParseLiteralOfIntToString(n: int)
    ensures ParseLiteral(IntToString(n)) == Some(n)
  {
    if n < 0 {
      assert IntToString(n) == "-" + NatToString(-n);
      ParseLiteralNegative(-n);
    } else {
      ParseLiteralNatural(n);
    }
  }

  lemma ParseIntOfStripped(s: string)
    requires Strip(s) == s
    ensures ParseInt(s) == ParseLiteral(s)
  {
  }

  predicate AllSpace(w: string)
  {
    forall i :: 0 <= i < |w| ==> IsSpace(w[i])
  }

  /** `int()` ignores whitespace around the number: `int(" 7\n") == int("7")`. */
  lemma {:induction false} ParseIntIgnoresSurroundingSpace(w1: string, s: string, w2: string)
    requires AllSpace(w1) && AllSpace(w2)
    ensures ParseInt(w1 + s + w2) == ParseInt(s)
  {
    StripIgnoresSurroundingSpace(w1, s, w2);
  }

  /** `(w1 + s + w2).strip() == s.strip()` when `w1` and `w2` are whitespace. */
  lemma {:induction false} StripIgnoresSurroundingSpace(w1: string, s: string, w2: string)
    requires AllSpace(w1) && AllSpace(w2)
    ensures Strip(w1 + s + w2) == Strip(s)
  {
    assert w1 + s + w2 == w1 + (s + w2);
    StripLeftSkipsSpace(w1, s + w2);
    if StripLeft(s) == [] {
      assert AllSpace(s + w2);
      StripLeftSkipsSpace(s + w2, []);
      assert s + w2 + [] == s + w2;
    } else {
      StripLeftKeepsTail(s, w2);
      StripRightSkipsSpace(StripLeft(s), w2);
    }
  }

  lemma {:induction false} StripLeftSkipsSpace(w: string, t: string)
    requires AllSpace(w)
    ensures StripLeft(w + t) == StripLeft(t)
    decreases |w|
  {
    if w == [] {
      assert w + t == t;
    } else {
      assert (w + t)[0] == w[0];
      assert (w + t)[1..] == w[1..] + t;
      StripLeftSkipsSpace(w[1..], t);
    }
  }

  lemma {:induction false} StripLeftKeepsTail(t: string, w: string)
    requires StripLeft(t) != []
    ensures StripLeft(t + w) == StripLeft(t) + w
    decreases |t|
  {
    assert (t + w)[0] == t[0];
    if IsSpace(t[0]) {
      assert (t + w)[1..] == t[1..] + w;
      StripLeftKeepsTail(t[1..], w);
    }
  }

  lemma {:induction false} StripRightSkipsSpace(u: string, w: string)
    requires AllSpace(w)
    ensures StripRight(u + w) == StripRight(u)
    decreases |w|
  {
    if w == [] {
      assert u + w == u;
    } else {
      var x := u + w;
      assert x[|x| - 1] == w[|w| - 1];
      assert x[..|x| - 1] == u + w[..|w| - 1];
      StripRightSkipsSpace(u, w[..|w| - 1]);
    }
  }

  /** Stripping twice is stripping once: a stripped text has no surrounding whitespace. */
  lemma {:induction false} StripIdempotent(s: string)
    ensures Strip(Strip(s)) == Strip(s)
  {
    var r := Strip(s);
    StripEnds(s);
    StripLeftOfTrimmed(r);
    StripRightOfTrimmed(r);
  }

  /** A stripped text starts and ends with a character that is not whitespace. */
  lemma StripEnds(s: string)
    ensures Strip(s) != [] ==> !IsSpace(Strip(s)[0]) && !IsSpace(Strip(s)[|Strip(s)| - 1])
  {
    var l := StripLeft(s);
    var r := StripRight(l);
    if r != [] {
      assert r[0] == l[0];
    }
  }

  lemma StripLeftOfTrimmed(t: string)
    requires t != [] ==> !IsSpace(t[0])
    ensures StripLeft(t) == t
  {
  }

  lemma StripRightOfTrimmed(t: string)
    requires t != [] ==> !IsSpace(t[|t| - 1])
    ensures StripRight(t) == t
  {
  }

  lemma {:induction false} ParseLiteralNatural(m: nat)
    ensures ParseLiteral(NatToString(m)) == Some(m)
  {
    var s := NatToString(m);
    assert !IsSign(s[0]);
    ParseDigitGroupsOfNatToString(m);
  }

  lemma {:induction false} ParseLiteralNegative(m: nat)
    requires m > 0
    ensures ParseLiteral("-" + NatToString(m)) == Some(-(m as int))
  {
    var s := "-" + NatToString(m);
    assert s[1..] == NatToString(m);
    ParseDigitGroupsOfNatToString(m);
  }

  lemma {:induction false} StrippedIntToString(n: int)
    ensures Strip(IntToString(n)) == IntToString(n)
  {
    var s := IntToString(n);
    forall i | 0 <= i < |s| ensures !IsSpace(s[i]) {
      if n < 0 && i > 0 {
        assert s[i] == NatToString(-n)[i - 1];
      }
    }
    NoSpaceNoStrip(s);
  }

  lemma {:induction false} ParseDigitGroupsOfNatToString(m: nat)
    ensures ParseDigitGroups(NatToString(m)) == Some(m)
  {
    var digits := NatToString(m);
    NoUnderscoreDrop(digits);
    DigitsValueOfNatToString(m);
    DigitsNoDoubleUnderscore(digits);
    assert IsDigitGroups(digits);
  }

  lemma {:induction false} NoSpaceNoStrip(s: string)
    requires forall i :: 0 <= i < |s| ==> !IsSpace(s[i])
    ensures Strip(s) == s
  {
    var l := StripLeft(s);
    assert |l| == |s|;
    var r := StripRight(l);
    assert |r| == |l|;
  }

  lemma {:induction false} DigitsNoDoubleUnderscore(t: string)
    requires forall i :: 0 <= i < |t| ==> IsDigit(t[i])
    ensures NoDoubleUnderscore(t)
  {
    if |t| >= 2 {
      DigitsNoDoubleUnderscore(t[1..]);
    }
  }

  lemma {:induction false} NoUnderscoreDrop(t: string)
    requires forall i :: 0 <= i < |t| ==> IsDigit(t[i])
    ensures DropUnderscores(t) == t
  {
    if t != [] {
      NoUnderscoreDrop(t[1..]);
    }
  }

  /**
   * A character that can be neither whitespace, a sign, a digit nor an underscore makes
   * `int()` fail: such a `recipes_limit` is "not an integer".
   */
  lemma {:induction false} ParseIntRejectsForeignChar(s: string, k: nat)
    requires k < |s|
    requires !IsSpace(s[k]) && !IsDigit(s[k]) && s[k] != '_' && !IsSign(s[k])
    ensures ParseInt(s) == None
  {
    var l := StripLeft(s);
    var t := StripRight(l);
    assert t == Strip(s);
    assert k >= |s| - |l|;
    var kl := k - (|s| - |l|);
    assert l[kl] == s[k];
    assert kl < |t|;
    assert t[kl] == s[k];
    if |t| > 0 && IsSign(t[0]) {
      var u := t[1..];
      assert u[kl - 1] == s[k];
      assert !(IsDigit(u[kl - 1]) || u[kl - 1] == '_');
      assert !IsDigitGroups(u);
    } else {
      assert !(IsDigit(t[kl]) || t[kl] == '_');
      assert !IsDigitGroups(t);
    }
  }
}
