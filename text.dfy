/**
 * Text operations the shopping-list report relies on: Python's `str.capitalize`, joining
 * lines with a separator (`'\n'.join(...)`) and splitting them back (`str.split`), and the
 * code-point order of strings used to sort the report.
 */
module Text {

  /** Letters with a case mapping in this model: ASCII and the basic Cyrillic block. */
  predicate IsLowerLetter(c: char)
  {
    ('a' <= c <= 'z') || ('\U{0430}' <= c <= '\U{045F}')
  }

  predicate IsUpperLetter(c: char)
  {
    ('A' <= c <= 'Z') || ('\U{0400}' <= c <= '\U{042F}')
  }

  function Upper(c: char): (u: char)
    ensures IsLowerLetter(c) ==> IsUpperLetter(u)
    ensures !IsLowerLetter(c) ==> u == c
  {
    if 'a' <= c <= 'z' then ((c as int) - 32) as char
    else if '\U{0430}' <= c <= '\U{044F}' then ((c as int) - 32) as char
    else if '\U{0450}' <= c <= '\U{045F}' then ((c as int) - 80) as char
    else c
  }

  function Lower(c: char): (l: char)
    ensures IsUpperLetter(c) ==> IsLowerLetter(l)
    ensures !IsUpperLetter(c) ==> l == c
  {
    if 'A' <= c <= 'Z' then ((c as int) + 32) as char
    else if '\U{0410}' <= c <= '\U{042F}' then ((c as int) + 32) as char
    else if '\U{0400}' <= c <= '\U{040F}' then ((c as int) + 80) as char
    else c
  }

  /** Case mapping round-trips on letters and never turns a non-letter into another character. */
  lemma CaseRoundTrip(c: char)
    ensures IsLowerLetter(c) ==> Lower(Upper(c)) == c
    ensures IsUpperLetter(c) ==> Upper(Lower(c)) == c
    ensures Upper(Upper(c)) == Upper(c) && Lower(Lower(c)) == Lower(c)
  {
  }

  function LowerAll(s: string): (r: string)
    ensures |r| == |s|
    ensures forall i :: 0 <= i < |s| ==> r[i] == Lower(s[i])
  {
    if s == [] then [] else [Lower(s[0])] + LowerAll(s[1..])
  }

  /** `s.capitalize()`: the first character upper-cased and every other one lower-cased. */
  function Capitalize(s: string): (r: string)
    ensures |r| == |s|
    ensures s != [] ==> r[0] == Upper(s[0])
    ensures forall i :: 1 <= i < |s| ==> r[i] == Lower(s[i])
  {
    if s == [] then [] else [Upper(s[0])] + LowerAll(s[1..])
  }

  lemma CapitalizeIdempotent(s: string)
    ensures Capitalize(Capitalize(s)) == Capitalize(s)
  {
    var c := Capitalize(s);
    var cc := Capitalize(c);
    forall i | 0 <= i < |s| ensures cc[i] == c[i] {
      CaseRoundTrip(s[i]);
    }
  }

  /** Capitalising neither adds nor removes a character `sep` that is not a letter. */
  lemma CapitalizeKeepsNonLetter(s: string, sep: char)
    requires !IsLowerLetter(sep) && !IsUpperLetter(sep)
    ensures sep in Capitalize(s) <==> sep in s
  {
    var r := Capitalize(s);
    forall i | 0 <= i < |s| ensures (r[i] == sep) == (s[i] == sep) {
      if i == 0 {
        assert r[i] == Upper(s[i]);
      } else {
        assert r[i] == Lower(s[i]);
      }
    }
    if sep in r {
      var i :| 0 <= i < |r| && r[i] == sep;
      assert s[i] == sep;
    }
    if sep in s {
      var i :| 0 <= i < |s| && s[i] == sep;
      assert r[i] == sep;
    }
  }

  /** `sep.join(parts)`. */
  function Join(parts: seq<string>, sep: char): string
  {
    if parts == [] then ""
    else if |parts| == 1 then parts[0]
    else parts[0] + [sep] + Join(parts[1..], sep)
  }

  /** `s.split(sep)`: the pieces between separators; always at least one piece. */
  function Split(s: string, sep: char): (pieces: seq<string>)
    ensures |pieces| >= 1
  {
    if s == [] then [""]
    else
      var rest := Split(s[1..], sep);
      if s[0] == sep then [""] + rest else [[s[0]] + rest[0]] + rest[1..]
  }

  lemma {:induction false} SplitWithoutSeparator(s: string, sep: char)
    requires sep !in s
    ensures Split(s, sep) == [s]
  {
    if s != [] {
      SplitWithoutSeparator(s[1..], sep);
      assert [s[0]] + s[1..] == s;
    }
  }

  lemma {:induction false} SplitAtFirstSeparator(a: string, b: string, sep: char)
    requires sep !in a
    ensures Split(a + [sep] + b, sep) == [a] + Split(b, sep)
  {
    if a == [] {
      assert a + [sep] + b == [sep] + b;
      assert ([sep] + b)[1..] == b;
    } else {
      assert (a + [sep] + b)[1..] == a[1..] + [sep] + b;
      SplitAtFirstSeparator(a[1..], b, sep);
      assert [a[0]] + a[1..] == a;
    }
  }

  /** Splitting a join gives back the parts, when no part contains the separator. */
  lemma {:induction false} SplitJoin(parts: seq<string>, sep: char)
    requires |parts| >= 1
    requires forall i :: 0 <= i < |parts| ==> sep !in parts[i]
    ensures Split(Join(parts, sep), sep) == parts
  {
    if |parts| == 1 {
      SplitWithoutSeparator(parts[0], sep);
    } else {
      SplitJoin(parts[1..], sep);
      SplitAtFirstSeparator(parts[0], Join(parts[1..], sep), sep);
    }
  }

  /** Strict code-point (lexicographic) order on strings. */
  predicate Less(a: string, b: string)
  {
    if a == [] then b != []
    else if b == [] then false
    else a[0] < b[0] || (a[0] == b[0] && Less(a[1..], b[1..]))
  }

  lemma {:induction false} LessIrreflexive(a: string)
    ensures !Less(a, a)
  {
    if a != [] {
      LessIrreflexive(a[1..]);
    }
  }

  lemma {:induction false} LessTransitive(a: string, b: string, c: string)
    requires Less(a, b) && Less(b, c)
    ensures Less(a, c)
  {
    if a != [] && b != [] && c != [] && a[0] == b[0] && b[0] == c[0] {
      LessTransitive(a[1..], b[1..], c[1..]);
    }
  }

  lemma {:induction false} LessTotal(a: string, b: string)
    ensures a == b || Less(a, b) || Less(b, a)
  {
    if a != [] && b != [] && a[0] == b[0] {
      LessTotal(a[1..], b[1..]);
      if a[1..] == b[1..] {
        assert a == [a[0]] + a[1..] && b == [b[0]] + b[1..];
      }
    }
  }

  lemma {:induction false} LessAsymmetric(a: string, b: string)
    requires Less(a, b)
    ensures !Less(b, a)
  {
    if Less(b, a) {
      LessTransitive(a, b, a);
      LessIrreflexive(a);
    }
  }
}
