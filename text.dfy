// The java.lang.String and Long operations the plugin relies on, over
// `seq<char>`. Case conversion covers ASCII letters only.

module Text {
  import opened JavaNum
  import opened Wrappers

  predicate IsDigit(c: char) { '0' <= c <= '9' }

  predicate AllDigits(s: string) { forall i :: 0 <= i < |s| ==> IsDigit(s[i]) }

  function ToLowerChar(c: char): (r: char)
    ensures 'A' <= c <= 'Z' ==> 'a' <= r <= 'z'
    ensures !('A' <= c <= 'Z') ==> r == c
    ensures !('A' <= r <= 'Z')
  {
    if 'A' <= c <= 'Z' then (c as int - 'A' as int + 'a' as int) as char else c
  }

  /** `String.toLowerCase()`, restricted to ASCII letters. */
  function ToLower(s: string): (r: string)
    ensures |r| == |s|
    ensures forall i :: 0 <= i < |s| ==> r[i] == ToLowerChar(s[i])
  {
    seq(|s|, i requires 0 <= i < |s| => ToLowerChar(s[i]))
  }

  function ToUpperChar(c: char): (r: char)
    ensures 'a' <= c <= 'z' ==> 'A' <= r <= 'Z'
    ensures !('a' <= c <= 'z') ==> r == c
  {
    if 'a' <= c <= 'z' then (c as int - 'a' as int + 'A' as int) as char else c
  }

  /** `String.toUpperCase()`, restricted to ASCII letters. */
  function ToUpper(s: string): (r: string)
    ensures |r| == |s|
    ensures forall i :: 0 <= i < |s| ==> r[i] == ToUpperChar(s[i])
  {
    seq(|s|, i requires 0 <= i < |s| => ToUpperChar(s[i]))
  }

  /** A string without upper-case ASCII letters is its own lower case. */
  lemma ToLowerNoUpper(s: string)
    requires forall i :: 0 <= i < |s| ==> !('A' <= s[i] <= 'Z')
    ensures ToLower(s) == s
  {
  }

  lemma ToLowerIdempotent(s: string)
    ensures ToLower(ToLower(s)) == ToLower(s)
  {
  }

  predicate StartsWith(s: string, prefix: string)
  {
    |prefix| <= |s| && s[..|prefix|] == prefix
  }

  predicate EndsWithChar(s: string, c: char)
  {
    |s| > 0 && s[|s| - 1] == c
  }

  /** `String.trim()`: strips every leading and trailing character <= U+0020. */
  function Trim(s: string): (r: string)
    ensures |r| <= |s|
    ensures r == [] || (r[0] > ' ' && r[|r| - 1] > ' ')
    ensures (s == [] || (s[0] > ' ' && s[|s| - 1] > ' ')) ==> r == s
  {
    TrimEnd(TrimStart(s))
  }

  function TrimStart(s: string): (r: string)
    ensures |r| <= |s| && r == s[|s| - |r|..]
    ensures r == [] || r[0] > ' '
  {
    if |s| > 0 && s[0] <= ' ' then TrimStart(s[1..]) else s
  }

  function TrimEnd(s: string): (r: string)
    ensures |r| <= |s| && r == s[..|r|]
    ensures r == [] || r[|r| - 1] > ' '
    ensures |s| > 0 && s[0] > ' ' ==> r != [] && r[0] == s[0]
  {
    if |s| > 0 && s[|s| - 1] <= ' ' then TrimEnd(s[..|s| - 1]) else s
  }

  /** `String.join` with a one-character delimiter. */
  function Join(xs: seq<string>, sep: char): string
  {
    if |xs| == 0 then ""
    else if |xs| == 1 then xs[0]
    else xs[0] + [sep] + Join(xs[1..], sep)
  }

  /** Every piece between occurrences of `sep`, empty pieces included. */
  function SplitAll(s: string, sep: char): (r: seq<string>)
    ensures |r| >= 1
    decreases |s|
  {
    if |s| == 0 then [""]
    else
      var rest := SplitAll(s[1..], sep);
      if s[0] == sep then [""] + rest
      else [[s[0]] + rest[0]] + rest[1..]
  }

  function DropTrailingEmpty(xs: seq<string>): (r: seq<string>)
    ensures |r| <= |xs| && r == xs[..|r|]
    ensures r == [] || r[|r| - 1] != ""
  {
    if |xs| > 0 && xs[|xs| - 1] == "" then DropTrailingEmpty(xs[..|xs| - 1]) else xs
  }

  /** `String.split` on a one-character, non-metacharacter delimiter: without a
      match the result is the whole string, otherwise trailing empty pieces
      are removed. */
  function Split(s: string, sep: char): seq<string>
  {
    if sep !in s then [s] else DropTrailingEmpty(SplitAll(s, sep))
  }

  lemma {:induction false} SplitAllNoSep(x: string, sep: char)
    requires sep !in x
    ensures SplitAll(x, sep) == [x]
    decreases |x|
  {
    if |x| > 0 {
      SplitAllNoSep(x[1..], sep);
      assert [x[0]] + x[1..] == x;
    }
  }

  lemma {:induction false} SplitAllCons(x: string, sep: char, t: string)
    requires sep !in x
    ensures SplitAll(x + [sep] + t, sep) == [x] + SplitAll(t, sep)
    decreases |x|
  {
    if |x| == 0 {
      assert x + [sep] + t == [sep] + t;
      assert ([sep] + t)[1..] == t;
    } else {
      SplitAllCons(x[1..], sep, t);
      assert (x + [sep] + t)[1..] == x[1..] + [sep] + t;
      assert [x[0]] + x[1..] == x;
    }
  }

  /** Joining pieces that are non-empty and free of the delimiter, then
      splitting, gives the pieces back. */
  lemma {:induction false} SplitJoin(xs: seq<string>, sep: char)
    requires |xs| > 0
    requires forall i :: 0 <= i < |xs| ==> xs[i] != "" && sep !in xs[i]
    ensures Split(Join(xs, sep), sep) == xs
  {
    SplitAllJoin(xs, sep);
    if |xs| == 1 {
      assert Join(xs, sep) == xs[0];
    } else {
      assert sep in Join(xs, sep) by {
        assert Join(xs, sep)[|xs[0]|] == sep;
      }
    }
  }

  lemma {:induction false} SplitAllJoin(xs: seq<string>, sep: char)
    requires |xs| > 0
    requires forall i :: 0 <= i < |xs| ==> sep !in xs[i]
    ensures SplitAll(Join(xs, sep), sep) == xs
  {
    if |xs| == 1 {
      SplitAllNoSep(xs[0], sep);
    } else {
      SplitAllJoin(xs[1..], sep);
      SplitAllCons(xs[0], sep, Join(xs[1..], sep));
      assert [xs[0]] + xs[1..] == xs;
    }
  }

  /** `String.replace(target, replacement)`: every occurrence of `target`,
      scanned left to right without overlap, is replaced; an empty target
      inserts the replacement before every character and at the end. */
  function Replace(s: string, target: string, replacement: string): string
    decreases |s|
  {
    if |target| == 0 then
      if |s| == 0 then replacement
      else replacement + [s[0]] + Replace(s[1..], target, replacement)
    else if |s| < |target| then s
    else if s[..|target|] == target then replacement + Replace(s[|target|..], target, replacement)
    else [s[0]] + Replace(s[1..], target, replacement)
  }

  predicate OccursAt(s: string, target: string, i: int)
  {
    0 <= i && i + |target| <= |s| && s[i..i + |target|] == target
  }

  predicate Occurs(s: string, target: string)
  {
    exists i :: 0 <= i <= |s| && OccursAt(s, target, i)
  }

  /** Replacing a target that does not occur changes nothing. */
  lemma {:induction false} ReplaceAbsent(s: string, target: string, replacement: string)
    requires |target| > 0 && !Occurs(s, target)
    ensures Replace(s, target, replacement) == s
    decreases |s|
  {
    if |s| >= |target| {
      assert s[0..0 + |target|] == s[..|target|];
      assert !OccursAt(s, target, 0);
      if !Occurs(s[1..], target) {
        ReplaceAbsent(s[1..], target, replacement);
        assert [s[0]] + s[1..] == s;
      } else {
        var i :| 0 <= i <= |s[1..]| && OccursAt(s[1..], target, i);
        assert 0 <= i && i + |target| <= |s[1..]| && s[1..][i..i + |target|] == target;
        assert s[i + 1..i + 1 + |target|] == s[1..][i..i + |target|];
        assert OccursAt(s, target, i + 1);
        assert false;
      }
    }
  }

  /** A string without "{" holds no placeholder starting with "{". */
  lemma NoBraceNoPlaceholder(s: string, p: string)
    requires |p| > 0 && p[0] == '{' && !Occurs(s, "{")
    ensures !Occurs(s, p)
  {
    if Occurs(s, p) {
      var i :| 0 <= i <= |s| && OccursAt(s, p, i);
      assert s[i..i + 1] == "{";
      assert OccursAt(s, "{", i);
    }
  }

  /** The target alone is replaced by the replacement alone. */
  lemma ReplaceWhole(target: string, replacement: string)
    requires |target| > 0
    ensures Replace(target, target, replacement) == replacement
  {
    assert target[|target|..] == "";
  }

  function Repeat(s: string, n: nat): (r: string)
    ensures |r| == n * |s|
  {
    if n == 0 then "" else s + Repeat(s, n - 1)
  }

  function DigitValue(c: char): nat
    requires IsDigit(c)
  {
    c as int - '0' as int
  }

  function DigitChar(d: nat): (c: char)
    requires d < 10
    ensures IsDigit(c) && DigitValue(c) == d
  {
    ('0' as int + d) as char
  }

  /** The value of a string of decimal digits, most significant first. */
  function DigitsValue(s: string): nat
    requires AllDigits(s)
  {
    if |s| == 0 then 0 else DigitsValue(s[..|s| - 1]) * 10 + DigitValue(s[|s| - 1])
  }

  /** Decimal digits of a natural number, without leading zeros. */
  function NatToString(n: nat): (r: string)
    ensures |r| > 0 && AllDigits(r)
  {
    if n < 10 then [DigitChar(n)] else NatToString(n / 10) + [DigitChar(n % 10)]
  }

  /** `Long.toString` / `String.valueOf(long)`. */
  function IntToString(n: int): (r: string)
    ensures |r| > 0
    ensures n >= 0 ==> AllDigits(r)
    ensures n < 0 ==> r[0] == '-' && AllDigits(r[1..]) && |r| > 1
  {
    if n < 0 then "-" + NatToString(-n) else NatToString(n)
  }

  lemma {:induction false} NatToStringValue(n: nat)
    ensures DigitsValue(NatToString(n)) == n
  {
    var r := NatToString(n);
    if n >= 10 {
      NatToStringValue(n / 10);
      assert r[..|r| - 1] == NatToString(n / 10);
    }
  }

  /** Java's parse of a signed decimal integer (`Long.parseLong` when the
      bounds are the long range, `Integer.parseInt` for the int range): an
      optional sign, at least one digit, only digits, and a value within
      bounds; anything else is a NumberFormatException, here None. */
  function ParseDecimal(s: string, lo: int, hi: int): (r: Option<int>)
    ensures r.Some? ==> lo <= r.value <= hi
    ensures r.Some? ==> |s| > 0
  {
    if |s| == 0 then None
    else
      var negative := s[0] == '-';
      var digits := if s[0] == '-' || s[0] == '+' then s[1..] else s;
      if |digits| == 0 || !AllDigits(digits) then None
      else
        var v: int := if negative then -(DigitsValue(digits) as int) else DigitsValue(digits);
        if lo <= v <= hi then Some(v) else None
  }

  function ParseLong(s: string): (r: Option<int>)
    ensures r.Some? ==> InLongRange(r.value)
  {
    ParseDecimal(s, LONG_MIN, LONG_MAX)
  }

  function ParseInt(s: string): (r: Option<int>)
    ensures r.Some? ==> InIntRange(r.value)
  {
    ParseDecimal(s, INT_MIN, INT_MAX)
  }

  /** Printing a number and parsing it back gives the number. */
  lemma ParseIntToString(n: int, lo: int, hi: int)
    requires lo <= n <= hi
    ensures ParseDecimal(IntToString(n), lo, hi) == Some(n)
  {
    if n < 0 {
      ParseNegativeToString(n, lo, hi);
    } else {
      NatToStringValue(n);
      var digits := NatToString(n);
      assert IntToString(n) == digits && digits[0] != '-' && digits[0] != '+';
    }
  }

  lemma ParseNegativeToString(n: int, lo: int, hi: int)
    requires lo <= n <= hi && n < 0
    ensures ParseDecimal(IntToString(n), lo, hi) == Some(n)
  {
    var digits := NatToString(-n);
    NatToStringValue(-n);
    assert IntToString(n) == "-" + digits;
    assert ("-" + digits)[1..] == digits;
  }

  /** A parse only succeeds on text containing a digit. */
  lemma ParseNeedsDigit(s: string, lo: int, hi: int)
    requires ParseDecimal(s, lo, hi).Some?
    ensures |s| > 0 && IsDigit(s[|s| - 1])
  {
  }
}
