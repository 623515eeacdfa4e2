/**
 * String helpers shared by the content pipeline, the feeds and the view counter:
 * the whitespace class of JavaScript regular expressions (`\s`) and of
 * `String.prototype.trim`, trimming, `Array.prototype.join`, JavaScript
 * truthiness of optional strings, and decimal rendering of whole numbers.
 */
module Text {
  import opened Wrappers

  /** The characters that `\s` matches and that `trim` removes. */
  predicate IsSpace(c: char) {
    || c == ' ' || c == '\t' || c == '\n' || c == '\U{000B}' || c == '\U{000C}' || c == '\r'
    || c == '\U{00A0}' || c == '\U{1680}' || ('\U{2000}' <= c <= '\U{200A}')
    || c == '\U{2028}' || c == '\U{2029}' || c == '\U{202F}' || c == '\U{205F}'
    || c == '\U{3000}' || c == '\U{FEFF}'
  }

  predicate AllSpace(s: string) {
    forall i :: 0 <= i < |s| ==> IsSpace(s[i])
  }

  predicate NoSpace(s: string) {
    forall i :: 0 <= i < |s| ==> !IsSpace(s[i])
  }

  /** A JavaScript value `x` of type `string | undefined` used as a condition. */
  predicate Truthy(o: Option<string>) {
    o.Some? && o.value != ""
  }

  /** `s.startsWith(p)`, stated character by character. */
  predicate StartsWith(s: string, p: string) {
    |p| <= |s| && forall i :: 0 <= i < |p| ==> s[i] == p[i]
  }

  /** A text starts with whatever it was built from. */
  lemma StartsWithAppend(p: string, r: string)
    ensures StartsWith(p + r, p)
  {
    assert forall i :: 0 <= i < |p| ==> (p + r)[i] == p[i];
  }

  /** Drops the leading run of whitespace (`trimStart`). */
  function TrimStart(s: string): (r: string)
    ensures |r| <= |s|
    ensures r == [] || !IsSpace(r[0])
    ensures s != [] && IsSpace(s[0]) ==> |r| < |s|
    ensures s == [] || !IsSpace(s[0]) ==> r == s
  {
    if s != [] && IsSpace(s[0]) then TrimStart(s[1..]) else s
  }

  /** Drops the trailing run of whitespace (`trimEnd`). */
  function TrimEnd(s: string): (r: string)
    ensures |r| <= |s| && r == s[..|r|]
    ensures AllSpace(s[|r|..])
    ensures r == [] || !IsSpace(r[|r| - 1])
  {
    if s != [] && IsSpace(s[|s| - 1]) then
      var t := s[..|s| - 1];
      var r := TrimEnd(t);
      assert s[..|r|] == t[..|r|] && s[|r|..] == t[|r|..] + [s[|s| - 1]];
      r
    else s
  }

  /** TrimStart keeps a suffix. */
  lemma {:induction false} TrimStartSuffix(s: string)
    ensures TrimStart(s) == s[|s| - |TrimStart(s)|..]
    decreases |s|
  {
    if s != [] && IsSpace(s[0]) {
      TrimStartSuffix(s[1..]);
      assert s[1..][|s| - 1 - |TrimStart(s)|..] == s[|s| - |TrimStart(s)|..];
    }
  }

  /** What TrimStart drops is whitespace. */
  lemma {:induction false} TrimStartDropsSpaces(s: string)
    ensures AllSpace(s[..|s| - |TrimStart(s)|])
    decreases |s|
  {
    if s != [] && IsSpace(s[0]) {
      TrimStartDropsSpaces(s[1..]);
      var k := |s| - |TrimStart(s)|;
      assert s[..k] == [s[0]] + s[1..][..k - 1];
    }
  }

  /** `s.trim()` */
  function Trim(s: string): (r: string)
    ensures r == [] || (!IsSpace(r[0]) && !IsSpace(r[|r| - 1]))
  {
    TrimEnd(TrimStart(s))
  }

  lemma TrimEmptyIff(s: string)
    ensures Trim(s) == "" <==> AllSpace(s)
  {
    var t := TrimStart(s);
    TrimStartSuffix(s);
    if t != [] {
      assert !IsSpace(s[|s| - |t|]);
      assert t[0..] == t;
    } else {
      TrimStartDropsSpaces(s);
      assert s[..|s|] == s;
    }
  }

  /** Trimming twice is trimming once. */
  lemma TrimIdempotent(s: string)
    ensures Trim(Trim(s)) == Trim(s)
  {
    var t := Trim(s);
    assert TrimStart(t) == t;
  }

  /** TrimStart skips a whitespace prefix and stops at the first other character. */
  lemma {:induction false} TrimStartSpacesThen(p: string, y: string)
    requires AllSpace(p)
    requires y == [] || !IsSpace(y[0])
    ensures TrimStart(p + y) == y
  {
    if p != [] {
      assert (p + y)[1..] == p[1..] + y;
      TrimStartSpacesThen(p[1..], y);
    }
  }

  /** TrimEnd drops a whitespace suffix and stops at the last other character. */
  lemma {:induction false} TrimEndThenSpaces(y: string, p: string)
    requires AllSpace(p)
    requires y == [] || !IsSpace(y[|y| - 1])
    ensures TrimEnd(y + p) == y
  {
    if p != [] {
      assert (y + p)[..|y + p| - 1] == y + p[..|p| - 1];
      TrimEndThenSpaces(y, p[..|p| - 1]);
    }
  }

  /** `parts.join(sep)` */
  function Join(parts: seq<string>, sep: string): string
    decreases |parts|
  {
    if |parts| == 0 then ""
    else if |parts| == 1 then parts[0]
    else parts[0] + sep + Join(parts[1..], sep)
  }

  /** Joining the concatenation of two non-empty lists puts one separator between the halves. */
  lemma {:induction false} JoinAppend(p: seq<string>, q: seq<string>, sep: string)
    requires p != [] && q != []
    ensures Join(p + q, sep) == Join(p, sep) + sep + Join(q, sep)
  {
    if |p| == 1 {
      assert (p + q)[1..] == q;
    } else {
      assert (p + q)[1..] == p[1..] + q;
      JoinAppend(p[1..], q, sep);
    }
  }

  /** Joining with the empty separator is plain concatenation, and it distributes over `+`. */
  lemma {:induction false} JoinEmptySepAppend(p: seq<string>, q: seq<string>)
    ensures Join(p + q, "") == Join(p, "") + Join(q, "")
  {
    if p == [] {
      assert p + q == q;
    } else if q == [] {
      assert p + q == p;
    } else {
      JoinAppend(p, q, "");
    }
  }

  /** The parts of a template string, concatenated in order. */
  function Concat(parts: seq<string>): string
    decreases |parts|
  {
    if parts == [] then "" else parts[0] + Concat(parts[1..])
  }

  /** `parts.join("")` is the concatenation of the parts. */
  lemma {:induction false} ConcatIsJoin(parts: seq<string>)
    ensures Join(parts, "") == Concat(parts)
    decreases |parts|
  {
    if |parts| == 1 {
      assert Concat(parts[1..]) == "";
    } else if |parts| > 1 {
      ConcatIsJoin(parts[1..]);
    }
  }

  /** Peeling part `k` off the tail of a template from part `k` on, followed by `rest`. */
  lemma ConcatDrop(parts: seq<string>, k: nat, rest: string)
    requires k < |parts|
    ensures Concat(parts[k..]) + rest == parts[k] + (Concat(parts[k + 1..]) + rest)
  {
    assert parts[k..][1..] == parts[k + 1..];
  }

  /** A template's text starts with its first three parts. */
  lemma ConcatStartsWith3(parts: seq<string>)
    requires |parts| >= 3
    ensures StartsWith(Concat(parts), parts[0] + parts[1] + parts[2])
  {
    var rest := Concat(parts[3..]);
    ConcatFirstThree(parts);
    Regroup3(parts[0], parts[1], parts[2], rest);
    StartsWithAppend(parts[0] + parts[1] + parts[2], rest);
  }

  lemma ConcatFirstThree(parts: seq<string>)
    requires |parts| >= 3
    ensures Concat(parts) == parts[0] + (parts[1] + (parts[2] + Concat(parts[3..])))
  {
    var t1, t2 := parts[1..], parts[2..];
    assert t1[0] == parts[1] && t1[1..] == t2;
    assert t2[0] == parts[2] && t2[1..] == parts[3..];
    assert Concat(parts) == parts[0] + Concat(t1);
    assert Concat(t1) == parts[1] + Concat(t2);
    assert Concat(t2) == parts[2] + Concat(parts[3..]);
  }

  /** The four pieces of `a + (b + (c + d))` are found back at their offsets. */
  lemma Segments4(a: string, b: string, c: string, d: string)
    ensures var s, i, j, k := a + (b + (c + d)), |a|, |a| + |b|, |a| + |b| + |c|;
      && |s| == k + |d| && s[i..] == b + (c + d)
      && s[i..j] == b && s[j..k] == c && s[k..] == d
  {
    var s := a + (b + (c + d));
    assert s[|a|..] == b + (c + d);
    assert (b + (c + d))[|b|..] == c + d;
  }

  lemma Assoc(x: string, y: string, z: string)
    ensures x + (y + z) == x + y + z
  {}

  lemma Regroup3(a: string, b: string, c: string, rest: string)
    ensures a + (b + (c + rest)) == a + b + c + rest
  {
  }

  /** A list of strings none of which is empty. */
  predicate AllNonEmpty(parts: seq<string>) {
    forall i :: 0 <= i < |parts| ==> parts[i] != ""
  }

  /** `parts.filter(Boolean)`: the non-empty strings, in order. */
  function NonEmpty(parts: seq<string>): (r: seq<string>)
    ensures AllNonEmpty(r) && |r| <= |parts|
    ensures forall x :: x in r <==> x in parts && x != ""
    decreases |parts|
  {
    if parts == [] then []
    else if parts[0] == "" then NonEmpty(parts[1..])
    else [parts[0]] + NonEmpty(parts[1..])
  }

  lemma {:induction false} NonEmptyAppend(p: seq<string>, q: seq<string>)
    ensures NonEmpty(p + q) == NonEmpty(p) + NonEmpty(q)
  {
    if p == [] {
      assert p + q == q;
    } else {
      assert (p + q)[1..] == p[1..] + q;
      NonEmptyAppend(p[1..], q);
    }
  }

  /** Joining non-empty strings gives the empty string exactly when there is nothing to join. */
  lemma {:induction false} JoinNonEmptyIsEmpty(parts: seq<string>, sep: string)
    requires AllNonEmpty(parts)
    ensures Join(parts, sep) == "" <==> parts == []
  {
    if |parts| >= 2 {
      assert |Join(parts, sep)| >= |parts[0]| > 0;
    } else if |parts| == 1 {
      assert parts[0] != "";
    }
  }

  /** `parts.filter(Boolean).join(sep)` is empty exactly when every part is. */
  lemma JoinNonEmptyIsEmptyIff(parts: seq<string>, sep: string)
    ensures Join(NonEmpty(parts), sep) == "" <==> forall i :: 0 <= i < |parts| ==> parts[i] == ""
  {
    var r := NonEmpty(parts);
    JoinNonEmptyIsEmpty(r, sep);
    if r != [] {
      assert r[0] in parts && r[0] != "";
    } else {
      forall i | 0 <= i < |parts|
        ensures parts[i] == ""
      {
        assert parts[i] !in r;
      }
    }
  }

  /** The two strings joined by `sep`, leaving out whichever is empty. */
  function Glue(x: string, y: string, sep: string): (r: string) {
    if x == "" then y else if y == "" then x else x + sep + y
  }

  /** `parts.filter(Boolean).join(sep)` of a concatenation is the glue of the two halves. */
  lemma JoinNonEmptyAppend(p: seq<string>, q: seq<string>, sep: string)
    ensures Join(NonEmpty(p + q), sep) == Glue(Join(NonEmpty(p), sep), Join(NonEmpty(q), sep), sep)
  {
    NonEmptyAppend(p, q);
    var a, b := NonEmpty(p), NonEmpty(q);
    JoinNonEmptyIsEmpty(a, sep);
    JoinNonEmptyIsEmpty(b, sep);
    if a == [] {
      assert a + b == b;
    } else if b == [] {
      assert a + b == a;
    } else {
      JoinAppend(a, b, sep);
    }
  }

  function DigitChar(d: nat): char
    requires d < 10
  {
    "0123456789"[d]
  }

  predicate IsDigit(c: char) {
    '0' <= c <= '9'
  }

  function DigitValue(c: char): nat
    requires IsDigit(c)
  {
    (c - '0') as nat
  }

  /** The decimal numeral JavaScript produces for a whole number below 10^21 in a template string. */
  function Decimal(n: nat): (s: string)
    ensures |s| >= 1 && (forall i :: 0 <= i < |s| ==> IsDigit(s[i]))
    ensures s[0] == '0' ==> n == 0
    decreases n
  {
    if n < 10 then [DigitChar(n)] else Decimal(n / 10) + [DigitChar(n % 10)]
  }

  /** Reads a string of decimal digits back as a number. */
  function ParseDecimal(s: string): nat
    requires forall i :: 0 <= i < |s| ==> IsDigit(s[i])
    decreases |s|
  {
    if s == [] then 0 else ParseDecimal(s[..|s| - 1]) * 10 + DigitValue(s[|s| - 1])
  }

  /** The leading run of decimal digits. */
  function LeadingDigits(s: string): string
    decreases |s|
  {
    if s != [] && IsDigit(s[0]) then [s[0]] + LeadingDigits(s[1..]) else []
  }

  /** A numeral followed by a non-digit is recovered as the leading digits. */
  lemma {:induction false} LeadingDigitsOf(d: string, r: string)
    requires forall i :: 0 <= i < |d| ==> IsDigit(d[i])
    requires r == [] || !IsDigit(r[0])
    ensures LeadingDigits(d + r) == d
    decreases |d|
  {
    if d == [] {
      assert d + r == r;
    } else {
      assert (d + r)[1..] == d[1..] + r;
      LeadingDigitsOf(d[1..], r);
    }
  }

  /** A numeral between a prefix and a text that opens with a non-digit is found back after the prefix. */
  lemma NumeralBetween(prefix: string, digits: string, middle: string, rest: string)
    requires forall i :: 0 <= i < |digits| ==> IsDigit(digits[i])
    requires middle != [] && !IsDigit(middle[0])
    ensures var s, i, j, k := prefix + (digits + (middle + rest)), |prefix|, |prefix| + |digits|, |prefix| + |digits| + |middle|;
      && StartsWith(s, prefix) && LeadingDigits(s[i..]) == digits
      && |s| == k + |rest| && s[i..j] == digits && s[j..k] == middle && s[k..] == rest
  {
    Segments4(prefix, digits, middle, rest);
    LeadingDigitsOf(digits, middle + rest);
    StartsWithAppend(prefix, digits + (middle + rest));
  }

  /** The numeral determines the number: reading it back gives it. */
  lemma {:induction false} DecimalRoundTrip(n: nat)
    ensures ParseDecimal(Decimal(n)) == n
  {
    if n >= 10 {
      var s := Decimal(n);
      assert s[..|s| - 1] == Decimal(n / 10);
      DecimalRoundTrip(n / 10);
    }
  }

  lemma DecimalInjective(m: nat, n: nat)
    ensures Decimal(m) == Decimal(n) <==> m == n
  {
    DecimalRoundTrip(m);
    DecimalRoundTrip(n);
  }
}
