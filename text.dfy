/** The string operations of Go's standard library that the core relies on:
    the `<` order on strings, `strings.Index`, field 1 of `strings.Split`, and
    `%d` formatting of an integer. Strings are sequences of characters; Go
    compares the UTF-8 bytes, which orders strings as comparing code points
    does. */
module Text {
  import opened Wrappers

  /** Go's `a < b` on strings: lexicographic, a proper prefix first. */
  predicate Less(a: string, b: string)
  {
    if |b| == 0 then false
    else if |a| == 0 then true
    else if a[0] != b[0] then a[0] < b[0]
    else Less(a[1..], b[1..])
  }

  lemma {:induction false} LessIrreflexive(a: string)
    ensures !Less(a, a)
  {
    if |a| > 0 {
      LessIrreflexive(a[1..]);
    }
  }

  lemma {:induction false} LessTransitive(a: string, b: string, c: string)
    requires Less(a, b) && Less(b, c)
    ensures Less(a, c)
  {
    if |a| > 0 && a[0] == b[0] && b[0] == c[0] {
      LessTransitive(a[1..], b[1..], c[1..]);
    }
  }

  /** Two different strings are ordered one way or the other. */
  lemma {:induction false} LessTotal(a: string, b: string)
    requires a != b
    ensures Less(a, b) || Less(b, a)
  {
    if |a| > 0 && |b| > 0 && a[0] == b[0] {
      assert a == [a[0]] + a[1..] && b == [b[0]] + b[1..];
      LessTotal(a[1..], b[1..]);
    }
  }

  lemma {:induction false} LessAsymmetric(a: string, b: string)
    requires Less(a, b)
    ensures !Less(b, a)
  {
    if |a| > 0 && a[0] == b[0] {
      LessAsymmetric(a[1..], b[1..]);
    }
  }

  /** `a <= b < c` gives `a < c`. */
  lemma LessMixed(a: string, b: string, c: string)
    requires !Less(b, a) && Less(b, c)
    ensures Less(a, c)
  {
    if a != b {
      LessTotal(a, b);
      LessTransitive(a, b, c);
    }
  }

  /** `a <= b <= c` gives `a <= c`. */
  lemma NotLessTransitive(a: string, b: string, c: string)
    requires !Less(b, a) && !Less(c, b)
    ensures !Less(c, a)
  {
    if a != b && b != c {
      LessTotal(a, b);
      LessTotal(b, c);
      LessTransitive(a, b, c);
      LessAsymmetric(a, c);
    }
  }

  /** `sep` occurs in `s` at position `k`. */
  predicate OccursAt(s: string, sep: string, k: int)
  {
    0 <= k && k + |sep| <= |s| && s[k..k + |sep|] == sep
  }

  /** `strings.Index(s[from..], sep) + from`, or -1: the first occurrence of a
      non-empty separator at or after `from`. */
  function IndexFrom(s: string, sep: string, from: nat): (r: int)
    requires |sep| > 0
    ensures r == -1 || (from <= r && OccursAt(s, sep, r))
    ensures forall k :: from <= k && (r == -1 || k < r) ==> !OccursAt(s, sep, k)
    decreases |s| - from
  {
    if from + |sep| > |s| then -1
    else if s[from..from + |sep|] == sep then from
    else IndexFrom(s, sep, from + 1)
  }

  /** `strings.Index(s, sep)` for a non-empty separator. */
  function Index(s: string, sep: string): (r: int)
    requires |sep| > 0
    ensures r == -1 <==> forall k :: !OccursAt(s, sep, k)
    ensures r != -1 ==> OccursAt(s, sep, r) && forall k :: 0 <= k < r ==> !OccursAt(s, sep, k)
  {
    IndexFrom(s, sep, 0)
  }

  /** `strings.Split(s, sep)[1]`: the text between the first occurrence of
      `sep` and the next one (or the end). `None` when `sep` does not occur,
      where Go's index expression panics. */
  function SplitField1(s: string, sep: string): (r: Option<string>)
    requires |sep| > 0
    ensures r.None? <==> Index(s, sep) == -1
    ensures r.Some? ==>
      var start := Index(s, sep) + |sep|;
      var end := start + |r.value|;
      && end <= |s|
      && r.value == s[start..end]
      && Index(r.value, sep) == -1
      && (end == |s| || OccursAt(s, sep, end))
  {
    var p := Index(s, sep);
    if p == -1 then None
    else
      var rest := s[p + |sep|..];
      var q := Index(rest, sep);
      if q == -1 then
        assert rest == s[p + |sep|..|s|];
        Some(rest)
      else
        FieldBeforeSeparator(s, sep, p + |sep|, q);
        Some(rest[..q])
  }

  /** The text of `s` from `start` up to the first later occurrence of `sep`
      holds no occurrence of `sep` and is followed by one. */
  lemma FieldBeforeSeparator(s: string, sep: string, start: nat, q: nat)
    requires |sep| > 0 && start <= |s|
    requires q == Index(s[start..], sep)
    ensures start + q <= |s|
    ensures s[start..][..q] == s[start..start + q]
    ensures Index(s[start..][..q], sep) == -1
    ensures OccursAt(s, sep, start + q)
  {
    var rest := s[start..];
    assert rest[q..q + |sep|] == s[start + q..start + q + |sep|];
    forall k | OccursAt(rest[..q], sep, k)
      ensures false
    {
      assert rest[..q][k..k + |sep|] == rest[k..k + |sep|];
      assert OccursAt(rest, sep, k);
    }
  }

  function DigitChar(d: nat): char
    requires d < 10
  {
    ['0', '1', '2', '3', '4', '5', '6', '7', '8', '9'][d]
  }

  function DigitValue(c: char): int
  {
    if '0' <= c <= '9' then c as int - '0' as int else -1
  }

  /** The decimal digits of a natural number, most significant first. */
  function Digits(n: nat): (r: string)
    ensures |r| > 0
    ensures forall i :: 0 <= i < |r| ==> 0 <= DigitValue(r[i]) < 10
  {
    if n < 10 then [DigitChar(n)] else Digits(n / 10) + [DigitChar(n % 10)]
  }

  /** `fmt.Sprintf("%d", n)`. */
  function FormatInt(n: int): (r: string)
    ensures |r| > 0
  {
    if n < 0 then "-" + Digits(-n) else Digits(n)
  }

  /** The value of a string of decimal digits. */
  function ParseDigits(s: string): int
  {
    if |s| == 0 then 0 else ParseDigits(s[..|s| - 1]) * 10 + DigitValue(s[|s| - 1])
  }

  /** The inverse of `FormatInt`: an optional minus sign, then digits. */
  function ParseInt(s: string): int
  {
    if |s| > 0 && s[0] == '-' then -ParseDigits(s[1..]) else ParseDigits(s)
  }

  lemma {:induction false} ParseDigitsOfDigits(n: nat)
    ensures ParseDigits(Digits(n)) == n
  {
    if n >= 10 {
      var s := Digits(n);
      assert s[..|s| - 1] == Digits(n / 10);
      ParseDigitsOfDigits(n / 10);
    }
  }

  /** Formatting then parsing gives the number back. */
  lemma FormatIntRoundTrip(n: int)
    ensures ParseInt(FormatInt(n)) == n
  {
    ParseDigitsOfDigits(if n < 0 then -n else n);
    if n < 0 {
      assert ("-" + Digits(-n))[1..] == Digits(-n);
    } else {
      assert DigitValue(Digits(n)[0]) >= 0;
    }
  }

  /** Different numbers are formatted differently. */
  lemma FormatIntInjective(a: int, b: int)
    requires FormatInt(a) == FormatInt(b)
    ensures a == b
  {
    FormatIntRoundTrip(a);
    FormatIntRoundTrip(b);
  }
}
