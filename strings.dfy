/**
 * The parts of .NET's string and integer semantics that the map server's
 * code relies on: white-space tests, ASCII case mapping, `string.Replace`,
 * `int.ToString()` and `int.TryParse`.
 */
module Strings {
  import opened Wrappers

  /** `char.IsWhiteSpace`: the characters of Unicode's White_Space property. */
  predicate IsWhiteSpace(c: char) {
    c == ' ' || ('\t' <= c <= '\r') || c == '\U{85}' || c == '\U{A0}' || c == '\U{1680}'
    || ('\U{2000}' <= c <= '\U{200A}') || c == '\U{2028}' || c == '\U{2029}'
    || c == '\U{202F}' || c == '\U{205F}' || c == '\U{3000}'
  }

  /** `string.IsNullOrWhiteSpace` on a non-null string: empty or white space only. */
  predicate IsNullOrWhiteSpace(s: string) {
    forall i :: 0 <= i < |s| ==> IsWhiteSpace(s[i])
  }

  predicate IsUpperAscii(c: char) { 'A' <= c <= 'Z' }

  predicate IsLowerAscii(c: char) { 'a' <= c <= 'z' }

  function ToLowerChar(c: char): char {
    if IsUpperAscii(c) then (c as int + 32) as char else c
  }

  function ToUpperChar(c: char): char {
    if IsLowerAscii(c) then (c as int - 32) as char else c
  }

  /** `string.ToLower()`, restricted to the ASCII letters. */
  function ToLower(s: string): (r: string)
    ensures |r| == |s|
    ensures forall i :: 0 <= i < |r| ==> !IsUpperAscii(r[i]) && ToUpperChar(r[i]) == ToUpperChar(s[i])
  {
    seq(|s|, i requires 0 <= i < |s| => ToLowerChar(s[i]))
  }

  /** Ordinal, case-insensitive character equality (ASCII case folding). */
  predicate EqualsIgnoreCase(a: char, b: char) {
    ToUpperChar(a) == ToUpperChar(b)
  }

  /** `s.StartsWith(prefix, StringComparison.OrdinalIgnoreCase)`, folding ASCII letters only. */
  predicate StartsWithIgnoreCase(s: string, prefix: string) {
    |prefix| <= |s| && forall i :: 0 <= i < |prefix| ==> EqualsIgnoreCase(s[i], prefix[i])
  }

  /** `pat` occurs in `s` starting at index `k`. */
  predicate OccursAt(s: string, pat: string, k: int) {
    0 <= k && k + |pat| <= |s| && s[k..k + |pat|] == pat
  }

  /** `s.Contains(pat)`. */
  predicate Contains(s: string, pat: string) {
    exists k | 0 <= k <= |s| :: OccursAt(s, pat, k)
  }

  /**
   * `s.Replace(pat, rep)`: every non-overlapping occurrence of `pat`, scanning
   * left to right, is replaced by `rep`. (.NET refuses an empty `pat`.)
   */
  function ReplaceAll(s: string, pat: string, rep: string): string
    requires |pat| > 0
    decreases |s|
  {
    if |s| < |pat| then s
    else if s[..|pat|] == pat then rep + ReplaceAll(s[|pat|..], pat, rep)
    else [s[0]] + ReplaceAll(s[1..], pat, rep)
  }

  /** Dropping the first character shifts every occurrence one place to the left. */
  lemma OccursAtTail(s: string, pat: string, k: int)
    requires |s| > 0 && k >= 0
    ensures OccursAt(s[1..], pat, k) <==> OccursAt(s, pat, k + 1)
  {
    if 0 <= k && k + |pat| <= |s[1..]| {
      assert s[1..][k..k + |pat|] == s[k + 1..k + 1 + |pat|];
    }
  }

  /** A string in which `pat` does not occur is left as it is. */
  lemma {:induction false} ReplaceAllAbsent(s: string, pat: string, rep: string)
    requires |pat| > 0 && !Contains(s, pat)
    ensures ReplaceAll(s, pat, rep) == s
  {
    if |s| >= |pat| {
      assert !OccursAt(s, pat, 0);
      assert s[0..|pat|] == s[..|pat|];
      forall k ensures !OccursAt(s[1..], pat, k) {
        if k >= 0 { OccursAtTail(s, pat, k); }
      }
      ReplaceAllAbsent(s[1..], pat, rep);
    }
  }

  /**
   * In `p + pat + t`, where `pat` starts nowhere inside `p`, the occurrence
   * right after `p` is the first one and becomes `rep`.
   */
  lemma {:induction false} ReplaceAllFirstOccurrence(p: string, pat: string, rep: string, t: string)
    requires |pat| > 0
    requires forall k :: 0 <= k < |p| ==> !OccursAt(p + pat, pat, k)
    ensures ReplaceAll(p + pat + t, pat, rep) == p + rep + ReplaceAll(t, pat, rep)
  {
    var s := p + pat + t;
    if p == [] {
      assert s[..|pat|] == pat;
      assert s[|pat|..] == t;
    } else {
      assert !OccursAt(p + pat, pat, 0);
      assert s[..|pat|] == (p + pat)[0..|pat|];
      assert s[1..] == p[1..] + pat + t;
      assert (p + pat)[1..] == p[1..] + pat;
      forall k | 0 <= k < |p[1..]|
        ensures !OccursAt(p[1..] + pat, pat, k)
      {
        OccursAtTail(p + pat, pat, k);
      }
      ReplaceAllFirstOccurrence(p[1..], pat, rep, t);
      assert [s[0]] + (p[1..] + rep + ReplaceAll(t, pat, rep)) == p + rep + ReplaceAll(t, pat, rep);
    }
  }

  /** A text that never holds the pattern's first character does not contain the pattern. */
  lemma AbsentWithoutFirstChar(s: string, pat: string)
    requires |pat| > 0
    requires forall i :: 0 <= i < |s| ==> s[i] != pat[0]
    ensures !Contains(s, pat)
  {
    forall k | 0 <= k <= |s| ensures !OccursAt(s, pat, k) {
      if k + |pat| <= |s| {
        assert s[k..k + |pat|][0] == s[k];
      }
    }
  }

  // ---- Integers as decimal text ----

  const Int32Min: int := -0x8000_0000
  const Int32Max: int := 0x7FFF_FFFF

  predicate IsDigit(c: char) { '0' <= c <= '9' }

  predicate AllDigits(s: string) {
    forall i :: 0 <= i < |s| ==> IsDigit(s[i])
  }

  function DigitChar(d: nat): (c: char)
    requires d < 10
    ensures IsDigit(c) && c as int - '0' as int == d
  {
    ('0' as int + d) as char
  }

  /** The number a string of decimal digits denotes, most significant first. */
  function DigitsValue(s: string): nat
    requires AllDigits(s)
    decreases |s|
  {
    if s == [] then 0 else DigitsValue(s[..|s| - 1]) * 10 + (s[|s| - 1] as int - '0' as int)
  }

  /** `n.ToString()` for a non-negative `n`: decimal digits without leading zeros. */
  function NatToString(n: nat): string
    decreases n
  {
    if n < 10 then [DigitChar(n)] else NatToString(n / 10) + [DigitChar(n % 10)]
  }

  /** `n.ToString()` in the invariant culture. */
  function IntToString(n: int): string {
    if n < 0 then "-" + NatToString(-n) else NatToString(n)
  }

  /** The white space that `NumberStyles.Integer` lets surround a number. */
  predicate IsNumberWhite(c: char) { c == ' ' || '\t' <= c <= '\r' }

  function TrimStartNumberWhite(s: string): (r: string)
    decreases |s|
  {
    if |s| > 0 && IsNumberWhite(s[0]) then TrimStartNumberWhite(s[1..]) else s
  }

  function TrimEndNumberWhite(s: string): (r: string)
    decreases |s|
  {
    if |s| > 0 && IsNumberWhite(s[|s| - 1]) then TrimEndNumberWhite(s[..|s| - 1]) else s
  }

  /**
   * `int.TryParse(s, out v)`: optional surrounding white space, an optional
   * sign, at least one decimal digit, and a value that fits in 32 bits.
   */
  function TryParseInt32(s: string): (r: Option<int>)
    ensures r.Some? ==> Int32Min <= r.value <= Int32Max
  {
    var t := TrimEndNumberWhite(TrimStartNumberWhite(s));
    var negative := |t| > 0 && t[0] == '-';
    var digits := if |t| > 0 && (t[0] == '-' || t[0] == '+') then t[1..] else t;
    if |digits| == 0 || !AllDigits(digits) then None
    else
      var v: int := if negative then -(DigitsValue(digits) as int) else DigitsValue(digits);
      if Int32Min <= v <= Int32Max then Some(v) else None
  }

  lemma {:induction false} NatToStringDigits(n: nat)
    ensures |NatToString(n)| > 0 && AllDigits(NatToString(n))
    ensures DigitsValue(NatToString(n)) == n
  {
    if n >= 10 {
      NatToStringDigits(n / 10);
      var s := NatToString(n);
      assert s == NatToString(n / 10) + [DigitChar(n % 10)];
      assert s[..|s| - 1] == NatToString(n / 10);
    }
  }

  /** The decimal text of an int is non-empty and made of digits after an optional '-'. */
  lemma IntToStringChars(n: int)
    ensures |IntToString(n)| > 0
    ensures forall i :: 0 <= i < |IntToString(n)| ==> IntToString(n)[i] == '-' || IsDigit(IntToString(n)[i])
  {
    var m: nat := if n < 0 then -n else n;
    NatToStringDigits(m);
    var d := NatToString(m);
    var s := IntToString(n);
    if n < 0 {
      assert s == "-" + d;
      forall i | 0 < i < |s| ensures IsDigit(s[i]) {
        assert s[i] == d[i - 1];
      }
    } else {
      assert s == d;
    }
  }

  /** Formatting a 32-bit integer and parsing the text back gives the integer again. */
  lemma ParseIntToString(n: int)
    requires Int32Min <= n <= Int32Max
    ensures TryParseInt32(IntToString(n)) == Some(n)
  {
    var m: nat := if n < 0 then -n else n;
    NatToStringDigits(m);
    var s := IntToString(n);
    assert s[0] == '-' || IsDigit(s[0]);
    assert TrimStartNumberWhite(s) == s;
    assert IsDigit(s[|s| - 1]);
    assert TrimEndNumberWhite(s) == s;
    if n < 0 {
      assert s[1..] == NatToString(m);
    }
  }

  /** Distinct integers have distinct decimal texts. */
  lemma IntToStringInjective(a: int, b: int)
    requires Int32Min <= a <= Int32Max && Int32Min <= b <= Int32Max
    requires IntToString(a) == IntToString(b)
    ensures a == b
  {
    ParseIntToString(a);
    ParseIntToString(b);
  }
}
