/** String helpers shared by the URL, key and parsing models: character
    classes, ASCII case folding, searching, and decimal digits. Strings are
    sequences of characters, as in Python 3. */
module Text {
  import opened Wrappers

  predicate IsAsciiLetter(c: char) {
    ('a' <= c <= 'z') || ('A' <= c <= 'Z')
  }

  predicate IsDigit(c: char) {
    '0' <= c <= '9'
  }

  predicate AllDigits(s: string) {
    forall i :: 0 <= i < |s| ==> IsDigit(s[i])
  }

  /** `str.lower()` restricted to ASCII: other characters are kept. */
  function AsciiLowerChar(c: char): char {
    if 'A' <= c <= 'Z' then (c as int + 32) as char else c
  }

  function AsciiLower(s: string): (r: string)
    ensures |r| == |s|
    ensures forall i :: 0 <= i < |s| ==> r[i] == AsciiLowerChar(s[i])
  {
    seq(|s|, i requires 0 <= i < |s| => AsciiLowerChar(s[i]))
  }

  predicate StartsWith(s: string, prefix: string) {
    |prefix| <= |s| && s[..|prefix|] == prefix
  }

  predicate EndsWith(s: string, suffix: string) {
    |suffix| <= |s| && s[|s| - |suffix|..] == suffix
  }

  /** Python's `sub in s` for two strings. */
  predicate Contains(s: string, sub: string)
    decreases |s|
  {
    StartsWith(s, sub) || (|s| > 0 && Contains(s[1..], sub))
  }

  /** `sub` occurs in `s` starting at position `i`. */
  predicate OccursAt(s: string, sub: string, i: nat) {
    i + |sub| <= |s| && s[i..i + |sub|] == sub
  }

  /** `sub` occurs somewhere in `s`. */
  ghost predicate Occurs(s: string, sub: string) {
    exists i: nat :: OccursAt(s, sub, i)
  }

  /** `Contains` holds exactly when `sub` occurs at some position of `s`. */
  lemma {:induction false} ContainsIffOccurs(s: string, sub: string)
    ensures Contains(s, sub) <==> Occurs(s, sub)
    decreases |s|
  {
    if Contains(s, sub) {
      if StartsWith(s, sub) {
        assert OccursAt(s, sub, 0);
      } else {
        ContainsIffOccurs(s[1..], sub);
        var i: nat :| OccursAt(s[1..], sub, i);
        assert s[1..][i..i + |sub|] == s[i + 1..i + 1 + |sub|];
        assert OccursAt(s, sub, i + 1);
      }
    }
    if Occurs(s, sub) {
      var i: nat :| OccursAt(s, sub, i);
      if i == 0 {
        assert StartsWith(s, sub);
      } else {
        assert s[1..][i - 1..i - 1 + |sub|] == s[i..i + |sub|];
        assert OccursAt(s[1..], sub, i - 1);
        ContainsIffOccurs(s[1..], sub);
      }
    }
  }

  /** Position of the first character of `s` that is in `stops`, or `|s|`
      when there is none (Python's `find` with "not found" as the length). */
  function IndexOfAny(s: string, stops: set<char>): (r: nat)
    ensures r <= |s|
    ensures r < |s| ==> s[r] in stops
    ensures forall j :: 0 <= j < r ==> s[j] !in stops
  {
    if |s| == 0 then 0
    else if s[0] in stops then 0
    else 1 + IndexOfAny(s[1..], stops)
  }

  function IndexOf(s: string, c: char): (r: nat)
    ensures r <= |s|
    ensures r < |s| ==> s[r] == c
    ensures forall j :: 0 <= j < r ==> s[j] != c
  {
    IndexOfAny(s, {c})
  }

  /** Python's `s.rfind(c)`: the last position of `c`, or -1. */
  function RFind(s: string, c: char): (r: int)
    ensures -1 <= r < |s|
    ensures r >= 0 ==> s[r] == c
    ensures forall j :: r < j < |s| ==> s[j] != c
  {
    if |s| == 0 then -1
    else if s[|s| - 1] == c then |s| - 1
    else RFind(s[..|s| - 1], c)
  }

  lemma RFindAt(s: string, c: char, i: nat)
    requires i < |s| && s[i] == c
    requires forall j :: i < j < |s| ==> s[j] != c
    ensures RFind(s, c) == i
  {
  }

  lemma RFindAbsent(s: string, c: char)
    requires c !in s
    ensures RFind(s, c) == -1
  {
  }

  /** The text before the first `c` (all of `s` when there is none); this is
      the part `s.split(c, 1)[0]` keeps. */
  function CutAt(s: string, c: char): (r: string)
    ensures r <= s
    ensures c !in r
    ensures |r| < |s| ==> s[|r|] == c
  {
    s[..IndexOf(s, c)]
  }

  /** Splits `s` around its last `c`. */
  function SplitLast(s: string, c: char): (r: Option<(string, string)>)
    ensures r.None? <==> c !in s
    ensures r.Some? ==> s == r.value.0 + [c] + r.value.1 && c !in r.value.1
  {
    var i := RFind(s, c);
    if i < 0 then None
    else
      assert s == s[..i] + [c] + s[i + 1..];
      Some((s[..i], s[i + 1..]))
  }

  lemma IndexOfAnyAppend(a: string, b: string, stops: set<char>)
    ensures IndexOfAny(a, stops) < |a| ==> IndexOfAny(a + b, stops) == IndexOfAny(a, stops)
    ensures IndexOfAny(a, stops) == |a| ==> IndexOfAny(a + b, stops) == |a| + IndexOfAny(b, stops)
  {
    var i := IndexOfAny(a + b, stops);
    var k := IndexOfAny(a, stops);
    if k < |a| {
      assert (a + b)[k] == a[k];
      assert forall j :: 0 <= j < k ==> (a + b)[j] == a[j];
    } else {
      var j := IndexOfAny(b, stops);
      assert j < |b| ==> (a + b)[|a| + j] == b[j];
      assert forall k :: |a| <= k < |a| + j ==> (a + b)[k] == b[k - |a|];
    }
  }

  lemma CutAtAppend(a: string, b: string, c: char)
    requires c !in a
    ensures CutAt(a + b, c) == a + CutAt(b, c)
  {
    IndexOfAnyAppend(a, b, {c});
  }

  /** The last `c` of `a + [c] + b` is the one between them when `b` has none. */
  lemma {:induction false} RFindAround(a: string, c: char, b: string)
    requires c !in b
    ensures RFind(a + [c] + b, c) == |a|
    decreases |b|
  {
    var s := a + [c] + b;
    if |b| == 0 {
      assert s[|s| - 1] == c;
    } else {
      assert s[|s| - 1] == b[|b| - 1];
      assert s[..|s| - 1] == a + [c] + b[..|b| - 1];
      RFindAround(a, c, b[..|b| - 1]);
    }
  }

  lemma SplitLastAround(a: string, c: char, b: string)
    requires c !in b
    ensures SplitLast(a + [c] + b, c) == Some((a, b))
  {
    var s := a + [c] + b;
    var i := RFind(s, c);
    RFindAround(a, c, b);
    assert s[..i] == a;
    assert s[i + 1..] == b;
  }

  // ----- Decimal numbers -----

  function DigitChar(d: nat): (c: char)
    requires d < 10
    ensures IsDigit(c)
  {
    ('0' as int + d) as char
  }

  function DigitValue(c: char): nat {
    if IsDigit(c) then c as int - '0' as int else 0
  }

  /** The decimal numeral of `n`, as Python's `str(n)` writes it. */
  function DecimalDigits(n: nat): (r: string)
    ensures |r| >= 1
    ensures AllDigits(r)
    decreases n
  {
    if n < 10 then [DigitChar(n)]
    else DecimalDigits(n / 10) + [DigitChar(n % 10)]
  }

  /** The number a string of digits denotes (leading zeros allowed). */
  function DecimalValue(s: string): nat {
    if |s| == 0 then 0
    else DecimalValue(s[..|s| - 1]) * 10 + DigitValue(s[|s| - 1])
  }

  function Zeros(k: nat): (r: string)
    ensures |r| == k
    ensures forall i :: 0 <= i < k ==> r[i] == '0'
  {
    seq(k, _ => '0')
  }

  /** Python's `format(n, "0<width>d")` for a non-negative `n`: the digits of
      `n`, left-padded with zeros to at least `width` characters. */
  function ZeroPadded(n: nat, width: nat): string {
    var digits := DecimalDigits(n);
    if |digits| < width then Zeros(width - |digits|) + digits else digits
  }

  lemma {:induction false} DecimalRoundTrip(n: nat)
    ensures DecimalValue(DecimalDigits(n)) == n
    decreases n
  {
    if n >= 10 {
      var s := DecimalDigits(n);
      assert s[..|s| - 1] == DecimalDigits(n / 10);
      DecimalRoundTrip(n / 10);
    }
  }

  lemma {:induction false} LeadingZerosIgnored(k: nat, s: string)
    ensures DecimalValue(Zeros(k) + s) == DecimalValue(s)
    decreases |s|, k
  {
    if |s| == 0 {
      assert Zeros(k) + s == Zeros(k);
      if k > 0 {
        assert Zeros(k)[..k - 1] == Zeros(k - 1);
        LeadingZerosIgnored(k - 1, s);
        assert Zeros(k - 1) + s == Zeros(k - 1);
      }
    } else {
      var t := Zeros(k) + s;
      assert t[..|t| - 1] == Zeros(k) + s[..|s| - 1];
      LeadingZerosIgnored(k, s[..|s| - 1]);
    }
  }

  /** The zero-padded numeral denotes `n` again, however wide the padding. */
  lemma ZeroPaddedValue(n: nat, width: nat)
    ensures DecimalValue(ZeroPadded(n, width)) == n
    ensures AllDigits(ZeroPadded(n, width))
    ensures |ZeroPadded(n, width)| >= width
  {
    var digits := DecimalDigits(n);
    DecimalRoundTrip(n);
    if |digits| < width {
      LeadingZerosIgnored(width - |digits|, digits);
    }
  }

  /** A numeral has at most three digits exactly when the number is below 1000. */
  lemma {:induction false} DecimalDigitsShort(n: nat)
    ensures |DecimalDigits(n)| <= 3 <==> n < 1000
    decreases n
  {
    if n >= 10 {
      DecimalDigitsShort(n / 10);
    }
  }
}
