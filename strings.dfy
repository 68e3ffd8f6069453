/** The string operations the scripts rely on: decimal rendering of numbers (template
    interpolation of a JavaScript number), substring search (`includes`, `indexOf`),
    `trim`, `startsWith`, `join`, and the ASCII case fold used for case-insensitive matching. */
module Strings {
  import opened Wrappers

  predicate IsDigit(c: char) {
    '0' <= c <= '9'
  }

  predicate AllDigits(s: string) {
    forall k :: 0 <= k < |s| ==> IsDigit(s[k])
  }

  function DigitChar(d: nat): (c: char)
    requires d < 10
    ensures IsDigit(c) && c as int - '0' as int == d
  {
    ('0' as int + d) as char
  }

  /** The decimal text of a non-negative integer, as `${n}` renders it: at least one digit,
      no sign and no leading zero. */
  function NatToString(n: nat): (s: string)
    ensures |s| > 0 && AllDigits(s)
    ensures s[0] == '0' <==> n == 0
    ensures |s| > 1 ==> n >= 10
    decreases n
  {
    if n < 10 then [DigitChar(n)] else NatToString(n / 10) + [DigitChar(n % 10)]
  }

  /** The number a string of decimal digits denotes. */
  function DigitsValue(s: string): nat
    requires AllDigits(s)
  {
    if s == [] then 0 else DigitsValue(s[..|s| - 1]) * 10 + (s[|s| - 1] as int - '0' as int)
  }

  /** A non-empty string of decimal digits read as a number; anything else is rejected. */
  function ParseDecimal(s: string): Option<nat>
  {
    if s != [] && AllDigits(s) then Some(DigitsValue(s)) else None
  }

  lemma {:induction false} DecimalRoundTrip(n: nat)
    ensures ParseDecimal(NatToString(n)) == Some(n)
  {
    var s := NatToString(n);
    if n >= 10 {
      assert s[..|s| - 1] == NatToString(n / 10);
      assert s[|s| - 1] as int - '0' as int == n % 10;
      DecimalRoundTrip(n / 10);
      assert DigitsValue(s) == DigitsValue(NatToString(n / 10)) * 10 + n % 10;
    } else {
      assert DigitsValue(s) == DigitsValue([]) * 10 + n;
    }
  }

  lemma NatToStringInjective(m: nat, n: nat)
    ensures NatToString(m) == NatToString(n) ==> m == n
  {
    DecimalRoundTrip(m);
    DecimalRoundTrip(n);
  }

  /** `pat` occurs in `s` starting at position `i`. */
  predicate MatchesAt(s: string, pat: string, i: nat) {
    i + |pat| <= |s| && s[i..i + |pat|] == pat
  }

  /** `String.prototype.includes`: some occurrence of `pat` exists. */
  predicate Contains(s: string, pat: string) {
    exists i :: 0 <= i <= |s| && MatchesAt(s, pat, i)
  }

  predicate StartsWith(s: string, prefix: string) {
    MatchesAt(s, prefix, 0)
  }

  /** `String.prototype.indexOf(pat, from)`: the first position at or after `from` where
      `pat` occurs, or `None` when there is none. */
  function IndexFrom(s: string, pat: string, from: nat): (r: Option<nat>)
    ensures r.Some? ==> from <= r.value && MatchesAt(s, pat, r.value)
    ensures r.Some? ==> forall i :: from <= i < r.value ==> !MatchesAt(s, pat, i)
    ensures r.None? ==> forall i :: from <= i ==> !MatchesAt(s, pat, i)
    decreases |s| - from
  {
    if from + |pat| > |s| then None
    else if s[from..from + |pat|] == pat then Some(from)
    else IndexFrom(s, pat, from + 1)
  }

  /** Where `c` sits at `k` and nowhere in `[from, k)`, the search for `c` from `from` finds `k`. */
  lemma FirstOccurrenceOfChar(s: string, c: char, from: nat, k: nat)
    requires from <= k < |s| && s[k] == c
    requires forall i :: from <= i < k ==> s[i] != c
    ensures IndexFrom(s, [c], from) == Some(k)
  {
    assert MatchesAt(s, [c], k) by { assert s[k..k + 1] == [s[k]]; }
    forall i | from <= i < k
      ensures !MatchesAt(s, [c], i)
    {
      assert s[i..i + 1] == [s[i]];
    }
  }

  /** An occurrence inside an occurrence is an occurrence. */
  lemma MatchesWithin(s: string, t: string, u: string, i: nat, j: nat) returns (at: nat)
    requires MatchesAt(s, t, i) && MatchesAt(t, u, j)
    ensures at == i + j && MatchesAt(s, u, at)
  {
    at := i + j;
    assert t == s[i..i + |t|];
    assert forall k :: 0 <= k < |u| ==> u[k] == t[j + k] == s[i + j + k];
    assert s[i + j..i + j + |u|] == u;
  }

  lemma MatchesInLeft(a: string, b: string, pat: string, i: nat)
    requires MatchesAt(a, pat, i)
    ensures MatchesAt(a + b, pat, i)
  {
    assert (a + b)[i..i + |pat|] == a[i..i + |pat|];
  }

  lemma MatchesInRight(a: string, b: string, pat: string, i: nat) returns (at: nat)
    requires MatchesAt(b, pat, i)
    ensures at == |a| + i && MatchesAt(a + b, pat, at)
  {
    at := |a| + i;
    assert (a + b)[|a| + i..|a| + i + |pat|] == b[i..i + |pat|];
  }

  /** An occurrence in the middle part of `a + b + c` is an occurrence in the whole. */
  lemma MatchesInMiddle(a: string, b: string, c: string, pat: string, i: nat) returns (at: nat)
    requires MatchesAt(b, pat, i)
    ensures at == |a| + i && MatchesAt(a + b + c, pat, at)
  {
    at := MatchesInRight(a, b, pat, i);
    MatchesInLeft(a + b, c, pat, at);
  }

  /** The literal `a + pat + b` contains `pat` right after `a`. */
  lemma MatchesBetween(a: string, pat: string, b: string)
    ensures MatchesAt(a + pat + b, pat, |a|)
  {
    assert (a + pat + b)[|a|..|a| + |pat|] == pat;
  }

  /** In `head + row1 + sep + row2 + tail`, `row1` sits right after `head` and `row2` right
      after `sep`. */
  lemma MatchesTwoParts(head: string, row1: string, sep: string, row2: string, tail: string) returns (at1: nat, at2: nat)
    ensures MatchesAt(head + row1 + sep + row2 + tail, row1, at1)
    ensures MatchesAt(head + row1 + sep + row2 + tail, row2, at2)
    ensures at1 == |head| && at2 == |head| + |row1| + |sep|
  {
    var body := head + row1 + sep + row2 + tail;
    assert body == head + row1 + (sep + row2 + tail);
    MatchesBetween(head, row1, sep + row2 + tail);
    MatchesBetween(head + row1 + sep, row2, tail);
    at1, at2 := |head|, |head| + |row1| + |sep|;
  }

  /** `Array.prototype.join(sep)`. */
  function Join(parts: seq<string>, sep: string): string
  {
    if parts == [] then ""
    else if |parts| == 1 then parts[0]
    else parts[0] + sep + Join(parts[1..], sep)
  }

  /** Every joined part occurs in the joined text. */
  lemma {:induction false} JoinContains(parts: seq<string>, sep: string, i: nat) returns (at: nat)
    requires i < |parts|
    ensures MatchesAt(Join(parts, sep), parts[i], at)
  {
    if i == 0 {
      at := 0;
      if |parts| > 1 {
        MatchesInLeft(parts[0], sep + Join(parts[1..], sep), parts[0], 0);
        assert parts[0] + sep + Join(parts[1..], sep) == parts[0] + (sep + Join(parts[1..], sep));
      }
    } else {
      var inner := JoinContains(parts[1..], sep, i - 1);
      at := MatchesInRight(parts[0] + sep, Join(parts[1..], sep), parts[i], inner);
    }
  }

  /** White space and line terminators as ECMAScript's `String.prototype.trim` strips them. */
  predicate IsWhitespace(c: char) {
    || c == ' ' || c == '\t' || c == '\n' || c == '\r'
    || c == '\U{000B}' || c == '\U{000C}' || c == '\U{00A0}' || c == '\U{1680}'
    || ('\U{2000}' <= c <= '\U{200A}')
    || c == '\U{2028}' || c == '\U{2029}' || c == '\U{202F}' || c == '\U{205F}'
    || c == '\U{3000}' || c == '\U{FEFF}'
  }

  /** `s` without its leading white space. */
  function TrimStart(s: string): string
    decreases |s|
  {
    if s != [] && IsWhitespace(s[0]) then TrimStart(s[1..]) else s
  }

  /** `s` without its trailing white space. */
  function TrimEnd(s: string): string
    decreases |s|
  {
    if s != [] && IsWhitespace(s[|s| - 1]) then TrimEnd(s[..|s| - 1]) else s
  }

  /** `TrimStart` drops a prefix of white space and stops at the first other character. */
  lemma {:induction false} TrimStartShape(s: string)
    ensures |TrimStart(s)| <= |s| && TrimStart(s) == s[|s| - |TrimStart(s)|..]
    ensures forall k :: 0 <= k < |s| - |TrimStart(s)| ==> IsWhitespace(s[k])
    ensures TrimStart(s) != [] ==> !IsWhitespace(TrimStart(s)[0])
    decreases |s|
  {
    if s != [] && IsWhitespace(s[0]) {
      var rest := s[1..];
      TrimStartShape(rest);
      var r := TrimStart(rest);
      assert TrimStart(s) == r;
      assert rest[|rest| - |r|..] == s[|s| - |r|..];
      forall k | 0 <= k < |s| - |r|
        ensures IsWhitespace(s[k])
      {
        if k > 0 {
          assert s[k] == rest[k - 1];
        }
      }
    }
  }

  /** `TrimEnd` drops a suffix of white space and stops at the last other character. */
  lemma {:induction false} TrimEndShape(s: string)
    ensures |TrimEnd(s)| <= |s| && TrimEnd(s) == s[..|TrimEnd(s)|]
    ensures forall k :: |TrimEnd(s)| <= k < |s| ==> IsWhitespace(s[k])
    ensures TrimEnd(s) != [] ==> !IsWhitespace(TrimEnd(s)[|TrimEnd(s)| - 1])
    decreases |s|
  {
    if s != [] && IsWhitespace(s[|s| - 1]) {
      var rest := s[..|s| - 1];
      TrimEndShape(rest);
      var r := TrimEnd(rest);
      assert TrimEnd(s) == r;
      assert rest[..|r|] == s[..|r|];
      forall k | |r| <= k < |s|
        ensures IsWhitespace(s[k])
      {
        if k < |s| - 1 {
          assert s[k] == rest[k];
        }
      }
    }
  }

  /** `String.prototype.trim`. */
  function Trim(s: string): string {
    TrimEnd(TrimStart(s))
  }

  /** Trimming removes the leading and trailing white space of `s`, and only that: the result
      sits in `s` at `i`, with only white space before and after it, and neither starts nor
      ends with white space. */
  lemma TrimMeaning(s: string) returns (i: nat)
    ensures i <= |s| && MatchesAt(s, Trim(s), i)
    ensures forall k :: 0 <= k < i ==> IsWhitespace(s[k])
    ensures forall k :: i + |Trim(s)| <= k < |s| ==> IsWhitespace(s[k])
    ensures Trim(s) != [] ==> !IsWhitespace(Trim(s)[0]) && !IsWhitespace(Trim(s)[|Trim(s)| - 1])
  {
    TrimStartShape(s);
    TrimEndShape(TrimStart(s));
    i := TrimParts(s, TrimStart(s), TrimEnd(TrimStart(s)));
  }

  /** The shape of a trim, whatever computed its two steps. */
  lemma TrimParts(s: string, t: string, r: string) returns (i: nat)
    requires |t| <= |s| && t == s[|s| - |t|..] && (forall k :: 0 <= k < |s| - |t| ==> IsWhitespace(s[k]))
    requires t != [] ==> !IsWhitespace(t[0])
    requires |r| <= |t| && r == t[..|r|] && (forall k :: |r| <= k < |t| ==> IsWhitespace(t[k]))
    requires r != [] ==> !IsWhitespace(r[|r| - 1])
    ensures i == |s| - |t| && MatchesAt(s, r, i)
    ensures forall k :: 0 <= k < i ==> IsWhitespace(s[k])
    ensures forall k :: i + |r| <= k < |s| ==> IsWhitespace(s[k])
    ensures r != [] ==> !IsWhitespace(r[0]) && !IsWhitespace(r[|r| - 1])
  {
    i := |s| - |t|;
    assert s[i..][..|r|] == s[i..i + |r|];
    forall k | i + |r| <= k < |s|
      ensures IsWhitespace(s[k])
    {
      assert s[k] == t[k - i];
    }
    if r != [] {
      assert r[0] == t[0];
    }
  }

  /** The case fold of a regular expression's `i` flag, on ASCII letters. */
  function Fold(c: char): char {
    if 'A' <= c <= 'Z' then (c as int + 32) as char else c
  }

  function FoldAll(s: string): (r: string)
    ensures |r| == |s|
    ensures forall k :: 0 <= k < |s| ==> r[k] == Fold(s[k])
  {
    seq(|s|, k requires 0 <= k < |s| => Fold(s[k]))
  }
}
