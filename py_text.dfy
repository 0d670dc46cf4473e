// Python's built-in string operations, as the core uses them: strip, lower,
// find/rfind, `in`, startswith/endswith, split on one character, replace,
// and decimal formatting of integers (str(n), f'{n:03d}').
module PyText {

  /** Python's str.isspace(): the characters that strip() removes and that
      a `\s` class matches in a str pattern. */
  predicate IsSpace(c: char) {
    || c == ' '
    || ('\t' <= c <= '\r')
    || ('\U{1C}' <= c <= '\U{1F}')
    || c == '\U{85}' || c == '\U{A0}' || c == '\U{1680}'
    || ('\U{2000}' <= c <= '\U{200A}')
    || c == '\U{2028}' || c == '\U{2029}' || c == '\U{202F}' || c == '\U{205F}'
    || c == '\U{3000}'
  }

  predicate NoSpaceAtEnds(s: string) {
    s == [] || (!IsSpace(s[0]) && !IsSpace(s[|s| - 1]))
  }

  /** str.lstrip(): drops leading whitespace only. */
  function TrimLeft(s: string): (r: string)
    ensures |r| <= |s| && r == s[|s| - |r|..]
    ensures r == [] || !IsSpace(r[0])
    ensures forall k :: 0 <= k < |s| - |r| ==> IsSpace(s[k])
  {
    if s != [] && IsSpace(s[0]) then TrimLeft(s[1..]) else s
  }

  /** str.rstrip(): drops trailing whitespace only. */
  function TrimRight(s: string): (r: string)
    ensures |r| <= |s| && r == s[..|r|]
    ensures r == [] || !IsSpace(r[|r| - 1])
    ensures forall k :: |r| <= k < |s| ==> IsSpace(s[k])
  {
    if s != [] && IsSpace(s[|s| - 1]) then TrimRight(s[..|s| - 1]) else s
  }

  /** str.strip() */
  function Strip(s: string): (r: string)
    ensures |r| <= |s|
    ensures NoSpaceAtEnds(r)
  {
    TrimRight(TrimLeft(s))
  }

  /** Stripping a string with no whitespace at either end leaves it as it is;
      in particular strip() is idempotent. */
  lemma StripFixed(s: string)
    requires NoSpaceAtEnds(s)
    ensures Strip(s) == s
  {
  }

  /** Python's str.lower() on one character: ASCII capitals and the Kelvin
      sign, the only characters whose lower case is in ASCII. */
  function LowerChar(c: char): char {
    if 'A' <= c <= 'Z' then (c as int + 32) as char
    else if c == '\U{212A}' then 'k'
    else c
  }

  function Lower(s: string): (r: string)
    ensures |r| == |s|
    ensures forall k :: 0 <= k < |s| ==> r[k] == LowerChar(s[k])
  {
    if s == [] then [] else [LowerChar(s[0])] + Lower(s[1..])
  }

  /** `sub` starts at position k of s. */
  predicate OccursAt(s: string, sub: string, k: int) {
    0 <= k && k + |sub| <= |s| && s[k..k + |sub|] == sub
  }

  /** s.find(sub, from): the least k >= from where sub occurs, or -1. */
  function FindFrom(s: string, sub: string, from: nat): (r: int)
    ensures r == -1 || (from <= r && OccursAt(s, sub, r))
    ensures forall k :: from <= k && (r == -1 || k < r) ==> !OccursAt(s, sub, k)
    decreases |s| - from
  {
    if from + |sub| > |s| then -1
    else if s[from..from + |sub|] == sub then from
    else FindFrom(s, sub, from + 1)
  }

  /** The first occurrence at or after `from` is the one find reports. */
  lemma FindFromIs(s: string, sub: string, from: nat, k: nat)
    requires from <= k && OccursAt(s, sub, k)
    requires forall j :: from <= j < k ==> !OccursAt(s, sub, j)
    ensures FindFrom(s, sub, from) == k
  {
  }

  /** s.find(sub) */
  function Find(s: string, sub: string): int {
    FindFrom(s, sub, 0)
  }

  /** Python's `sub in s`. */
  predicate Contains(s: string, sub: string) {
    Find(s, sub) >= 0
  }

  lemma ContainsIff(s: string, sub: string, k: int)
    requires OccursAt(s, sub, k)
    ensures Contains(s, sub) && Find(s, sub) <= k
  {
  }

  /** s.rfind(c) for a one-character needle: the greatest index holding c, or -1. */
  function RFindChar(s: string, c: char): (r: int)
    ensures -1 <= r < |s|
    ensures r >= 0 ==> s[r] == c
    ensures forall k :: r < k < |s| ==> s[k] != c
  {
    if s == [] then -1
    else if s[|s| - 1] == c then |s| - 1
    else RFindChar(s[..|s| - 1], c)
  }

  /** Python's slice s[i:j] for 0 <= i, j: an empty string when i >= j. */
  function Slice(s: string, i: nat, j: nat): (r: string)
    ensures i <= j <= |s| ==> r == s[i..j]
    ensures j <= i ==> r == []
  {
    var hi := if j <= |s| then j else |s|;
    if i >= hi then [] else s[i..hi]
  }

  predicate StartsWith(s: string, p: string) {
    |p| <= |s| && s[..|p|] == p
  }

  predicate EndsWith(s: string, p: string) {
    |p| <= |s| && s[|s| - |p|..] == p
  }

  /** s.replace(old, new): every non-overlapping occurrence, left to right. */
  function ReplaceAll(s: string, pat: string, rep: string): (r: string)
    requires |pat| > 0
    decreases |s|
  {
    if |s| < |pat| then s
    else if s[..|pat|] == pat then rep + ReplaceAll(s[|pat|..], pat, rep)
    else [s[0]] + ReplaceAll(s[1..], pat, rep)
  }

  /** Where `pat` does not occur, replace changes nothing. */
  lemma {:induction false} ReplaceAbsent(s: string, pat: string, rep: string)
    requires |pat| > 0
    requires forall k :: 0 <= k < |s| ==> !OccursAt(s, pat, k)
    ensures ReplaceAll(s, pat, rep) == s
    decreases |s|
  {
    if |s| >= |pat| {
      assert !OccursAt(s, pat, 0);
      forall k | 0 <= k < |s| - 1 ensures !OccursAt(s[1..], pat, k) {
        assert !OccursAt(s, pat, k + 1);
        if k + |pat| <= |s| - 1 {
          assert s[1..][k..k + |pat|] == s[k + 1..k + 1 + |pat|];
        }
      }
      ReplaceAbsent(s[1..], pat, rep);
    }
  }

  /** When `pat` occurs in p + pat only at its end, replace swaps that one
      occurrence: "out/q.csv" becomes "out/q_full.csv". */
  lemma {:induction false} ReplaceSuffix(p: string, pat: string, rep: string)
    requires |pat| > 0
    requires forall k :: 0 <= k < |p| ==> !OccursAt(p + pat, pat, k)
    ensures ReplaceAll(p + pat, pat, rep) == p + rep
    decreases |p|
  {
    var s := p + pat;
    if p == [] {
      assert s[|pat|..] == [];
    } else {
      assert !OccursAt(s, pat, 0);
      assert s[1..] == p[1..] + pat;
      forall k | 0 <= k < |p| - 1 ensures !OccursAt(p[1..] + pat, pat, k) {
        assert !OccursAt(s, pat, k + 1);
        assert s[1..][k..k + |pat|] == s[k + 1..k + 1 + |pat|];
      }
      ReplaceSuffix(p[1..], pat, rep);
      assert [s[0]] + (p[1..] + rep) == p + rep;
    }
  }

  /** Number of occurrences of c in s. */
  function CountChar(s: string, c: char): nat {
    if s == [] then 0 else (if s[0] == c then 1 else 0) + CountChar(s[1..], c)
  }

  /** s.split(sep) for a one-character separator: always at least one piece,
      and "" splits into [""]. */
  function Split(s: string, sep: char): (r: seq<string>)
    ensures |r| == CountChar(s, sep) + 1
    ensures forall k :: 0 <= k < |r| ==> sep !in r[k]
  {
    if s == [] then [[]]
    else
      var rest := Split(s[1..], sep);
      if s[0] == sep then [[]] + rest
      else [[s[0]] + rest[0]] + rest[1..]
  }

  /** sep.join(parts) */
  function Join(parts: seq<string>, sep: char): string
    requires |parts| >= 1
  {
    if |parts| == 1 then parts[0] else parts[0] + [sep] + Join(parts[1..], sep)
  }

  /** Splitting loses nothing: joining the pieces gives the string back. */
  lemma {:induction false} JoinSplit(s: string, sep: char)
    ensures Join(Split(s, sep), sep) == s
  {
    if s != [] {
      JoinSplit(s[1..], sep);
      var rest := Split(s[1..], sep);
      if s[0] != sep {
        if |rest| == 1 {
          assert Split(s, sep) == [[s[0]] + rest[0]];
        } else {
          assert Split(s, sep)[1..] == rest[1..];
        }
      } else {
        assert Split(s, sep)[1..] == rest;
      }
    }
  }

  predicate IsDigit(c: char) {
    '0' <= c <= '9'
  }

  function DigitChar(d: nat): char
    requires d < 10
  {
    ('0' as int + d) as char
  }

  /** str(n) for n >= 0. */
  function NatToString(n: nat): (r: string)
    ensures |r| >= 1
    ensures forall k :: 0 <= k < |r| ==> IsDigit(r[k])
    decreases n
  {
    if n < 10 then [DigitChar(n)] else NatToString(n / 10) + [DigitChar(n % 10)]
  }

  /** str(n) */
  function IntToString(n: int): string {
    if n < 0 then "-" + NatToString(-n) else NatToString(n)
  }

  /** The value of a string of decimal digits (int(s) for such a string). */
  function DigitsValue(s: string): nat
    requires forall k :: 0 <= k < |s| ==> IsDigit(s[k])
  {
    if s == [] then 0
    else
      assert IsDigit(s[|s| - 1]);
      DigitsValue(s[..|s| - 1]) * 10 + (s[|s| - 1] as int - '0' as int)
  }

  /** Numbers below 1000 take at most three digits. */
  lemma NatToStringShort(n: nat)
    ensures n < 1000 ==> |NatToString(n)| <= 3
  {
    if 10 <= n < 1000 {
      assert n / 10 < 100;
      if n / 10 >= 10 {
        assert |NatToString(n / 10)| == |NatToString(n / 100)| + 1;
      }
    }
  }

  /** Reading back a formatted number gives the number. */
  lemma {:induction false} DigitsValueOfNatToString(n: nat)
    ensures DigitsValue(NatToString(n)) == n
    decreases n
  {
    if n >= 10 {
      DigitsValueOfNatToString(n / 10);
      var s := NatToString(n);
      assert s[..|s| - 1] == NatToString(n / 10);
    }
  }

  /** n zero characters */
  function Zeros(n: nat): (r: string)
    ensures |r| == n && forall k :: 0 <= k < n ==> r[k] == '0'
  {
    seq(n, _ => '0')
  }

  /** Leading zeros do not change the value. */
  lemma {:induction false} DigitsValueLeadingZeros(n: nat, s: string)
    requires forall k :: 0 <= k < |s| ==> IsDigit(s[k])
    ensures forall k :: 0 <= k < |Zeros(n) + s| ==> IsDigit((Zeros(n) + s)[k])
    ensures DigitsValue(Zeros(n) + s) == DigitsValue(s)
    decreases |s|, n
  {
    var t := Zeros(n) + s;
    assert forall k :: 0 <= k < |t| ==> IsDigit(t[k]) by {
      forall k | 0 <= k < |t| ensures IsDigit(t[k]) {
        if k >= n { assert t[k] == s[k - n]; }
      }
    }
    if s == [] {
      if n > 0 {
        assert t == Zeros(n - 1) + ['0'];
        assert t[..|t| - 1] == Zeros(n - 1) + [];
        DigitsValueLeadingZeros(n - 1, []);
      }
    } else {
      var s' := s[..|s| - 1];
      assert t[..|t| - 1] == Zeros(n) + s';
      DigitsValueLeadingZeros(n, s');
    }
  }

  /** f'{n:0<width>d}' for n >= 0: zeros on the left up to the width. */
  function ZeroPad(s: string, width: nat): (r: string)
    ensures |r| == if |s| >= width then |s| else width
  {
    if |s| >= width then s else Zeros(width - |s|) + s
  }

  /** Zero padding keeps a digit string's value. */
  lemma ZeroPadValue(s: string, width: nat)
    requires forall k :: 0 <= k < |s| ==> IsDigit(s[k])
    ensures forall k :: 0 <= k < |ZeroPad(s, width)| ==> IsDigit(ZeroPad(s, width)[k])
    ensures DigitsValue(ZeroPad(s, width)) == DigitsValue(s)
  {
    if |s| < width {
      DigitsValueLeadingZeros(width - |s|, s);
    }
  }
}
