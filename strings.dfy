/** The handful of Python string operations the toolkit uses: `lower`, `strip`,
    `in`, `split`, `join`, `str(int)` and `int(str)`. */
module Strings {
  import opened Common

  /** `str.lower()` on ASCII letters. */
  function LowerChar(c: char): char {
    if 'A' <= c <= 'Z' then (c as int + 32) as char else c
  }

  function Lower(s: string): (r: string)
    ensures |r| == |s| && forall i :: 0 <= i < |s| ==> r[i] == LowerChar(s[i])
  {
    if s == [] then [] else [LowerChar(s[0])] + Lower(s[1..])
  }

  /** The characters Python's `str.isspace()` accepts, i.e. what `strip()` removes. */
  predicate IsSpace(c: char) {
    c == ' ' || ('\t' <= c <= '\r') || ('\U{1c}' <= c <= '\U{1f}') ||
    c == '\U{85}' || c == '\U{a0}' || c == '\U{1680}' || ('\U{2000}' <= c <= '\U{200a}') ||
    c == '\U{2028}' || c == '\U{2029}' || c == '\U{202f}' || c == '\U{205f}' || c == '\U{3000}'
  }

  function TrimStart(s: string): (r: string)
    ensures r == [] || !IsSpace(r[0])
  {
    if s != [] && IsSpace(s[0]) then TrimStart(s[1..]) else s
  }

  function TrimEnd(s: string): (r: string)
    ensures r == [] || !IsSpace(r[|r| - 1])
  {
    if s != [] && IsSpace(s[|s| - 1]) then TrimEnd(s[..|s| - 1]) else s
  }

  /** `str.strip()`. */
  function Strip(s: string): string {
    TrimEnd(TrimStart(s))
  }

  /** `pat` occurs in `s` starting at index `j`. */
  predicate IsAt(s: string, pat: string, j: int) {
    0 <= j && j + |pat| <= |s| && s[j..j + |pat|] == pat
  }

  function FindFrom(s: string, pat: string, j: nat): (r: Option<nat>)
    requires j <= |s|
    ensures r.Some? ==> j <= r.value && IsAt(s, pat, r.value) &&
                        forall k :: j <= k < r.value ==> !IsAt(s, pat, k)
    ensures r.None? ==> forall k :: j <= k ==> !IsAt(s, pat, k)
    decreases |s| - j
  {
    if IsAt(s, pat, j) then Some(j)
    else if j + |pat| >= |s| then
      assert forall k :: j < k ==> !IsAt(s, pat, k);
      None
    else FindFrom(s, pat, j + 1)
  }

  /** Index of the leftmost occurrence of `pat` in `s` (`str.find`). */
  function FindFirst(s: string, pat: string): (r: Option<nat>)
    ensures r.Some? ==> IsAt(s, pat, r.value) && forall k :: 0 <= k < r.value ==> !IsAt(s, pat, k)
    ensures r.None? ==> forall k :: !IsAt(s, pat, k)
  {
    FindFrom(s, pat, 0)
  }

  /** Python's `pat in s`. */
  predicate Contains(s: string, pat: string) {
    FindFirst(s, pat).Some?
  }

  /** `s.split(sep)`: the pieces between the non-overlapping leftmost occurrences of `sep`. */
  function Split(s: string, sep: string): (r: seq<string>)
    requires |sep| > 0
    ensures |r| >= 1
    decreases |s|
  {
    match FindFirst(s, sep)
    case None => [s]
    case Some(j) => [s[..j]] + Split(s[j + |sep|..], sep)
  }

  /** `s.split(sep, 1)[0]`: the text before the first `sep`, or all of `s`. */
  function Before(s: string, sep: string): (r: string)
    requires |sep| > 0
    ensures r == Split(s, sep)[0]
  {
    match FindFirst(s, sep)
    case None => s
    case Some(j) => s[..j]
  }

  /** `s.split(sep, 1)[1]`: the text after the first `sep`. */
  function After(s: string, sep: string): (r: string)
    requires Contains(s, sep)
  {
    s[FindFirst(s, sep).value + |sep|..]
  }

  /** `sep.join(xs)`. */
  function Join(xs: seq<string>, sep: string): string {
    if xs == [] then ""
    else if |xs| == 1 then xs[0]
    else xs[0] + sep + Join(xs[1..], sep)
  }

  predicate IsDigit(c: char) {
    '0' <= c <= '9'
  }

  predicate AllDigits(s: string) {
    forall i :: 0 <= i < |s| ==> IsDigit(s[i])
  }

  function DigitChar(d: nat): (c: char)
    requires d < 10
    ensures IsDigit(c) && c as int - '0' as int == d
  {
    ('0' as int + d) as char
  }

  /** `str(n)` for a natural number: its decimal digits, most significant first. */
  function NatToString(n: nat): (r: string)
    ensures |r| > 0 && AllDigits(r)
  {
    if n < 10 then [DigitChar(n)] else NatToString(n / 10) + [DigitChar(n % 10)]
  }

  /** `str(n)` for an integer. */
  function IntToString(n: int): (r: string)
    ensures |r| > 0
    ensures forall i :: 0 <= i < |r| ==> IsDigit(r[i]) || (i == 0 && r[i] == '-')
  {
    if n < 0 then "-" + NatToString(-n) else NatToString(n)
  }

  /** The value of a string of decimal digits. */
  function DigitsValue(s: string): nat
    requires AllDigits(s)
  {
    if s == [] then 0 else DigitsValue(s[..|s| - 1]) * 10 + (s[|s| - 1] as int - '0' as int)
  }

  /** `int(s)` for ASCII decimal text: surrounding whitespace, an optional sign, then
      at least one digit; `None` where Python raises ValueError. */
  function ParseInt(s: string): Option<int> {
    ParseStripped(Strip(s))
  }

  /** `int(...)` on text that has no surrounding whitespace. */
  function ParseStripped(t: string): Option<int> {
    if |t| >= 2 && (t[0] == '-' || t[0] == '+') && AllDigits(t[1..]) then
      var v: int := DigitsValue(t[1..]);
      Some(if t[0] == '-' then -v else v)
    else if |t| >= 1 && AllDigits(t) then Some(DigitsValue(t))
    else None
  }

  lemma {:induction false} NatToStringValue(n: nat)
    ensures DigitsValue(NatToString(n)) == n
  {
    if n >= 10 {
      NatToStringValue(n / 10);
      var s := NatToString(n);
      assert s[..|s| - 1] == NatToString(n / 10);
    }
  }

  /** Text that `str(n)` produces reads back as `n` under `int(...)`. */
  lemma {:induction false} ParseIntRoundTrip(n: int)
    ensures ParseInt(IntToString(n)) == Some(n)
  {
    if n < 0 {
      var d := NatToString(-n);
      NatToStringValue(-n);
      assert ("-" + d)[1..] == d;
      ParseSigned("-" + d);
    } else {
      NatToStringValue(n);
      ParseUnsigned(NatToString(n));
    }
  }

  /** A minus sign followed by digits reads as the negated digits' value. */
  lemma ParseSigned(s: string)
    requires |s| >= 2 && s[0] == '-' && AllDigits(s[1..])
    ensures ParseInt(s) == Some(-(DigitsValue(s[1..]) as int))
  {
    assert s[|s| - 1] == s[1..][|s| - 2];
    Unpadded(s);
  }

  /** Digits alone read as their value. */
  lemma ParseUnsigned(s: string)
    requires |s| >= 1 && AllDigits(s)
    ensures ParseInt(s) == Some(DigitsValue(s))
  {
    Unpadded(s);
  }

  /** Text that starts and ends with non-space characters is its own `strip()`. */
  lemma Unpadded(s: string)
    requires |s| >= 1 && !IsSpace(s[0]) && !IsSpace(s[|s| - 1])
    ensures Strip(s) == s
  {
    assert TrimStart(s) == s;
  }

  /** A one-character pattern occurs exactly where that character stands. */
  lemma IsAtChar(s: string, c: char, k: int)
    ensures IsAt(s, [c], k) <==> 0 <= k < |s| && s[k] == c
  {
    if 0 <= k < |s| {
      assert s[k..k + 1] == [s[k]];
    }
  }

  /** Joining a non-empty list on a character that none of its items contains,
      then splitting on that character, gives the list back. */
  lemma {:induction false} SplitJoin(xs: seq<string>, c: char)
    requires |xs| >= 1
    requires forall i :: 0 <= i < |xs| ==> c !in xs[i]
    ensures Split(Join(xs, [c]), [c]) == xs
  {
    var s := Join(xs, [c]);
    if |xs| == 1 {
      forall k ensures !IsAt(s, [c], k) { IsAtChar(s, c, k); }
      assert FindFirst(s, [c]).None?;
    } else {
      var head := xs[0];
      var rest := Join(xs[1..], [c]);
      assert s == head + [c] + rest;
      IsAtChar(s, c, |head|);
      forall k | 0 <= k < |head| ensures !IsAt(s, [c], k) {
        IsAtChar(s, c, k);
        assert s[k] == head[k];
      }
      assert FindFirst(s, [c]) == Some(|head|);
      assert s[|head| + 1..] == rest;
      assert s[..|head|] == head;
      SplitJoin(xs[1..], c);
    }
  }
}
