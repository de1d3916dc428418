/**
 * The pieces of Python's string semantics the extractor relies on:
 * `str.strip()`, `str.lower()`, `in` on strings, `str.endswith`, `int(str)` and `str(int)`.
 */
module Text {
  import opened Basics

  /** The characters Python's `str.isspace` accepts (and `str.strip()` removes). */
  predicate IsSpace(c: char)
  {
    c == ' ' || ('\t' <= c <= '\r') || ('\U{1c}' <= c <= '\U{1f}') || c == '\U{85}' || c == '\U{a0}'
    || c == '\U{1680}' || ('\U{2000}' <= c <= '\U{200a}') || c == '\U{2028}' || c == '\U{2029}'
    || c == '\U{202f}' || c == '\U{205f}' || c == '\U{3000}'
  }

  function StripLeft(s: string): string
  {
    if |s| > 0 && IsSpace(s[0]) then StripLeft(s[1..]) else s
  }

  function StripRight(s: string): string
  {
    if |s| > 0 && IsSpace(s[|s| - 1]) then StripRight(s[..|s| - 1]) else s
  }

  /** `s.strip()`: `s` without leading and trailing white space. */
  function Strip(s: string): string
  {
    StripRight(StripLeft(s))
  }

  /** `s.strip() == ""`. */
  predicate IsBlank(s: string)
  {
    Strip(s) == []
  }

  lemma StripUnchanged(s: string)
    requires s == [] || (!IsSpace(s[0]) && !IsSpace(s[|s| - 1]))
    ensures Strip(s) == s
  {
  }

  function LowerChar(c: char): char
  {
    if 'A' <= c <= 'Z' then (c as int + 32) as char else c
  }

  /** `s.lower()`, for the ASCII letters. */
  function Lower(s: string): (r: string)
    ensures |r| == |s| && forall i :: 0 <= i < |s| ==> r[i] == LowerChar(s[i])
  {
    seq(|s|, i requires 0 <= i < |s| => LowerChar(s[i]))
  }

  /** Lower-casing twice is lower-casing once. */
  lemma LowerIdempotent(s: string)
    ensures Lower(Lower(s)) == Lower(s)
  {
    assert forall i :: 0 <= i < |s| ==> LowerChar(LowerChar(s[i])) == LowerChar(s[i]);
  }

  /** No ASCII capital is left, and every other character stays as it is. */
  lemma LowerNoCapitals(s: string)
    ensures forall i :: 0 <= i < |s| ==> !('A' <= Lower(s)[i] <= 'Z')
    ensures forall i :: 0 <= i < |s| && !('A' <= s[i] <= 'Z') ==> Lower(s)[i] == s[i]
  {
  }

  predicate StartsWith(s: string, prefix: string)
  {
    |prefix| <= |s| && s[..|prefix|] == prefix
  }

  /** `s.endswith(suffix)`. */
  predicate EndsWith(s: string, suffix: string)
  {
    |suffix| <= |s| && s[|s| - |suffix|..] == suffix
  }

  /** Python's `part in s` on strings. */
  predicate Contains(s: string, part: string)
    decreases |s|
  {
    StartsWith(s, part) || (|s| > 0 && Contains(s[1..], part))
  }

  predicate IsDigit(c: char)
  {
    '0' <= c <= '9'
  }

  predicate AllDigits(s: string)
  {
    forall i :: 0 <= i < |s| ==> IsDigit(s[i])
  }

  function DigitChar(d: int): (c: char)
    requires 0 <= d < 10
    ensures IsDigit(c) && c as int - '0' as int == d
  {
    ('0' as int + d) as char
  }

  /** The number a string of decimal digits denotes (leading zeros allowed). */
  function DigitsValue(s: string): nat
    requires AllDigits(s)
  {
    if s == [] then 0 else DigitsValue(s[..|s| - 1]) * 10 + (s[|s| - 1] as int - '0' as int)
  }

  /** `str(n)` for a natural number: its decimal digits, no leading zeros. */
  function NatToString(n: nat): (r: string)
    ensures |r| > 0 && AllDigits(r)
  {
    if n < 10 then [DigitChar(n)] else NatToString(n / 10) + [DigitChar(n % 10)]
  }

  /** `str(n)` for any integer. */
  function IntToString(n: int): string
  {
    if n < 0 then "-" + NatToString(-n) else NatToString(n)
  }

  /**
   * The body `int()` accepts after the sign: digits, with single underscores
   * allowed between two digits.
   */
  predicate IsDigitGroups(t: string)
  {
    |t| > 0 && IsDigit(t[0]) && IsDigit(t[|t| - 1])
    && (forall i :: 0 <= i < |t| ==> IsDigit(t[i]) || t[i] == '_')
    && (forall i :: 0 <= i < |t| - 1 && t[i] == '_' ==> IsDigit(t[i + 1]))
  }

  /** The digits of `t` with its underscores dropped. */
  function DropUnderscores(t: string): (r: string)
    requires forall i :: 0 <= i < |t| ==> IsDigit(t[i]) || t[i] == '_'
    ensures AllDigits(r)
    ensures AllDigits(t) ==> r == t
  {
    if t == [] then [] else (if t[0] == '_' then [] else [t[0]]) + DropUnderscores(t[1..])
  }

  function GroupsValue(t: string): nat
    requires IsDigitGroups(t)
  {
    DigitsValue(DropUnderscores(t))
  }

  /** `int()` of a body that may start with a sign. */
  function ParseSigned(t: string): Option<int>
  {
    if |t| > 0 && (t[0] == '+' || t[0] == '-') then
      if IsDigitGroups(t[1..]) then
        var v: int := GroupsValue(t[1..]);
        Some(if t[0] == '-' then -v else v)
      else None
    else if IsDigitGroups(t) then Some(GroupsValue(t))
    else None
  }

  /**
   * Python's `int(s)` for answers written with ASCII digits: `None` where
   * Python raises `ValueError`. Surrounding white space and one leading sign
   * are accepted. Other Unicode decimal digits, which Python also accepts,
   * read as not a number here.
   */
  function ParseInt(s: string): Option<int>
  {
    ParseSigned(Strip(s))
  }

  /** A blank answer is not a number (`int("")` raises). */
  lemma BlankIsNotInt(s: string)
    requires IsBlank(s)
    ensures ParseInt(s) == None
  {
  }

  lemma {:induction false} NatToStringValue(n: nat)
    ensures DigitsValue(NatToString(n)) == n
  {
    if n >= 10 {
      var s := NatToString(n);
      assert s[..|s| - 1] == NatToString(n / 10);
      NatToStringValue(n / 10);
    }
  }

  lemma NatToStringParses(n: nat)
    ensures IsDigitGroups(NatToString(n)) && GroupsValue(NatToString(n)) == n
  {
    NatToStringValue(n);
  }

  lemma ParseUnsigned(t: string)
    requires IsDigitGroups(t)
    ensures ParseInt(t) == Some(GroupsValue(t) as int)
  {
    StripUnchanged(t);
  }

  /** A plain string of digits reads as the number it denotes. */
  lemma ParseDigits(t: string)
    requires |t| > 0 && AllDigits(t)
    ensures ParseInt(t) == Some(DigitsValue(t) as int)
  {
    assert IsDigitGroups(t);
    ParseUnsigned(t);
  }

  lemma ParseNegative(t: string)
    requires IsDigitGroups(t)
    ensures ParseInt("-" + t) == Some(-(GroupsValue(t) as int))
  {
    var s := "-" + t;
    assert s[1..] == t;
    assert s[|s| - 1] == t[|t| - 1];
    StripUnchanged(s);
  }

  /** `int(str(n)) == n` for a natural number. */
  lemma NatRoundTrip(n: nat)
    ensures ParseInt(NatToString(n)) == Some(n)
  {
    NatToStringParses(n);
    ParseUnsigned(NatToString(n));
  }
}
