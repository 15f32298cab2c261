/**
 * The few PHP string operations the core relies on, on `seq<char>`:
 * ASCII case folding (`mb_strtolower` and the `/i` regex flag on the ASCII
 * letters the core looks for), prefix tests, first-occurrence search and
 * removal (`preg_replace(..., 1)` and `Str::replaceFirst` with an empty
 * replacement), `implode` and decimal rendering of keys.
 */
module Strings {
  import opened Wrappers

  /** Lower-cases an ASCII capital letter; every other character is kept. */
  function LowerChar(c: char): char
  {
    if 'A' <= c <= 'Z' then (c as int + 32) as char else c
  }

  /** Character-wise lower-casing. */
  function Lower(s: string): (r: string)
    ensures |r| == |s|
    ensures forall i :: 0 <= i < |s| ==> r[i] == LowerChar(s[i])
  {
    seq(|s|, i requires 0 <= i < |s| => LowerChar(s[i]))
  }

  /** Whether two characters are equal, ignoring ASCII case when `ignoreCase`. */
  predicate SameChar(a: char, b: char, ignoreCase: bool)
  {
    if ignoreCase then LowerChar(a) == LowerChar(b) else a == b
  }

  /** Whether `p` occurs in `s` at index `i`. */
  predicate MatchesAt(s: string, p: string, i: nat, ignoreCase: bool)
  {
    i + |p| <= |s| && forall k :: 0 <= k < |p| ==> SameChar(s[i + k], p[k], ignoreCase)
  }

  /** Whether `s` starts with `p`. */
  predicate StartsWith(s: string, p: string, ignoreCase: bool)
  {
    MatchesAt(s, p, 0, ignoreCase)
  }

  /** The index of the first occurrence of `p` in `s`, or None. */
  function IndexOf(s: string, p: string, ignoreCase: bool): (r: Option<nat>)
    ensures r.Some? ==> MatchesAt(s, p, r.value, ignoreCase)
    ensures r.Some? ==> forall j :: 0 <= j < r.value ==> !MatchesAt(s, p, j, ignoreCase)
    ensures r.None? ==> forall j :: 0 <= j <= |s| ==> !MatchesAt(s, p, j, ignoreCase)
    decreases |s|
  {
    if MatchesAt(s, p, 0, ignoreCase) then Some(0)
    else if s == [] then None
    else
      match IndexOf(s[1..], p, ignoreCase)
      case None =>
        assert forall j :: 1 <= j <= |s| ==>
          (MatchesAt(s, p, j, ignoreCase) <==> MatchesAt(s[1..], p, j - 1, ignoreCase));
        None
      case Some(i) =>
        assert forall j :: 1 <= j <= |s| ==>
          (MatchesAt(s, p, j, ignoreCase) <==> MatchesAt(s[1..], p, j - 1, ignoreCase));
        Some(i + 1)
  }

  /**
   * `s` with its first occurrence of `p` removed, and otherwise unchanged:
   * `preg_replace('/p/', '', s, 1)` (with `i` when `ignoreCase`) and
   * `Str::replaceFirst(p, '', s)`.
   */
  function RemoveFirst(s: string, p: string, ignoreCase: bool): (r: string)
    requires |p| > 0
    ensures IndexOf(s, p, ignoreCase).None? ==> r == s
    ensures IndexOf(s, p, ignoreCase).Some? ==>
      var i := IndexOf(s, p, ignoreCase).value; r == s[..i] + s[i + |p|..] && |r| == |s| - |p|
  {
    match IndexOf(s, p, ignoreCase)
    case None => s
    case Some(i) => s[..i] + s[i + |p|..]
  }

  /** Removing a pattern that `s` starts with drops exactly that prefix. */
  lemma RemoveFirstOfPrefix(s: string, p: string, ignoreCase: bool)
    requires |p| > 0 && StartsWith(s, p, ignoreCase)
    ensures RemoveFirst(s, p, ignoreCase) == s[|p|..]
  {
  }

  /** `implode(sep, xs)`. */
  function Join(xs: seq<string>, sep: string): string
  {
    if xs == [] then ""
    else if |xs| == 1 then xs[0]
    else xs[0] + sep + Join(xs[1..], sep)
  }

  /** Whether `s` consists of decimal digits only. */
  predicate IsDigits(s: string)
  {
    forall i :: 0 <= i < |s| ==> '0' <= s[i] <= '9'
  }

  /** The number a string of decimal digits denotes, most significant digit first. */
  function DigitsValue(s: string): nat
    requires IsDigits(s)
  {
    if s == [] then 0 else DigitsValue(s[..|s| - 1]) * 10 + (s[|s| - 1] as int - '0' as int)
  }

  /**
   * The decimal digits of a natural number, as PHP renders an integer key:
   * they denote the number, and there is no leading zero.
   */
  function NatToString(n: nat): (r: string)
    ensures |r| > 0 && IsDigits(r)
    ensures DigitsValue(r) == n
    ensures r[0] == '0' ==> n == 0 && r == "0"
  {
    if n < 10 then [Digit(n)]
    else
      var prefix := NatToString(n / 10);
      var r := prefix + [Digit(n % 10)];
      assert r[..|r| - 1] == prefix;
      r
  }

  function Digit(d: nat): char
    requires d < 10
  {
    ('0' as int + d) as char
  }
}
