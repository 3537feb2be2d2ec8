/** Python string operations used by the postcode code, over ASCII.
    Python slices clamp to the string's bounds instead of failing; the
    helpers here do the same, so `Take(s, 4)` is `s[:4]` and `LastN(s, 3)`
    is `s[-3:]` even when `s` is shorter than that. */
module Text {

  function Min(a: int, b: int): int { if a <= b then a else b }

  /** `s[:n]` */
  function Take(s: string, n: nat): (r: string)
    ensures |r| == Min(n, |s|)
    ensures forall i :: 0 <= i < |r| ==> r[i] == s[i]
  {
    s[..Min(n, |s|)]
  }

  /** `s[n:]` */
  function Drop(s: string, n: nat): (r: string)
    ensures |r| == |s| - Min(n, |s|)
    ensures Take(s, n) + r == s
  {
    s[Min(n, |s|)..]
  }

  /** `s[-n:]` for n > 0: the last n characters, or all of them */
  function LastN(s: string, n: nat): (r: string)
    requires n > 0
    ensures |r| == Min(n, |s|)
    ensures forall i :: 0 <= i < |r| ==> r[i] == s[|s| - |r| + i]
  {
    s[|s| - Min(n, |s|)..]
  }

  /** `str.startswith` */
  predicate StartsWith(s: string, prefix: string) {
    |prefix| <= |s| && s[..|prefix|] == prefix
  }

  /** The search `for prefix in prefixes: if s.startswith(prefix): ...`:
      it is decided by the first prefix that matches, so it holds exactly
      when some prefix of the list matches. */
  function StartsWithAny(s: string, prefixes: seq<string>): (r: bool)
    ensures r <==> exists i :: 0 <= i < |prefixes| && StartsWith(s, prefixes[i])
  {
    if prefixes == [] then false
    else if StartsWith(s, prefixes[0]) then true
    else
      var rest := StartsWithAny(s, prefixes[1..]);
      assert forall i :: 1 <= i < |prefixes| ==> prefixes[i] == prefixes[1..][i - 1];
      rest
  }

  /** Python's `[A-Z]` */
  predicate IsUpper(c: char) { 'A' <= c <= 'Z' }

  predicate IsLower(c: char) { 'a' <= c <= 'z' }

  /** `str.isdigit` restricted to ASCII; Python's `[0-9]` */
  predicate IsDigit(c: char) { '0' <= c <= '9' }

  /** `str.isalpha` restricted to ASCII */
  predicate IsAlpha(c: char) { IsUpper(c) || IsLower(c) }

  /** `str.isalnum` restricted to ASCII */
  predicate IsAlnum(c: char) { IsAlpha(c) || IsDigit(c) }

  /** `str.isdigit` on a whole string: nonempty and only digits */
  predicate AllDigits(s: string) {
    |s| > 0 && forall i :: 0 <= i < |s| ==> IsDigit(s[i])
  }
}
