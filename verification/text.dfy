/** The few `str` operations of Python that the converter relies on:
    whitespace stripping, lower-casing, suffix tests and `rfind`. */
module Text {
  import opened Common

  /** Python's `str.isspace()` for one character: exactly the characters that
      `str.strip()` without arguments removes. */
  predicate IsSpace(c: char) {
    || ('\t' <= c <= '\r')
    || ('\U{1C}' <= c <= '\U{1F}')
    || c == ' '
    || c == '\U{85}'
    || c == '\U{A0}'
    || c == '\U{1680}'
    || ('\U{2000}' <= c <= '\U{200A}')
    || c == '\U{2028}'
    || c == '\U{2029}'
    || c == '\U{202F}'
    || c == '\U{205F}'
    || c == '\U{3000}'
  }

  /** Python's `str.lower()` for one character, restricted to the mappings whose
      result is an ASCII letter: `A`-`Z` and the Kelvin sign U+212A, which
      lower-cases to `k`. Every other character is kept. The converter only ever
      compares a lower-cased text with an ASCII text (`".apk"`, `"y"`), and no
      other mapping can produce an ASCII letter, so such comparisons come out as
      they do in Python (U+0130 lower-cases to two characters, the second one
      U+0307, which no ASCII comparison can match either). */
  function LowerChar(c: char): char {
    if 'A' <= c <= 'Z' then (c as int + 32) as char
    else if c == '\U{212A}' then 'k'
    else c
  }

  /** `s.lower()`, one character at a time. */
  function Lower(s: string): (r: string)
    ensures |r| == |s|
    ensures forall i :: 0 <= i < |s| ==> r[i] == LowerChar(s[i])
  {
    seq(|s|, i requires 0 <= i < |s| => LowerChar(s[i]))
  }

  /** `s.endswith(suffix)`. */
  predicate EndsWith(s: string, suffix: string) {
    |suffix| <= |s| && s[|s| - |suffix|..] == suffix
  }

  /** Number of whitespace characters `str.lstrip()` removes from the front. */
  function LeadingSpaces(s: string): (n: nat)
    ensures n <= |s|
    ensures forall k :: 0 <= k < n ==> IsSpace(s[k])
    ensures n < |s| ==> !IsSpace(s[n])
  {
    if |s| > 0 && IsSpace(s[0]) then 1 + LeadingSpaces(s[1..]) else 0
  }

  /** Number of whitespace characters `str.rstrip()` removes from the back. */
  function TrailingSpaces(s: string): (n: nat)
    ensures n <= |s|
    ensures forall k :: |s| - n <= k < |s| ==> IsSpace(s[k])
    ensures n < |s| ==> !IsSpace(s[|s| - 1 - n])
  {
    if |s| > 0 && IsSpace(s[|s| - 1]) then 1 + TrailingSpaces(s[..|s| - 1]) else 0
  }

  /** `s.strip()`: the infix of `s` left after removing whitespace at both ends.
      It starts where the leading whitespace ends, every character outside it
      is whitespace, and it neither starts nor ends with whitespace. */
  function Strip(s: string): (r: string)
    ensures LeadingSpaces(s) + |r| <= |s|
    ensures r == s[LeadingSpaces(s)..LeadingSpaces(s) + |r|]
    ensures forall k :: 0 <= k < |s| && !(LeadingSpaces(s) <= k < LeadingSpaces(s) + |r|) ==> IsSpace(s[k])
    ensures |r| > 0 ==> !IsSpace(r[0]) && !IsSpace(r[|r| - 1])
  {
    var i := LeadingSpaces(s);
    if i == |s| then []
    else
      var t := TrailingSpaces(s);
      assert !IsSpace(s[i]);
      s[i..|s| - t]
  }

  /** `s.rfind(c)` generalised to a set of characters: the position of the last
      character of `s` that is in `cs`, or `None` when there is none. */
  function LastIndexIn(s: string, cs: set<char>): (r: Option<nat>)
    ensures r.Some? ==> r.value < |s| && s[r.value] in cs
    ensures r.Some? ==> forall k :: r.value < k < |s| ==> s[k] !in cs
    ensures r.None? ==> forall k :: 0 <= k < |s| ==> s[k] !in cs
  {
    if |s| == 0 then None
    else if s[|s| - 1] in cs then Some(|s| - 1)
    else LastIndexIn(s[..|s| - 1], cs)
  }
}
