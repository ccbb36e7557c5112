/** Python's argument-less str.strip(), on strings of Unicode scalar values. */
module PyStr {

  /** The characters for which Python's str.isspace() holds: exactly those str.strip() removes. */
  predicate IsSpace(c: char) {
    || c == ' '
    || ('\t' <= c <= '\r')
    || ('\U{1C}' <= c <= '\U{1F}')
    || c == '\U{85}' || c == '\U{A0}' || c == '\U{1680}'
    || ('\U{2000}' <= c <= '\U{200A}')
    || c == '\U{2028}' || c == '\U{2029}' || c == '\U{202F}' || c == '\U{205F}' || c == '\U{3000}'
  }

  /** How many whitespace characters `s` starts with. */
  function LeadingSpaces(s: string): (n: nat)
    ensures n <= |s|
    ensures forall k :: 0 <= k < n ==> IsSpace(s[k])
    ensures n < |s| ==> !IsSpace(s[n])
  {
    if |s| > 0 && IsSpace(s[0]) then
      var n := 1 + LeadingSpaces(s[1..]);
      assert forall k :: 1 <= k < n ==> s[1..][k - 1] == s[k];
      n
    else 0
  }

  /** Where the whitespace that `s` ends with begins. */
  function TrailingStart(s: string): (n: nat)
    ensures n <= |s|
    ensures forall k :: n <= k < |s| ==> IsSpace(s[k])
    ensures 0 < n ==> !IsSpace(s[n - 1])
  {
    if |s| > 0 && IsSpace(s[|s| - 1]) then
      var p := s[..|s| - 1];
      var n := TrailingStart(p);
      assert forall k :: n <= k < |p| ==> p[k] == s[k];
      n
    else |s|
  }

  /** Python's `s.strip()`: whitespace removed from both ends. */
  function Strip(s: string): (r: string)
    ensures |r| <= |s|
    ensures r == [] || (!IsSpace(r[0]) && !IsSpace(r[|r| - 1]))
  {
    var i := LeadingSpaces(s);
    if i == |s| then []
    else
      // s[i] is not whitespace, so the trailing whitespace starts after it
      var j := TrailingStart(s);
      assert i < j;
      s[i..j]
  }

  /** Strip keeps what lies between a whitespace-only prefix and a whitespace-only suffix of `s`. */
  lemma StripCutsSpaces(s: string)
    ensures var i, r := LeadingSpaces(s), Strip(s);
      && i + |r| <= |s|
      && r == s[i..i + |r|]
      && forall k :: 0 <= k < |s| && (k < i || i + |r| <= k) ==> IsSpace(s[k])
  {
  }

  /** Strip's result is the only slice of `s` that is surrounded by whitespace and has none at its ends. */
  lemma StripUnique(s: string, i: nat, j: nat)
    requires i <= j <= |s|
    requires forall k :: 0 <= k < |s| && (k < i || j <= k) ==> IsSpace(s[k])
    requires i < j ==> !IsSpace(s[i]) && !IsSpace(s[j - 1])
    ensures Strip(s) == s[i..j]
  {
  }

  /** Stripping twice is the same as stripping once. */
  lemma StripIdempotent(s: string)
    ensures Strip(Strip(s)) == Strip(s)
  {
    var r := Strip(s);
    StripUnique(r, 0, |r|);
    assert r[0..|r|] == r;
  }
}
