/** Session identity: the display name the user submits is trimmed of surrounding white space
    (JavaScript's String.prototype.trim) and accepted only when something remains. */
module Identity {

  /** JavaScript's WhiteSpace and LineTerminator characters: tab, line feed, vertical tab,
      form feed, carriage return, the Unicode space separators (category Zs), the line and
      paragraph separators, and the byte order mark. */
  predicate IsWhitespace(c: char) {
    var n := c as int;
    (0x09 <= n <= 0x0D) || n == 0x20 || n == 0xA0 || n == 0x1680 ||
    (0x2000 <= n <= 0x200A) || n == 0x2028 || n == 0x2029 || n == 0x202F ||
    n == 0x205F || n == 0x3000 || n == 0xFEFF
  }

  predicate AllWhitespace(s: string) {
    forall k :: 0 <= k < |s| ==> IsWhitespace(s[k])
  }

  /** The end of the run of white space that starts at `i`: everything in between is white
      space, and the character there (if any) is not. */
  function LeadingEnd(s: string, i: nat): (j: nat)
    requires i <= |s|
    ensures i <= j <= |s|
    ensures forall k :: i <= k < j ==> IsWhitespace(s[k])
    ensures j == |s| || !IsWhitespace(s[j])
    decreases |s| - i
  {
    if i < |s| && IsWhitespace(s[i]) then LeadingEnd(s, i + 1) else i
  }

  /** The start of the run of white space that ends at `j`, not going below `lo`: everything
      in between is white space, and the character before it (if above `lo`) is not. */
  function TrailingStart(s: string, lo: nat, j: nat): (i: nat)
    requires lo <= j <= |s|
    ensures lo <= i <= j
    ensures forall k :: i <= k < j ==> IsWhitespace(s[k])
    ensures i == lo || !IsWhitespace(s[i - 1])
    decreases j
  {
    if j > lo && IsWhitespace(s[j - 1]) then TrailingStart(s, lo, j - 1) else j
  }

  /** The trimmed name: empty exactly when the input is all white space, and otherwise
      neither starting nor ending with white space. */
  function Trim(s: string): (r: string)
    ensures r == [] <==> AllWhitespace(s)
    ensures r == [] || (!IsWhitespace(r[0]) && !IsWhitespace(r[|r| - 1]))
  {
    var lo := LeadingEnd(s, 0);
    var hi := TrailingStart(s, lo, |s|);
    assert lo < hi ==> s[lo..hi][0] == s[lo] && s[lo..hi][hi - lo - 1] == s[hi - 1];
    s[lo..hi]
  }

  /** Trimming the trimmed name changes nothing. */
  lemma TrimIdempotent(s: string)
    ensures Trim(Trim(s)) == Trim(s)
  {
    var r := Trim(s);
    if r != [] {
      assert LeadingEnd(r, 0) == 0;
      assert TrailingStart(r, 0, |r|) == |r|;
    }
  }

  /** The trimmed name is the input with white space only before and after it. */
  lemma TrimIsSlice(s: string)
    ensures var lo := LeadingEnd(s, 0);
      lo + |Trim(s)| <= |s| && Trim(s) == s[lo..lo + |Trim(s)|] &&
      (forall k :: 0 <= k < lo ==> IsWhitespace(s[k])) &&
      (forall k :: lo + |Trim(s)| <= k < |s| ==> IsWhitespace(s[k]))
  {
  }
}
