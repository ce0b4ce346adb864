/**
 * The handful of Python `str` operations the chat loop and the code-fence
 * highlighter rely on: `strip()`, `lower()` and `isalnum()`.
 */
module PyStr {

  /** The characters for which Python's `str.isspace()` is true; `str.strip()` removes exactly these. */
  predicate IsSpace(c: char) {
    c == ' ' || ('\t' <= c <= '\r') || ('\U{1C}' <= c <= '\U{1F}')
    || c == '\U{85}' || c == '\U{A0}' || c == '\U{1680}'
    || ('\U{2000}' <= c <= '\U{200A}') || c == '\U{2028}' || c == '\U{2029}'
    || c == '\U{202F}' || c == '\U{205F}' || c == '\U{3000}'
  }

  predicate AllSpace(s: string) {
    forall k :: 0 <= k < |s| ==> IsSpace(s[k])
  }

  /** The end of the run of whitespace that starts at index `i` of `s`. */
  function SpaceRunFrom(s: string, i: nat): (j: nat)
    requires i <= |s|
    ensures i <= j <= |s|
    ensures forall k :: i <= k < j ==> IsSpace(s[k])
    ensures j < |s| ==> !IsSpace(s[j])
    decreases |s| - i
  {
    if i < |s| && IsSpace(s[i]) then SpaceRunFrom(s, i + 1) else i
  }

  /** The start of the run of whitespace that ends at index `hi` of `s`, looking no further back than `lo`. */
  function SpaceRunBack(s: string, lo: nat, hi: nat): (j: nat)
    requires lo <= hi <= |s|
    ensures lo <= j <= hi
    ensures forall k :: j <= k < hi ==> IsSpace(s[k])
    ensures lo < j ==> !IsSpace(s[j - 1])
    decreases hi - lo
  {
    if lo < hi && IsSpace(s[hi - 1]) then SpaceRunBack(s, lo, hi - 1) else hi
  }

  /** Python's `s.strip()`: `s` without its leading and trailing whitespace. */
  function Strip(s: string): (r: string)
    ensures |r| <= |s|
    ensures r == [] || (!IsSpace(r[0]) && !IsSpace(r[|r| - 1]))
    ensures r == [] <==> AllSpace(s)
  {
    var i := SpaceRunFrom(s, 0);
    var j := SpaceRunBack(s, i, |s|);
    s[i..j]
  }

  /** What `strip()` removes is whitespace, from the two ends only: the result is the input with a whitespace prefix and suffix cut off. */
  lemma StripCutsEnds(s: string)
    ensures exists i :: 0 <= i <= |s| - |Strip(s)| && s[i..i + |Strip(s)|] == Strip(s) && AllSpace(s[..i]) && AllSpace(s[i + |Strip(s)|..])
  {
    var i := SpaceRunFrom(s, 0);
    var j := SpaceRunBack(s, i, |s|);
    assert AllSpace(s[..i]);
    assert AllSpace(s[j..]);
    assert s[i..i + |Strip(s)|] == Strip(s);
  }

  /**
   * Python's `c.lower()` for the characters it maps to an ASCII letter:
   * `A`-`Z`, and the Kelvin sign, which lowers to `k`.  Other characters are
   * left as they are.
   */
  function LowerChar(c: char): char {
    if 'A' <= c <= 'Z' then (c as int - 'A' as int + 'a' as int) as char
    else if c == '\U{212A}' then 'k'
    else c
  }

  /** Python's `s.lower()`, character by character. */
  function Lower(s: string): (r: string)
    ensures |r| == |s|
  {
    seq(|s|, k requires 0 <= k < |s| => LowerChar(s[k]))
  }

  /** Python's `c.isalnum()` on the ASCII range. */
  predicate IsAlnumChar(c: char) {
    ('0' <= c <= '9') || ('a' <= c <= 'z') || ('A' <= c <= 'Z')
  }

  /** Python's `s.isalnum()`: non-empty and every character alphanumeric. */
  predicate IsAlnum(s: string) {
    |s| > 0 && forall k :: 0 <= k < |s| ==> IsAlnumChar(s[k])
  }

  /** Only an ASCII letter, its upper-case form, or (for `k`) the Kelvin sign lowers to an ASCII lower-case letter. */
  lemma LowerCharOnto(c: char)
    requires 'a' <= LowerChar(c) <= 'z'
    ensures c == LowerChar(c) || c as int == LowerChar(c) as int - 32 || (LowerChar(c) == 'k' && c == '\U{212A}')
  {
  }

  /** A string that `lower()` maps to an ASCII word has no whitespace, so `strip()` leaves it alone. */
  lemma {:induction false} StripOfLowerWord(s: string, w: string)
    requires Lower(s) == w
    requires forall k :: 0 <= k < |w| ==> 'a' <= w[k] <= 'z'
    ensures Strip(s) == s
  {
    assert forall k :: 0 <= k < |s| ==> !IsSpace(s[k]) by {
      forall k | 0 <= k < |s| ensures !IsSpace(s[k]) {
        assert LowerChar(s[k]) == w[k];
      }
    }
    assert SpaceRunFrom(s, 0) == 0;
    assert SpaceRunBack(s, 0, |s|) == |s|;
  }
}
