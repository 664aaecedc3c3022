/**
 * The two string operations the filter relies on: ASCII upper-casing (`str.upper()`
 * restricted to ASCII) and substring containment (Python's `needle in haystack`).
 */
module Text {

  /** Upper-case one character: 'a'..'z' become 'A'..'Z', everything else is left alone. */
  function UpperChar(c: char): (u: char)
    ensures 'a' <= c <= 'z' ==> 'A' <= u <= 'Z' && u as int == c as int - 32
    ensures !('a' <= c <= 'z') ==> u == c
  {
    if 'a' <= c <= 'z' then (c as int - 32) as char else c
  }

  /** `s.upper()` on ASCII text: same length, each character upper-cased in place. */
  function Upper(s: string): (r: string)
    ensures |r| == |s|
    ensures forall i :: 0 <= i < |s| ==> r[i] == UpperChar(s[i])
  {
    if s == [] then [] else [UpperChar(s[0])] + Upper(s[1..])
  }

  /** Two strings that differ at most in the letter case of their characters. */
  ghost predicate SameUpToCase(a: string, b: string) {
    |a| == |b| && forall i :: 0 <= i < |a| ==> UpperChar(a[i]) == UpperChar(b[i])
  }

  /** Upper-casing twice is upper-casing once. */
  lemma UpperIdempotent(s: string)
    ensures Upper(Upper(s)) == Upper(s)
  {
    var u := Upper(s);
    forall i | 0 <= i < |s| ensures Upper(u)[i] == u[i] {
      assert u[i] == UpperChar(s[i]);
    }
  }

  /** Upper-casing commutes with taking a prefix. */
  lemma UpperPrefix(s: string, k: nat)
    requires k <= |s|
    ensures Upper(s)[..k] == Upper(s[..k])
  {
  }

  /** Strings that agree up to case have the same upper-case form, and conversely. */
  lemma UpperEqualIffSameUpToCase(a: string, b: string)
    ensures Upper(a) == Upper(b) <==> SameUpToCase(a, b)
  {
    if SameUpToCase(a, b) {
      forall i | 0 <= i < |a| ensures Upper(a)[i] == Upper(b)[i] { }
    }
    if Upper(a) == Upper(b) {
      forall i | 0 <= i < |a| ensures UpperChar(a[i]) == UpperChar(b[i]) {
        assert Upper(a)[i] == Upper(b)[i];
      }
    }
  }

  /** `needle` occurs in `haystack` starting at offset `i`. */
  ghost predicate OccursAt(needle: string, haystack: string, i: int) {
    0 <= i <= |haystack| - |needle| && haystack[i..i + |needle|] == needle
  }

  /** `needle` occurs in `haystack` at some offset: the meaning of Python's `needle in haystack`. */
  ghost predicate IsSubstring(needle: string, haystack: string) {
    exists i :: OccursAt(needle, haystack, i)
  }

  /** Python's `needle in haystack` for strings; the empty needle occurs in every string. */
  function Contains(needle: string, haystack: string): (r: bool)
    ensures r <==> IsSubstring(needle, haystack)
    decreases |haystack|
  {
    if |needle| > |haystack| then
      false
    else if haystack[..|needle|] == needle then
      assert OccursAt(needle, haystack, 0);
      true
    else
      var rest := haystack[1..];
      var r := Contains(needle, rest);
      assert IsSubstring(needle, haystack) ==> IsSubstring(needle, rest) by {
        if IsSubstring(needle, haystack) {
          var i :| OccursAt(needle, haystack, i);
          assert i != 0;
          assert rest[i - 1..i - 1 + |needle|] == haystack[i..i + |needle|];
          assert OccursAt(needle, rest, i - 1);
        }
      }
      assert IsSubstring(needle, rest) ==> IsSubstring(needle, haystack) by {
        if IsSubstring(needle, rest) {
          var j :| OccursAt(needle, rest, j);
          assert haystack[j + 1..j + 1 + |needle|] == rest[j..j + |needle|];
          assert OccursAt(needle, haystack, j + 1);
        }
      }
      r
  }

  /** The empty string contains only the empty string. */
  lemma EmptyContainsOnlyEmpty(needle: string)
    ensures Contains(needle, "") <==> needle == ""
  {
  }
}
