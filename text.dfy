/**
 * The string operations the launcher relies on: String.Trim, String.IsNullOrWhiteSpace
 * and an ordinal case-insensitive comparison.
 */
module Text {
  import opened Wrappers

  /**
   * The characters Char.IsWhiteSpace accepts: U+0009..U+000D, U+0020, U+0085, U+00A0,
   * U+1680, U+2000..U+200A, U+2028, U+2029, U+202F, U+205F and U+3000.
   */
  function IsWhiteSpace(c: char): (r: bool)
    ensures c == ' ' || '\t' <= c <= '\r' ==> r
    ensures '0' <= c <= '9' || 'A' <= c <= 'Z' || 'a' <= c <= 'z' ==> !r
    ensures c == '\U{200B}' || c == '\U{FEFF}' ==> !r   // zero-width space and BOM are not white space
  {
    ('\t' <= c <= '\r') || c == ' ' || c == '\U{0085}' || c == '\U{00A0}' || c == '\U{1680}'
    || ('\U{2000}' <= c <= '\U{200A}') || c == '\U{2028}' || c == '\U{2029}' || c == '\U{202F}'
    || c == '\U{205F}' || c == '\U{3000}'
  }

  predicate AllWhiteSpace(s: string) {
    forall i :: 0 <= i < |s| ==> IsWhiteSpace(s[i])
  }

  /** No white space at either end. */
  predicate Trimmed(s: string) {
    s == [] || (!IsWhiteSpace(s[0]) && !IsWhiteSpace(s[|s| - 1]))
  }

  /** The length of the longest all-white-space prefix of s. */
  function LeadingWhiteSpace(s: string): (k: nat)
    ensures k <= |s|
    ensures AllWhiteSpace(s[..k])
    ensures k < |s| ==> !IsWhiteSpace(s[k])
  {
    if s == [] || !IsWhiteSpace(s[0]) then 0
    else
      var k' := LeadingWhiteSpace(s[1..]);
      assert s[..k' + 1] == [s[0]] + s[1..][..k'];
      k' + 1
  }

  /** The length of the longest all-white-space suffix of s. */
  function TrailingWhiteSpace(s: string): (k: nat)
    ensures k <= |s|
    ensures AllWhiteSpace(s[|s| - k..])
    ensures k < |s| ==> !IsWhiteSpace(s[|s| - 1 - k])
  {
    if s == [] || !IsWhiteSpace(s[|s| - 1]) then 0
    else
      var init := s[..|s| - 1];
      var k' := TrailingWhiteSpace(init);
      assert s[|s| - (k' + 1)..] == init[|init| - k'..] + [s[|s| - 1]];
      k' + 1
  }

  /** String.Trim(): s without its leading and trailing white space. */
  function Trim(s: string): (r: string)
    ensures |r| <= |s|
    ensures Trimmed(r)
    ensures r == [] <==> AllWhiteSpace(s)
  {
    var start := LeadingWhiteSpace(s);
    var rest := s[start..];
    var r := rest[..|rest| - TrailingWhiteSpace(rest)];
    assert r == [] ==> s == s[..start] + rest[..] && start == |s|;
    assert r != [] ==> s[start] == r[0] && !AllWhiteSpace(s);
    r
  }

  /** s splits into white space, Trim(s) and white space. */
  lemma TrimSplits(s: string) returns (prefix: string, suffix: string)
    ensures s == prefix + Trim(s) + suffix
    ensures AllWhiteSpace(prefix) && AllWhiteSpace(suffix)
  {
    var start := LeadingWhiteSpace(s);
    var rest := s[start..];
    var end := |rest| - TrailingWhiteSpace(rest);
    prefix, suffix := s[..start], rest[end..];
    assert s == prefix + rest;
    assert rest == rest[..end] + suffix;
  }

  lemma {:induction false} LeadingOfPadded(p: string, t: string)
    requires AllWhiteSpace(p)
    requires t == [] || !IsWhiteSpace(t[0])
    ensures LeadingWhiteSpace(p + t) == |p|
  {
    if p != [] {
      assert (p + t)[1..] == p[1..] + t;
      LeadingOfPadded(p[1..], t);
    }
  }

  lemma {:induction false} TrailingOfPadded(t: string, q: string)
    requires AllWhiteSpace(q)
    requires t == [] || !IsWhiteSpace(t[|t| - 1])
    ensures TrailingWhiteSpace(t + q) == |q|
  {
    if q != [] {
      var s := t + q;
      assert s[..|s| - 1] == t + q[..|q| - 1];
      TrailingOfPadded(t, q[..|q| - 1]);
    }
  }

  /** Trim removes exactly the white space around a trimmed word: the converse of TrimSplits. */
  lemma TrimOfPadded(p: string, w: string, q: string)
    requires AllWhiteSpace(p) && AllWhiteSpace(q)
    requires Trimmed(w)
    ensures Trim(p + w + q) == w
  {
    var s := p + w + q;
    if w == [] {
      assert s == p + q;
      assert AllWhiteSpace(s);
    } else {
      assert s == p + (w + q);
      LeadingOfPadded(p, w + q);
      assert s[|p|..] == w + q;
      TrailingOfPadded(w, q);
    }
  }

  /** String.IsNullOrWhiteSpace: null, or a string that trimming leaves empty. */
  function IsNullOrWhiteSpace(s: Option<string>): (r: bool)
    ensures s.None? ==> r
    ensures s.Some? ==> (r <==> Trim(s.value) == [])
  {
    s.None? || AllWhiteSpace(s.value)
  }

  /**
   * The ordinal case-insensitive key of a character: ASCII lower-case letters fold to
   * upper case, every other character is compared as it is.
   */
  function FoldCase(c: char): (f: char)
    ensures 'a' <= c <= 'z' ==> f as int == c as int - 32
    ensures !('a' <= c <= 'z') ==> f == c
    ensures !('a' <= f <= 'z')
  {
    if 'a' <= c <= 'z' then (c as int - 32) as char else c
  }

  /** String.Equals(a, b, StringComparison.OrdinalIgnoreCase), with ASCII case folding. */
  function EqualsIgnoreCase(a: string, b: string): (r: bool)
    ensures a == b ==> r
    ensures r ==> |a| == |b|
  {
    |a| == |b| && forall i :: 0 <= i < |a| ==> FoldCase(a[i]) == FoldCase(b[i])
  }
}
