/** Go's `strings.TrimSpace`, the one string operation the getters apply to a
    value before returning it.  A string is a sequence of Unicode scalar
    values; a character is white space when it has the Unicode White_Space
    property, which is the set Go's `unicode.IsSpace` accepts. */
module GoStrings {

  predicate IsSpace(c: char) {
    || c == ' '
    || '\t' <= c <= '\r'              // tab, line feed, vertical tab, form feed, carriage return
    || c == '\U{0085}' || c == '\U{00A0}' || c == '\U{1680}'
    || '\U{2000}' <= c <= '\U{200A}'
    || c == '\U{2028}' || c == '\U{2029}' || c == '\U{202F}' || c == '\U{205F}' || c == '\U{3000}'
  }

  predicate AllSpace(s: string) {
    forall k :: 0 <= k < |s| ==> IsSpace(s[k])
  }

  /** The number of white-space characters at the front of `s`. */
  function LeadingSpaces(s: string): (n: nat)
    ensures n <= |s|
    ensures AllSpace(s[..n])
    ensures n < |s| ==> !IsSpace(s[n])
  {
    if |s| == 0 || !IsSpace(s[0]) then 0 else 1 + LeadingSpaces(s[1..])
  }

  /** The number of white-space characters at the back of `s`. */
  function TrailingSpaces(s: string): (n: nat)
    ensures n <= |s|
    ensures AllSpace(s[|s| - n..])
    ensures n < |s| ==> !IsSpace(s[|s| - n - 1])
  {
    if |s| == 0 || !IsSpace(s[|s| - 1]) then 0 else 1 + TrailingSpaces(s[..|s| - 1])
  }

  /** `s` without its leading and trailing white space: what is left is the
      middle of `s`, all that was cut off is white space, and the result
      neither starts nor ends with white space. */
  function TrimSpace(s: string): (r: string)
    ensures r == [] || (!IsSpace(r[0]) && !IsSpace(r[|r| - 1]))
    ensures var lo := LeadingSpaces(s);
      && lo + |r| <= |s|
      && s[lo..lo + |r|] == r
      && AllSpace(s[..lo])
      && AllSpace(s[lo + |r|..])
  {
    var rest := s[LeadingSpaces(s)..];
    rest[..|rest| - TrailingSpaces(rest)]
  }

  lemma {:induction false} LeadingSpacesIs(s: string, n: nat)
    requires n <= |s| && AllSpace(s[..n])
    requires n < |s| ==> !IsSpace(s[n])
    ensures LeadingSpaces(s) == n
  {
    if n > 0 {
      assert IsSpace(s[..n][0]);
      assert s[1..][..n - 1] == s[..n][1..];
      LeadingSpacesIs(s[1..], n - 1);
    }
  }

  lemma {:induction false} TrailingSpacesIs(s: string, n: nat)
    requires n <= |s| && AllSpace(s[|s| - n..])
    requires n < |s| ==> !IsSpace(s[|s| - n - 1])
    ensures TrailingSpaces(s) == n
  {
    if n > 0 {
      assert IsSpace(s[|s| - n..][n - 1]);
      var t := s[..|s| - 1];
      assert t[|t| - (n - 1)..] == s[|s| - n..][..n - 1];
      TrailingSpacesIs(t, n - 1);
    }
  }

  /** TrimSpace is determined by what it promises: whenever `s` is white
      space, then a middle part that neither starts nor ends with white
      space, then white space, the result is exactly that middle part. */
  lemma TrimSpaceOf(a: string, m: string, b: string)
    requires AllSpace(a) && AllSpace(b)
    requires m == [] || (!IsSpace(m[0]) && !IsSpace(m[|m| - 1]))
    ensures TrimSpace(a + m + b) == m
  {
    var s := a + m + b;
    if m == [] {
      assert s == a + b;
      assert AllSpace(s[..|s|]) by { assert s[..|s|] == a + b; }
      LeadingSpacesIs(s, |s|);
    } else {
      assert s[..|a|] == a;
      assert s[|a|] == m[0];
      LeadingSpacesIs(s, |a|);
      var rest := s[|a|..];
      assert rest == m + b;
      assert rest[|rest| - |b|..] == b;
      assert rest[|rest| - |b| - 1] == m[|m| - 1];
      TrailingSpacesIs(rest, |b|);
      assert rest[..|rest| - |b|] == m;
    }
  }

  /** Trimming twice is trimming once. */
  lemma TrimSpaceIdempotent(s: string)
    ensures TrimSpace(TrimSpace(s)) == TrimSpace(s)
  {
    var r := TrimSpace(s);
    assert r == [] + r + [];
    TrimSpaceOf([], r, []);
  }

  /** A value stored as `"  hello  "` reads back as `"hello"`. */
  lemma TrimSpaceExample()
    ensures TrimSpace("  hello  ") == "hello"
  {
    assert "  hello  " == "  " + "hello" + "  ";
    TrimSpaceOf("  ", "hello", "  ");
  }
}
