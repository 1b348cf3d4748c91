/** The three string operations the product search uses: `toLowerCase`,
    `trim` and `includes`. */
module Text {

  /** An ASCII upper-case letter. */
  predicate IsUpper(c: char) {
    'A' <= c <= 'Z'
  }

  /** Lower-cases one character; only ASCII letters are mapped. */
  function LowerChar(c: char): (r: char)
    ensures !IsUpper(r)
    ensures !IsUpper(c) ==> r == c
    ensures IsUpper(c) ==> 'a' <= r <= 'z' && r as int - c as int == 'a' as int - 'A' as int
  {
    if IsUpper(c) then (c as int + ('a' as int - 'A' as int)) as char else c
  }

  /** `s.toLowerCase()`, restricted to ASCII letters. */
  function Lower(s: string): (r: string)
    ensures |r| == |s|
    ensures forall i :: 0 <= i < |r| ==> !IsUpper(r[i])
    ensures forall i :: 0 <= i < |r| ==> r[i] == LowerChar(s[i])
  {
    seq(|s|, i requires 0 <= i < |s| => LowerChar(s[i]))
  }

  /** Lower-casing twice is the same as lower-casing once. */
  lemma LowerIdempotent(s: string)
    ensures Lower(Lower(s)) == Lower(s)
  {
  }

  /** Lower-casing works character by character, so it distributes over
      concatenation. */
  lemma LowerConcat(a: string, b: string)
    ensures Lower(a + b) == Lower(a) + Lower(b)
  {
    assert forall i :: 0 <= i < |a + b| ==> Lower(a + b)[i] == (Lower(a) + Lower(b))[i];
  }

  /** The characters `String.prototype.trim` strips: the ECMAScript
      WhiteSpace (tab, vertical tab, form feed, space, no-break space, byte
      order mark and every space separator) and LineTerminator (line feed,
      carriage return, line and paragraph separator) code points. */
  predicate IsSpace(c: char) {
    || c == '\t' || c == '\n' || c == '\U{000B}' || c == '\U{000C}' || c == '\r'
    || c == ' ' || c == '\U{00A0}' || c == '\U{1680}'
    || ('\U{2000}' <= c <= '\U{200A}')
    || c == '\U{2028}' || c == '\U{2029}' || c == '\U{202F}' || c == '\U{205F}'
    || c == '\U{3000}' || c == '\U{FEFF}'
  }

  /** Every character is whitespace. */
  predicate AllSpace(s: string) {
    forall i :: 0 <= i < |s| ==> IsSpace(s[i])
  }

  /** Neither the first nor the last character is whitespace. */
  predicate Trimmed(s: string) {
    |s| == 0 || (!IsSpace(s[0]) && !IsSpace(s[|s| - 1]))
  }

  /** Upper-case letters are not whitespace, so lower-casing maps whitespace
      to itself and non-whitespace to non-whitespace. */
  lemma LowerKeepsSpace(c: char)
    ensures IsSpace(LowerChar(c)) <==> IsSpace(c)
  {
  }

  /** The number of whitespace characters `s` starts with. */
  function LeadingSpaces(s: string): (n: nat)
    ensures n <= |s|
    ensures forall k :: 0 <= k < n ==> IsSpace(s[k])
    ensures n < |s| ==> !IsSpace(s[n])
  {
    if |s| > 0 && IsSpace(s[0]) then
      var n := 1 + LeadingSpaces(s[1..]);
      assert forall k :: 1 <= k < n ==> s[k] == s[1..][k - 1];
      n
    else 0
  }

  /** The number of whitespace characters `s` ends with. */
  function TrailingSpaces(s: string): (n: nat)
    ensures n <= |s|
    ensures forall k :: |s| - n <= k < |s| ==> IsSpace(s[k])
    ensures n < |s| ==> !IsSpace(s[|s| - n - 1])
  {
    if |s| > 0 && IsSpace(s[|s| - 1]) then
      var n := 1 + TrailingSpaces(s[..|s| - 1]);
      assert forall k :: |s| - n <= k < |s| - 1 ==> s[k] == s[..|s| - 1][k];
      n
    else 0
  }

  /** `s` is `t` placed at position `i` with only whitespace around it. */
  predicate PaddedAt(s: string, t: string, i: int) {
    && 0 <= i && i + |t| <= |s|
    && s[i..i + |t|] == t
    && (forall k :: 0 <= k < i ==> IsSpace(s[k]))
    && (forall k :: i + |t| <= k < |s| ==> IsSpace(s[k]))
  }

  /** `s.trim()`: `s` with leading and trailing whitespace removed. A string
      of whitespace only trims to the empty string. */
  function Trim(s: string): (r: string)
    ensures Trimmed(r)
    ensures PaddedAt(s, r, LeadingSpaces(s))
  {
    var i := LeadingSpaces(s);
    if i == |s| then []
    else
      var j := TrailingSpaces(s);
      assert !IsSpace(s[i]);
      assert i + j < |s|;
      s[i..|s| - j]
  }

  /** Trimming only takes characters away, so it keeps a string free of
      upper-case letters. */
  lemma TrimKeepsLower(s: string)
    requires forall i :: 0 <= i < |s| ==> !IsUpper(s[i])
    ensures forall i :: 0 <= i < |Trim(s)| ==> !IsUpper(Trim(s)[i])
  {
    var t := Trim(s);
    var a := LeadingSpaces(s);
    forall i | 0 <= i < |t|
      ensures !IsUpper(t[i])
    {
      assert t[i] == s[a..a + |t|][i] == s[a + i];
    }
  }

  /** The result of `Trim` is the only trimmed string `s` is a padding of:
      whatever the whitespace around `t`, trimming gives back `t`. */
  lemma TrimUnique(s: string, t: string, i: int)
    requires Trimmed(t)
    requires PaddedAt(s, t, i)
    ensures Trim(s) == t
  {
    var r := Trim(s);
    var a := LeadingSpaces(s);
    if |t| > 0 {
      assert s[i] == t[0] && s[i + |t| - 1] == t[|t| - 1];
      assert i == a;
      assert s[a] == r[0] && s[a + |r| - 1] == r[|r| - 1];
      assert |r| == |t|;
    }
  }

  /** Whitespace added around a string does not change what it trims to. */
  lemma TrimPadding(pre: string, s: string, post: string)
    requires AllSpace(pre) && AllSpace(post)
    ensures Trim(pre + s + post) == Trim(s)
  {
    var t := Trim(s);
    var i := LeadingSpaces(s);
    PaddedWithin(pre, s, post, t, i);
    TrimUnique(pre + s + post, t, |pre| + i);
  }

  /** A string padded with whitespace stays padded when more whitespace is
      added on both sides. */
  lemma PaddedWithin(pre: string, s: string, post: string, t: string, i: int)
    requires AllSpace(pre) && AllSpace(post)
    requires PaddedAt(s, t, i)
    ensures PaddedAt(pre + s + post, t, |pre| + i)
  {
    var p := pre + s + post;
    var k := |pre| + i;
    assert p[k..k + |t|] == s[i..i + |t|] by {
      assert p[|pre|..|pre| + |s|] == s;
    }
    forall m | 0 <= m < k
      ensures IsSpace(p[m])
    {
      if m >= |pre| {
        assert p[m] == s[m - |pre|];
      }
    }
    forall m | k + |t| <= m < |p|
      ensures IsSpace(p[m])
    {
      if m < |pre| + |s| {
        assert p[m] == s[m - |pre|];
      } else {
        assert p[m] == post[m - |pre| - |s|];
      }
    }
  }

  /** `needle` occurs in `hay` starting at position `i`. */
  predicate OccursAt(hay: string, needle: string, i: int) {
    0 <= i <= |hay| - |needle| && hay[i..i + |needle|] == needle
  }

  /** `hay.includes(needle)`: whether `needle` occurs somewhere in `hay`;
      the empty string occurs everywhere. */
  function Contains(hay: string, needle: string): (r: bool)
    ensures r <==> exists i :: OccursAt(hay, needle, i)
    decreases |hay|
  {
    if |needle| > |hay| then false
    else if hay[..|needle|] == needle then
      assert OccursAt(hay, needle, 0);
      true
    else
      var r := Contains(hay[1..], needle);
      if r then
        var i :| OccursAt(hay[1..], needle, i);
        assert hay[i + 1..i + 1 + |needle|] == hay[1..][i..i + |needle|];
        assert OccursAt(hay, needle, i + 1);
        r
      else
        NoLaterOccurrence(hay, needle);
        r
  }

  /** A needle that is neither a prefix of `hay` nor occurs in its tail does
      not occur in `hay` at all. */
  lemma NoLaterOccurrence(hay: string, needle: string)
    requires |needle| <= |hay| && hay[..|needle|] != needle
    requires forall i :: !OccursAt(hay[1..], needle, i)
    ensures forall i :: !OccursAt(hay, needle, i)
  {
    forall i | 0 < i <= |hay| - |needle|
      ensures !OccursAt(hay, needle, i)
    {
      assert !OccursAt(hay[1..], needle, i - 1);
      assert hay[1..][i - 1..i - 1 + |needle|] == hay[i..i + |needle|];
    }
  }
}
