/**
 * String helpers shared by the parser and the two event formatters:
 * Python's `str.strip()` with no argument, `str.split("\n")`, and the
 * prefix/suffix tests that describe formatted output.
 */
module Text {
  import opened Optional

  /** The characters Python's `str.isspace()` accepts, which is what `str.strip()` removes. */
  predicate IsSpace(c: char) {
    || c == ' ' || c == '\t' || c == '\n' || c == '\r'
    || c == '\U{0b}' || c == '\U{0c}'
    || ('\U{1c}' <= c <= '\U{1f}')
    || c == '\U{85}' || c == '\U{a0}' || c == '\U{1680}'
    || ('\U{2000}' <= c <= '\U{200a}')
    || c == '\U{2028}' || c == '\U{2029}' || c == '\U{202f}' || c == '\U{205f}' || c == '\U{3000}'
  }

  ghost predicate AllSpace(s: string) {
    forall i :: 0 <= i < |s| ==> IsSpace(s[i])
  }

  /** No whitespace at either end. */
  ghost predicate Trimmed(s: string) {
    s == [] || (!IsSpace(s[0]) && !IsSpace(s[|s| - 1]))
  }

  predicate StartsWith(s: string, prefix: string) {
    |prefix| <= |s| && s[..|prefix|] == prefix
  }

  predicate EndsWith(s: string, suffix: string) {
    |suffix| <= |s| && s[|s| - |suffix|..] == suffix
  }

  /** A concatenation starts with its first part and ends with its second. */
  lemma ConcatAffixes(a: string, b: string)
    ensures StartsWith(a + b, a) && EndsWith(a + b, b)
  {
    assert (a + b)[..|a|] == a;
    assert (a + b)[|a + b| - |b|..] == b;
  }

  /** A concatenation of four parts starts with the first and ends with the last. */
  lemma ConcatAffixes4(a: string, b: string, c: string, d: string)
    ensures StartsWith(a + b + c + d, a) && EndsWith(a + b + c + d, d)
  {
    assert a + b + c + d == a + (b + c + d);
    ConcatAffixes(a, b + c + d);
    ConcatAffixes(a + b + c, d);
  }

  /** Length of the run of whitespace that starts `s`. */
  function LeadingSpaces(s: string): (k: nat)
    ensures k <= |s|
    ensures AllSpace(s[..k])
    ensures k < |s| ==> !IsSpace(s[k])
  {
    if s == [] || !IsSpace(s[0]) then 0
    else
      var k := LeadingSpaces(s[1..]);
      assert s[..k + 1] == [s[0]] + s[1..][..k];
      k + 1
  }

  /** Length of `s` once the run of whitespace that ends it is cut off. */
  function KeptPrefix(s: string): (j: nat)
    ensures j <= |s|
    ensures AllSpace(s[j..])
    ensures j > 0 ==> !IsSpace(s[j - 1])
  {
    if s == [] || !IsSpace(s[|s| - 1]) then |s|
    else
      var init := s[..|s| - 1];
      var j := KeptPrefix(init);
      assert s[j..] == init[j..] + [s[|s| - 1]];
      j
  }

  /**
   * Python's `s.strip()`: the part of `s` left once the whitespace at both
   * ends is removed. Only whitespace is removed, and the result is trimmed.
   */
  function Strip(s: string): (r: string)
    ensures |r| <= |s|
    ensures Trimmed(r)
    ensures exists i, j :: 0 <= i <= j <= |s| && r == s[i..j] && AllSpace(s[..i]) && AllSpace(s[j..])
  {
    var i := LeadingSpaces(s);
    var j := KeptPrefix(s[i..]);
    StripBounds(s, i, j);
    assert 0 <= i <= i + j <= |s| && s[i..i + j] == s[i..i + j] && AllSpace(s[..i]) && AllSpace(s[i + j..]);
    s[i..i + j]
  }

  /** The cut `Strip` makes: whitespace before it, whitespace after it, and a trimmed piece between. */
  lemma StripBounds(s: string, i: nat, j: nat)
    requires i == LeadingSpaces(s) && j == KeptPrefix(s[i..])
    ensures i + j <= |s|
    ensures AllSpace(s[..i]) && AllSpace(s[i + j..])
    ensures Trimmed(s[i..i + j])
  {
    var t := s[i..];
    assert t[j..] == s[i + j..];
    assert j > 0 ==> !IsSpace(s[i]) && !IsSpace(s[i + j - 1]) by {
      if j > 0 {
        assert t[j - 1] == s[i + j - 1];
      }
    }
    TrimmedSlice(s, i, j);
  }

  lemma TrimmedSlice(s: string, i: nat, j: nat)
    requires i + j <= |s|
    requires j > 0 ==> !IsSpace(s[i]) && !IsSpace(s[i + j - 1])
    ensures Trimmed(s[i..i + j])
  {
    if j > 0 {
      assert s[i..i + j][0] == s[i];
      assert s[i..i + j][j - 1] == s[i + j - 1];
    }
  }

  /** A string that already has no whitespace at its ends is returned unchanged. */
  lemma StripOfTrimmed(s: string)
    requires Trimmed(s)
    ensures Strip(s) == s
  {
    if s != [] {
      assert LeadingSpaces(s) == 0;
      assert s[0..] == s;
      assert KeptPrefix(s) == |s|;
    }
  }

  /** Stripping twice is stripping once. */
  lemma StripIdempotent(s: string)
    ensures Strip(Strip(s)) == Strip(s)
  {
    StripOfTrimmed(Strip(s));
  }

  /**
   * Stripping a string that is some whitespace, then a piece that neither
   * starts nor ends with whitespace, then anything, keeps that piece at the
   * front.
   */
  lemma StripKeepsFront(pad: string, p: string, rest: string)
    requires AllSpace(pad)
    requires p != [] && !IsSpace(p[0]) && !IsSpace(p[|p| - 1])
    ensures StartsWith(Strip(pad + p + rest), p)
  {
    var s := pad + p + rest;
    var t := p + rest;
    assert s == pad + t;
    LeadingOfPadded(pad, t);
    ConcatAffixes(p, rest);
    KeptCovers(t, p);
    StripCut(s, |pad|, t);
    assert t[..KeptPrefix(t)][..|p|] == p;
  }

  /** Where the leading whitespace ends, `Strip` keeps the rest up to its trailing whitespace. */
  lemma StripCut(s: string, i: nat, t: string)
    requires i == LeadingSpaces(s) && t == s[i..]
    ensures Strip(s) == t[..KeptPrefix(t)]
  {
  }

  /** Every character after position `j` is whitespace. */
  lemma SpacesAfter(s: string, j: nat)
    requires j <= |s| && AllSpace(s[j..])
    ensures forall m :: j <= m < |s| ==> IsSpace(s[m])
  {
    forall m | j <= m < |s|
      ensures IsSpace(s[m])
    {
      assert s[j..][m - j] == s[m];
    }
  }

  /** Whitespace followed by a piece that does not start with whitespace: the leading run is exactly the whitespace. */
  lemma {:induction false} LeadingOfPadded(pad: string, t: string)
    requires AllSpace(pad)
    requires t != [] && !IsSpace(t[0])
    ensures LeadingSpaces(pad + t) == |pad|
    decreases |pad|
  {
    var s := pad + t;
    if pad == [] {
      assert s == t;
    } else {
      assert IsSpace(pad[0]);
      assert s[1..] == pad[1..] + t;
      LeadingOfPadded(pad[1..], t);
    }
  }

  /** Cutting trailing whitespace never reaches into a prefix that ends in non-whitespace. */
  lemma KeptCovers(t: string, p: string)
    requires StartsWith(t, p)
    requires p != [] && !IsSpace(p[|p| - 1])
    ensures KeptPrefix(t) >= |p|
  {
    var j := KeptPrefix(t);
    SpacesAfter(t, j);
    assert t[|p| - 1] == t[..|p|][|p| - 1];
  }

  /** The first position of `c` in `s`, if any. */
  function IndexOf(s: string, c: char): (r: Option<nat>)
    ensures r.None? <==> c !in s
    ensures r.Some? ==> r.value < |s| && s[r.value] == c && c !in s[..r.value]
  {
    if s == [] then None
    else if s[0] == c then Some(0)
    else
      match IndexOf(s[1..], c)
      case None => None
      case Some(k) =>
        assert s[..k + 1] == [s[0]] + s[1..][..k];
        Some(k + 1)
  }

  /** Python's `s.split(sep)` for a one-character separator. */
  function Split(s: string, sep: char): (parts: seq<string>)
    ensures |parts| >= 1
    ensures forall k :: 0 <= k < |parts| ==> sep !in parts[k]
    decreases |s|
  {
    match IndexOf(s, sep)
    case None => [s]
    case Some(k) => [s[..k]] + Split(s[k + 1..], sep)
  }

  /** Python's `sep.join(parts)`. */
  function Join(parts: seq<string>, sep: char): string {
    if |parts| == 0 then ""
    else if |parts| == 1 then parts[0]
    else parts[0] + [sep] + Join(parts[1..], sep)
  }

  /** Splitting at a separator that follows a separator-free piece peels off that piece. */
  lemma SplitAround(a: string, sep: char, b: string)
    requires sep !in a
    ensures Split(a + [sep] + b, sep) == [a] + Split(b, sep)
  {
    var s := a + [sep] + b;
    var k := IndexOf(s, sep).value;
    assert s[|a|] == sep;
    assert k == |a|;
    assert s[..k] == a;
    assert s[k + 1..] == b;
  }

  /** Three separators between four separator-free pieces give back those four pieces. */
  lemma SplitFour(a: string, b: string, c: string, d: string, sep: char)
    requires sep !in a && sep !in b && sep !in c && sep !in d
    ensures Split(a + [sep] + (b + [sep] + (c + [sep] + d)), sep) == [a, b, c, d]
  {
    var rest := b + [sep] + (c + [sep] + d);
    SplitThree(b, c, d, sep);
    SplitAround(a, sep, rest);
  }

  /** The same four pieces, each separator written next to the piece it follows or precedes. */
  lemma SplitFourLines(a: string, b: string, c: string, d: string, sep: char)
    requires sep !in a && sep !in b && sep !in c && sep !in d
    ensures Split((a + [sep]) + (b + [sep]) + c + ([sep] + d), sep) == [a, b, c, d]
  {
    FourLinesRegroup(a, b, c, d, [sep]);
    SplitFour(a, b, c, d, sep);
  }

  /** Regrouping four pieces and the separators between them. */
  lemma FourLinesRegroup(a: string, b: string, c: string, d: string, sep: string)
    ensures (a + sep) + (b + sep) + c + (sep + d) == a + sep + (b + sep + (c + sep + d))
  {
  }

  lemma SplitThree(b: string, c: string, d: string, sep: char)
    requires sep !in b && sep !in c && sep !in d
    ensures Split(b + [sep] + (c + [sep] + d), sep) == [b, c, d]
  {
    SplitTwo(c, d, sep);
    SplitAround(b, sep, c + [sep] + d);
    assert [b] + [c, d] == [b, c, d];
  }

  lemma SplitTwo(c: string, d: string, sep: char)
    requires sep !in c && sep !in d
    ensures Split(c + [sep] + d, sep) == [c, d]
  {
    SplitAround(c, sep, d);
  }

  /** A piece without the separator splits into itself alone. */
  lemma SplitWhole(s: string, sep: char)
    requires sep !in s
    ensures Split(s, sep) == [s]
  {
  }

  /** Joining the parts of a split gives back the string: `split` loses nothing. */
  lemma {:induction false} JoinSplit(s: string, sep: char)
    ensures Join(Split(s, sep), sep) == s
    decreases |s|
  {
    match IndexOf(s, sep)
    case None =>
    case Some(k) =>
      var rest := s[k + 1..];
      var parts := Split(rest, sep);
      JoinSplit(rest, sep);
      assert Split(s, sep) == [s[..k]] + parts;
      assert ([s[..k]] + parts)[1..] == parts;
      assert Join([s[..k]] + parts, sep) == s[..k] + [sep] + Join(parts, sep);
      assert s == s[..k] + [sep] + rest;
  }
}
