/**
 * Entry extraction of the feed parser (core/parser.py).
 *
 * `feedparser.parse` is a foreign function: its output is given as a `Feed`
 * value, with each optional attribute of an entry as an `Option`.
 * `html.unescape` is a function parameter. The tag removal done with the
 * regular expression `<[^>]+>` and the final strip are modelled here.
 */
module FeedParser {
  import opened Optional
  import opened Text

  /** An entry as the feed library hands it over; `content` is the entry's content list (empty when absent). */
  datatype RawEntry = RawEntry(
    id: Option<string>,
    title: Option<string>,
    updated: Option<string>,
    summary: Option<string>,
    content: seq<map<string, string>>)

  /** The feed library's result: its malformed flag (`bozo`) and its entries in document order. */
  datatype Feed = Feed(bozo: bool, entries: seq<RawEntry>)

  datatype ParsedEntry = ParsedEntry(entryId: string, title: string, updated: string, summary: string)

  /**
   * A match of `<[^>]+>` starts at the front of `s`: a '<', at least one
   * character other than '>', and later a '>'.
   */
  predicate TagStart(s: string) {
    |s| >= 2 && s[0] == '<' && s[1] != '>' && '>' in s[2..]
  }

  /** No position of `s` starts a match of `<[^>]+>`. */
  ghost predicate NoTags(s: string) {
    forall i :: 0 <= i < |s| ==> !TagStart(s[i..])
  }

  /**
   * `re.sub("<[^>]+>", "", s)`: scanning left to right, every match, which
   * runs from a '<' to the first '>' after it, is dropped. The result is no
   * longer than `s` and has no character `s` does not have.
   */
  function StripTags(s: string): (r: string)
    ensures |r| <= |s|
    ensures forall c :: c in r ==> c in s
    decreases |s|
  {
    if s == [] then []
    else if TagStart(s) then
      var k := IndexOf(s[2..], '>').value;
      StripTags(s[k + 3..])
    else [s[0]] + StripTags(s[1..])
  }

  /** A string with no '<' has no tag, and tag removal returns it unchanged. */
  lemma {:induction false} NoAngleKept(s: string)
    requires '<' !in s
    ensures StripTags(s) == s
    decreases |s|
  {
    if s != [] {
      assert s[0] != '<';
      assert '<' !in s[1..];
      NoAngleKept(s[1..]);
    }
  }

  /** Text without '<' in front of anything is kept as it is, and cannot start a tag. */
  lemma {:induction false} PlainPrefixKept(a: string, rest: string)
    requires '<' !in a
    ensures StripTags(a + rest) == a + StripTags(rest)
    decreases |a|
  {
    if a != [] {
      var s := a + rest;
      assert s[0] == a[0] && a[0] != '<';
      assert s[1..] == a[1..] + rest;
      assert '<' !in a[1..];
      PlainPrefixKept(a[1..], rest);
      assert [a[0]] + (a[1..] + StripTags(rest)) == a + StripTags(rest);
    } else {
      assert a + rest == rest;
    }
  }

  /**
   * Text before a tag is kept as it is, the tag itself is dropped, and
   * removal carries on after the tag's closing '>'.
   */
  lemma TagDropped(a: string, inner: string, b: string)
    requires '<' !in a && inner != [] && '>' !in inner
    ensures StripTags(a + ['<'] + inner + ['>'] + b) == a + StripTags(b)
  {
    var tagged := ['<'] + inner + ['>'] + b;
    TagRegroup(a, inner, b);
    PlainPrefixKept(a, tagged);
    TagAtFront(inner, b);
  }

  lemma TagRegroup(a: string, inner: string, b: string)
    ensures a + ['<'] + inner + ['>'] + b == a + (['<'] + inner + ['>'] + b)
  {
  }

  /** A tag at the front of the input is dropped up to its first '>'. */
  lemma TagAtFront(inner: string, b: string)
    requires inner != [] && '>' !in inner
    ensures StripTags(['<'] + inner + ['>'] + b) == StripTags(b)
  {
    var s := ['<'] + inner + ['>'] + b;
    var t := s[2..];
    var m := |inner| - 1;
    assert t == inner[1..] + ['>'] + b;
    assert t[m] == '>';
    assert TagStart(s);
    var k := IndexOf(t, '>').value;
    forall j | 0 <= j < k
      ensures t[j] != '>'
    {
      assert t[j] == t[..k][j];
    }
    forall j | 0 <= j < m
      ensures t[j] == inner[j + 1]
    {
    }
    assert k == m;
    assert s[k + 3..] == b;
  }

  /** After tag removal no `<...>` span with at least one non-'>' character inside remains. */
  lemma {:induction false} StripTagsLeavesNoTags(s: string)
    ensures NoTags(StripTags(s))
    decreases |s|
  {
    if s == [] {
    } else if TagStart(s) {
      var k := IndexOf(s[2..], '>').value;
      StripTagsLeavesNoTags(s[k + 3..]);
    } else {
      var rest := StripTags(s[1..]);
      StripTagsLeavesNoTags(s[1..]);
      var r := [s[0]] + rest;
      assert r == StripTags(s);
      forall i | 0 <= i < |r|
        ensures !TagStart(r[i..])
      {
        if i > 0 {
          assert r[i..] == rest[i - 1..];
        } else if s[0] == '<' {
          if |s| >= 2 && s[1] == '>' {
            assert !TagStart(s[1..]);
            assert rest == ['>'] + StripTags(s[2..]) by {
              assert s[1..][1..] == s[2..];
            }
            assert r[1] == '>';
          } else if |s| >= 2 {
            assert '>' !in s[2..];
            assert '>' !in s[1..] by {
              assert s[1..] == [s[1]] + s[2..];
            }
            assert '>' !in rest;
            assert r[2..] == rest[1..];
          }
        }
      }
    }
  }

  /** `_strip_html`: tag removal, then the foreign entity decoding, then `strip()`. */
  function StripHtml(raw: string, unescape: string -> string): (r: string)
    ensures Trimmed(r)
    ensures |r| <= |unescape(StripTags(raw))|
  {
    Strip(unescape(StripTags(raw)))
  }

  /** `getattr(entry, name, "") or ""`: a missing attribute reads as the empty string. */
  function OrEmpty(o: Option<string>): string {
    o.GetOr("")
  }

  /**
   * The summary source: the entry's `summary` when it has one, otherwise the
   * `value` of its first content item (empty when that item has none),
   * otherwise the empty string.
   */
  function RawSummary(e: RawEntry): (r: string)
    ensures e.summary.Some? ==> r == e.summary.value
    ensures e.summary.None? && e.content != [] && "value" in e.content[0] ==> r == e.content[0]["value"]
    ensures e.summary.None? && (e.content == [] || "value" !in e.content[0]) ==> r == ""
  {
    if e.summary.Some? then e.summary.value
    else if e.content != [] then (if "value" in e.content[0] then e.content[0]["value"] else "")
    else ""
  }

  /** The `ParsedEntry` built from a raw entry, missing fields defaulting to "". */
  function ToParsed(e: RawEntry, unescape: string -> string): ParsedEntry {
    ParsedEntry(OrEmpty(e.id), OrEmpty(e.title), OrEmpty(e.updated), StripHtml(RawSummary(e), unescape))
  }

  /** The entries the loop keeps from `raws`: those with a non-empty id, in feed order. */
  function Kept(raws: seq<RawEntry>, unescape: string -> string): (r: seq<ParsedEntry>)
    ensures |r| <= |raws|
    ensures forall k :: 0 <= k < |r| ==> r[k].entryId != ""
  {
    if raws == [] then []
    else
      var init := Kept(raws[..|raws| - 1], unescape);
      var last := raws[|raws| - 1];
      if OrEmpty(last.id) == "" then init else init + [ToParsed(last, unescape)]
  }

  /** `parse` on the feed library's output: nothing for a malformed feed without entries. */
  function ParseSpec(feed: Feed, unescape: string -> string): seq<ParsedEntry> {
    if feed.bozo && feed.entries == [] then [] else Kept(feed.entries, unescape)
  }

  /** The positions of the raw entries that have an id, in increasing order. */
  ghost function KeptPositions(raws: seq<RawEntry>): (p: seq<nat>)
    ensures forall k :: 0 <= k < |p| ==> p[k] < |raws| && OrEmpty(raws[p[k]].id) != ""
    ensures forall j, k :: 0 <= j < k < |p| ==> p[j] < p[k]
    ensures forall i :: 0 <= i < |raws| && OrEmpty(raws[i].id) != "" ==> i in p
  {
    if raws == [] then []
    else
      var init := KeptPositions(raws[..|raws| - 1]);
      if OrEmpty(raws[|raws| - 1].id) == "" then init else init + [|raws| - 1]
  }

  /**
   * The kept entries are exactly the raw entries that have an id, each
   * converted, in feed order: none dropped, none reordered, none repeated.
   */
  lemma {:induction false} KeptInFeedOrder(raws: seq<RawEntry>, unescape: string -> string)
    ensures |Kept(raws, unescape)| == |KeptPositions(raws)|
    ensures forall k :: 0 <= k < |KeptPositions(raws)| ==>
      Kept(raws, unescape)[k] == ToParsed(raws[KeptPositions(raws)[k]], unescape)
  {
    if raws != [] {
      var init := raws[..|raws| - 1];
      KeptInFeedOrder(init, unescape);
      assert forall i :: 0 <= i < |init| ==> init[i] == raws[i];
    }
  }

  /** A feed without entries, malformed or not, yields no entries; parsing never fails. */
  lemma EmptyFeedYieldsNothing(feed: Feed, unescape: string -> string)
    requires feed.entries == []
    ensures ParseSpec(feed, unescape) == []
  {
  }

  /**
   * `FeedParser.parse` after the foreign feed parsing: walks the entries in
   * order, skips those without an id, and converts the others.
   */
  method Parse(feed: Feed, unescape: string -> string) returns (entries: seq<ParsedEntry>)
    ensures entries == ParseSpec(feed, unescape)
    ensures forall k :: 0 <= k < |entries| ==> entries[k].entryId != ""
  {
    if feed.bozo && feed.entries == [] {
      return [];
    }
    entries := [];
    var i := 0;
    while i < |feed.entries|
      invariant 0 <= i <= |feed.entries|
      invariant entries == Kept(feed.entries[..i], unescape)
    {
      var e := feed.entries[i];
      var entryId := OrEmpty(e.id);
      var title := OrEmpty(e.title);
      var updated := OrEmpty(e.updated);
      var summary := StripHtml(RawSummary(e), unescape);
      assert feed.entries[..i + 1][..i] == feed.entries[..i];
      if entryId == "" {
        i := i + 1;
        continue;
      }
      entries := entries + [ParsedEntry(entryId, title, updated, summary)];
      i := i + 1;
    }
    assert feed.entries[..i] == feed.entries;
  }
}
