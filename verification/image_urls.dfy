/**
 * The image filter's checks on a single URL: undoing backslash escapes and
 * HTML entities, the blacklist test and the GIF test. Both tests compare
 * the unescaped, lower-cased URL.
 */
module ImageUrls {
  import opened Strings

  /**
   * `unescapeHtml`: backslash escapes first, then the entities, `&nbsp;`
   * last (turned into a plain space). The source returns `''` for an empty
   * input before replacing; the replacements give the same (`UnescapeEmpty`).
   */
  function UnescapeHtml(html: string): string {
    var s := ReplaceAll(html, "\\\"", "\"");
    var s := ReplaceAll(s, "\\'", "'");
    var s := ReplaceAll(s, "\\/", "/");
    var s := ReplaceAll(s, "\\\\", "\\");
    var s := ReplaceAll(s, "&amp;", "&");
    var s := ReplaceAll(s, "&lt;", "<");
    var s := ReplaceAll(s, "&gt;", ">");
    var s := ReplaceAll(s, "&quot;", "\"");
    var s := ReplaceAll(s, "&#39;", "'");
    ReplaceAll(s, "&nbsp;", " ")
  }

  /** `unescapeHtml('')` is `''`. */
  lemma UnescapeEmpty()
    ensures UnescapeHtml("") == ""
  {
  }

  /** No character of `s` is `c`. */
  predicate Lacks(s: string, c: char) {
    forall i :: 0 <= i < |s| ==> s[i] != c
  }

  /** A pattern that starts with a character `s` lacks does not occur in `s`. */
  lemma LacksFirst(s: string, p: string)
    requires p != [] && Lacks(s, p[0])
    ensures !Contains(s, p)
  {
    forall i | 0 <= i <= |s|
      ensures !OccursAt(s, p, i)
    {
      if i + |p| <= |s| {
        assert s[i..i + |p|][0] == s[i];
      }
    }
  }

  /** Replacing a pattern that cannot occur leaves the string as it is. */
  lemma ReplaceLacking(s: string, p: string, r: string)
    requires p != [] && Lacks(s, p[0])
    ensures ReplaceAll(s, p, r) == s
  {
    LacksFirst(s, p);
    ReplaceAllAbsent(s, p, r);
  }

  /** Text with neither a backslash nor an ampersand passes through `unescapeHtml` unchanged. */
  lemma UnescapePlain(s: string)
    requires Lacks(s, '\\') && Lacks(s, '&')
    ensures UnescapeHtml(s) == s
  {
    ReplaceLacking(s, "\\\"", "\"");
    ReplaceLacking(s, "\\'", "'");
    ReplaceLacking(s, "\\/", "/");
    ReplaceLacking(s, "\\\\", "\\");
    ReplaceLacking(s, "&amp;", "&");
    ReplaceLacking(s, "&lt;", "<");
    ReplaceLacking(s, "&gt;", ">");
    ReplaceLacking(s, "&quot;", "\"");
    ReplaceLacking(s, "&#39;", "'");
    ReplaceLacking(s, "&nbsp;", " ");
  }

  /** A string made of two parts that lack `c` lacks `c`. */
  lemma LacksConcat(a: string, b: string, c: char)
    requires Lacks(a, c) && Lacks(b, c)
    ensures Lacks(a + b, c)
  {
    forall i | 0 <= i < |a + b|
      ensures (a + b)[i] != c
    {
      if i >= |a| {
        assert (a + b)[i] == b[i - |a|];
      }
    }
  }

  /** One occurrence between parts that cannot hold the pattern becomes the replacement. */
  lemma ReplaceSingle(head: string, tail: string, p: string, r: string)
    requires p != [] && Lacks(head, p[0]) && Lacks(tail, p[0])
    ensures ReplaceAll(head + p + tail, p, r) == head + r + tail
  {
    assert head + p + tail == head + (p + tail);
    ReplaceAllKeepsPrefix(head, p + tail, p, r);
    ReplaceAllMatchHere(tail, p, r);
    ReplaceLacking(tail, p, r);
    assert head + (r + tail) == head + r + tail;
  }

  /** An escaped double quote between plain parts becomes a double quote, and nothing else changes. */
  lemma UnescapeQuote(head: string, tail: string)
    requires Lacks(head, '\\') && Lacks(head, '&') && Lacks(tail, '\\') && Lacks(tail, '&')
    ensures UnescapeHtml(head + "\\\"" + tail) == head + "\"" + tail
  {
    ReplaceSingle(head, tail, "\\\"", "\"");
    var s := head + "\"" + tail;
    LacksConcat(head, "\"", '\\');
    LacksConcat(head + "\"", tail, '\\');
    LacksConcat(head, "\"", '&');
    LacksConcat(head + "\"", tail, '&');
    ReplaceLacking(s, "\\'", "'");
    ReplaceLacking(s, "\\/", "/");
    ReplaceLacking(s, "\\\\", "\\");
    ReplaceLacking(s, "&amp;", "&");
    ReplaceLacking(s, "&lt;", "<");
    ReplaceLacking(s, "&gt;", ">");
    ReplaceLacking(s, "&quot;", "\"");
    ReplaceLacking(s, "&#39;", "'");
    ReplaceLacking(s, "&nbsp;", " ");
  }

  /**
   * A double-encoded `&amp;lt;` between plain parts ends as `<`: the `&amp;`
   * pass leaves `&lt;`, which the next pass decodes in turn.
   */
  lemma UnescapeDoubleEncodedLt(head: string, tail: string)
    requires Lacks(head, '\\') && Lacks(head, '&') && Lacks(tail, '\\') && Lacks(tail, '&')
    ensures UnescapeHtml(head + "&amp;lt;" + tail) == head + "<" + tail
  {
    var s0 := head + "&amp;lt;" + tail;
    LacksConcat(head, "&amp;lt;", '\\');
    LacksConcat(head + "&amp;lt;", tail, '\\');
    ReplaceLacking(s0, "\\\"", "\"");
    ReplaceLacking(s0, "\\'", "'");
    ReplaceLacking(s0, "\\/", "/");
    ReplaceLacking(s0, "\\\\", "\\");
    var rest := "lt;" + tail;
    LacksConcat("lt;", tail, '&');
    assert s0 == head + "&amp;" + rest;
    ReplaceSingle(head, rest, "&amp;", "&");
    var s1 := head + "&lt;" + tail;
    assert head + "&" + rest == s1;
    ReplaceSingle(head, tail, "&lt;", "<");
    var s2 := head + "<" + tail;
    LacksConcat(head, "<", '&');
    LacksConcat(head + "<", tail, '&');
    ReplaceLacking(s2, "&gt;", ">");
    ReplaceLacking(s2, "&quot;", "\"");
    ReplaceLacking(s2, "&#39;", "'");
    ReplaceLacking(s2, "&nbsp;", " ");
  }

  /** The comparison form of a URL or blacklist entry: unescaped, then lower-cased. */
  function Clean(url: string): string {
    Lower(UnescapeHtml(url))
  }

  /** Whether some blacklist entry, cleaned, occurs in the cleaned URL. */
  function AnyEntryIn(clean: string, blacklist: seq<string>): bool {
    if blacklist == [] then false
    else Contains(clean, Clean(blacklist[0])) || AnyEntryIn(clean, blacklist[1..])
  }

  /** `AnyEntryIn` is an existential over the entries. */
  lemma {:induction false} AnyEntryInMeaning(clean: string, blacklist: seq<string>)
    ensures AnyEntryIn(clean, blacklist) <==> exists k :: 0 <= k < |blacklist| && Contains(clean, Clean(blacklist[k]))
  {
    if blacklist != [] {
      AnyEntryInMeaning(clean, blacklist[1..]);
      if AnyEntryIn(clean, blacklist[1..]) {
        var k :| 0 <= k < |blacklist[1..]| && Contains(clean, Clean(blacklist[1..][k]));
        assert blacklist[k + 1] == blacklist[1..][k];
      }
      if exists k :: 0 <= k < |blacklist| && Contains(clean, Clean(blacklist[k])) {
        var k :| 0 <= k < |blacklist| && Contains(clean, Clean(blacklist[k]));
        if k > 0 {
          assert blacklist[1..][k - 1] == blacklist[k];
        }
      }
    }
  }

  /** `isInBlacklist` */
  function IsInBlacklist(url: string, blacklist: seq<string>): bool {
    AnyEntryIn(Clean(url), blacklist)
  }

  /**
   * A URL is blacklisted exactly when its cleaned form contains the
   * cleaned form of some entry; so an empty list blacklists nothing and an
   * empty entry blacklists everything.
   */
  lemma BlacklistMeaning(url: string, blacklist: seq<string>)
    ensures IsInBlacklist(url, blacklist) <==>
              exists k :: 0 <= k < |blacklist| && Contains(Clean(url), Clean(blacklist[k]))
    ensures blacklist == [] ==> !IsInBlacklist(url, blacklist)
    ensures "" in blacklist ==> IsInBlacklist(url, blacklist)
  {
    AnyEntryInMeaning(Clean(url), blacklist);
    if "" in blacklist {
      var k :| 0 <= k < |blacklist| && blacklist[k] == "";
      assert Clean(blacklist[k]) == "";
      ContainsEmpty(Clean(url));
    }
  }

  /** Whether some word occurs in `s`. */
  function ContainsAny(s: string, words: seq<string>): bool {
    if words == [] then false else Contains(s, words[0]) || ContainsAny(s, words[1..])
  }

  /** `ContainsAny` is an existential over the words. */
  lemma {:induction false} ContainsAnyMeaning(s: string, words: seq<string>)
    ensures ContainsAny(s, words) <==> exists k :: 0 <= k < |words| && Contains(s, words[k])
  {
    if words != [] {
      ContainsAnyMeaning(s, words[1..]);
      if ContainsAny(s, words[1..]) {
        var k :| 0 <= k < |words[1..]| && Contains(s, words[1..][k]);
        assert words[k + 1] == words[1..][k];
      }
      if exists k :: 0 <= k < |words| && Contains(s, words[k]) {
        var k :| 0 <= k < |words| && Contains(s, words[k]);
        if k > 0 {
          assert words[1..][k - 1] == words[k];
        }
      }
    }
  }

  /** The query parameters `isGifUrl` looks for. */
  const GifParams: seq<string> := ["wx_fmt=gif", "format=gif", "type=gif"]

  /** The keywords `isGifUrl` looks for anywhere in the URL. */
  const GifKeywords: seq<string> := ["gif", "animated", "animation", "动态图"]

  /** `isGifUrl`, with its three groups of checks in source order. */
  function IsGifUrl(url: string): bool {
    var clean := Clean(url);
    EndsWith(clean, ".gif") || ContainsAny(clean, GifParams) || ContainsAny(clean, GifKeywords)
  }

  /** A string ending in `.gif` contains `gif`. */
  lemma EndsWithGif(s: string)
    requires EndsWith(s, ".gif")
    ensures Contains(s, "gif")
  {
    assert OccursAt(s, "gif", |s| - 3);
  }

  /** Every query parameter `isGifUrl` looks for contains `gif`. */
  lemma ParamsHaveGif(s: string)
    requires ContainsAny(s, GifParams)
    ensures Contains(s, "gif")
  {
    ContainsAnyMeaning(s, GifParams);
    var k :| 0 <= k < |GifParams| && Contains(s, GifParams[k]);
    var w := GifParams[k];
    assert w[..|w| - 3] + "gif" + "" == w;
    ContainsInfix(s, w[..|w| - 3], "gif", "");
  }

  /**
   * The GIF test comes down to its keyword list: the extension and query
   * parameter checks only ever accept URLs that contain `gif`, the first
   * keyword.
   */
  lemma GifKeywordsDecide(url: string)
    ensures IsGifUrl(url) <==> ContainsAny(Clean(url), GifKeywords)
    ensures IsGifUrl(url) <==> exists k :: 0 <= k < |GifKeywords| && Contains(Clean(url), GifKeywords[k])
  {
    var clean := Clean(url);
    ContainsAnyMeaning(clean, GifKeywords);
    if EndsWith(clean, ".gif") {
      EndsWithGif(clean);
      assert Contains(clean, GifKeywords[0]);
    }
    if ContainsAny(clean, GifParams) {
      ParamsHaveGif(clean);
      assert Contains(clean, GifKeywords[0]);
    }
  }
}
