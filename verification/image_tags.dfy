/**
 * Extraction of `<img … src="…" …>` tags by the image filter: the global
 * regular expression `<img[^>]+src="([^">]+)"[^>]*>` run with `exec` until
 * it stops matching. The expression is modelled by hand: `TagMatch` says
 * declaratively which spans it accepts, `MatchAt` computes the span and
 * capture the backtracking engine picks at one start position, `Exec`
 * finds the leftmost match from `lastIndex` on.
 */
module ImageTags {
  import opened Wrappers
  import opened Strings

  /** One match: the whole tag, the captured URL and where the tag starts. */
  datatype ImgTag = ImgTag(fullTag: string, src: string, index: nat)

  /**
   * The expression matches `s[i..e + 1]`, with its first `[^>]+` ending
   * at `j` (where `src="` starts) and its group capturing `s[j + 5..q]`.
   */
  predicate TagMatch(s: string, i: nat, j: nat, q: nat, e: nat) {
    && i + 4 < j && j + 5 < q < e < |s|
    && OccursAt(s, "<img", i)
    && (forall k :: i + 4 <= k < j ==> s[k] != '>')
    && OccursAt(s, "src=\"", j)
    && (forall k :: j + 5 <= k < q ==> s[k] != '"' && s[k] != '>')
    && s[q] == '"'
    && (forall k :: q < k < e ==> s[k] != '>')
    && s[e] == '>'
  }

  /** `src="` at `j` opens a non-empty group that a `"` closes before `e`. */
  predicate SrcAt(s: string, j: nat, e: nat)
    requires e <= |s|
  {
    j + 5 <= e && OccursAt(s, "src=\"", j)
    && var q := FirstOf(s, {'"', '>'}, j + 5); j + 5 < q < e && s[q] == '"'
  }

  /** The largest `j` in `[lo, hi)` with `SrcAt(s, j, e)`: where the greedy `[^>]+` backtracks to. */
  function LastSrc(s: string, lo: nat, hi: nat, e: nat): (r: Option<nat>)
    requires e <= |s|
    ensures r.Some? ==> lo <= r.value < hi && SrcAt(s, r.value, e)
    ensures r.Some? ==> forall j :: r.value < j < hi ==> !SrcAt(s, j, e)
    ensures r.None? ==> forall j :: lo <= j < hi ==> !SrcAt(s, j, e)
    decreases hi
  {
    if hi <= lo then None
    else if SrcAt(s, hi - 1, e) then Some(hi - 1)
    else LastSrc(s, lo, hi - 1, e)
  }

  /** The match the engine reports when it tries the expression at position `i`. */
  function MatchAt(s: string, i: nat): (r: Option<ImgTag>)
    ensures r.Some? ==> r.value.index == i && 6 <= |r.value.fullTag| && i + |r.value.fullTag| <= |s|
  {
    if OccursAt(s, "<img", i) then CloseTag(s, i, i + 4) else None
  }

  /**
   * The rest of the attempt for a tag opened at `i`: `k` moves over the
   * characters after `<img` up to the first `>`, which ends the tag; the
   * group is then looked for between the two.
   */
  function CloseTag(s: string, i: nat, k: nat): (r: Option<ImgTag>)
    requires i + 4 <= k <= |s|
    ensures r.Some? ==> r.value.index == i && k < i + |r.value.fullTag| <= |s| && 6 <= |r.value.fullTag|
    decreases |s| - k
  {
    if k == |s| then None
    else if s[k] != '>' then CloseTag(s, i, k + 1)
    else match LastSrc(s, i + 5, k, k)
      case None => None
      case Some(j) =>
        var q := FirstOf(s, {'"', '>'}, j + 5);
        Some(ImgTag(s[i..k + 1], s[j + 5..q], i))
  }

  /** The attempt is decided at the first `>` from `k` on. */
  lemma {:induction false} CloseTagAtFirst(s: string, i: nat, k: nat)
    requires i + 4 <= k <= |s|
    ensures var e := FirstOf(s, {'>'}, k);
            && (e == |s| ==> CloseTag(s, i, k).None?)
            && (e < |s| ==> CloseTag(s, i, k) == CloseTag(s, i, e) && s[e] == '>')
    decreases |s| - k
  {
    if k < |s| && s[k] != '>' {
      CloseTagAtFirst(s, i, k + 1);
    }
  }

  /**
   * A reported tag is the text at its index: it opens with `<img`, closes
   * with the first `>` after that, and its URL is a non-empty run free of
   * quotes and `>`.
   */
  lemma MatchAtShape(s: string, i: nat)
    ensures MatchAt(s, i).Some? ==>
              var t := MatchAt(s, i).value;
              && s[i..i + |t.fullTag|] == t.fullTag
              && StartsWith(t.fullTag, "<img") && t.fullTag[|t.fullTag| - 1] == '>'
              && (forall k :: 0 <= k < |t.fullTag| - 1 ==> t.fullTag[k] != '>')
              && t.src != [] && (forall k :: 0 <= k < |t.src| ==> t.src[k] != '"' && t.src[k] != '>')
  {
    if MatchAt(s, i).Some? {
      var t := MatchAt(s, i).value;
      var e := FirstOf(s, {'>'}, i + 4);
      CloseTagAtFirst(s, i, i + 4);
      FirstOfMeaning(s, {'>'}, i + 4);
      assert t.fullTag == s[i..e + 1];
      var j := LastSrc(s, i + 5, e, e).value;
      FirstOfMeaning(s, {'"', '>'}, j + 5);
      forall k | i <= k < i + 4
        ensures s[k] != '>'
      {
        assert s[k] == s[i..i + 4][k - i];
      }
      assert t.fullTag[..4] == s[i..i + 4];
    }
  }

  /** In any match the closing `>` and the closing quote are the first ones after their openers. */
  lemma TagMatchDetermined(s: string, i: nat, j: nat, q: nat, e: nat)
    requires TagMatch(s, i, j, q, e)
    ensures e == FirstOf(s, {'>'}, i + 4)
    ensures q == FirstOf(s, {'"', '>'}, j + 5)
    ensures i + 5 <= j < e && SrcAt(s, j, e)
  {
    forall k | j <= k < j + 5
      ensures s[k] != '>'
    {
      assert s[k] == s[j..j + 5][k - j];
    }
    assert forall k :: i + 4 <= k < e ==> s[k] != '>';
    FirstOfIs(s, {'>'}, i + 4, e);
    FirstOfIs(s, {'"', '>'}, j + 5, q);
  }

  /** The `src="` that `LastSrc` picks before the first `>` gives a match. */
  lemma ChosenSrcMatches(s: string, i: nat, j: nat, e: nat)
    requires OccursAt(s, "<img", i) && i + 4 <= e < |s| && e == FirstOf(s, {'>'}, i + 4)
    requires i + 5 <= j < e && SrcAt(s, j, e)
    ensures TagMatch(s, i, j, FirstOf(s, {'"', '>'}, j + 5), e)
  {
    FirstOfMeaning(s, {'>'}, i + 4);
    FirstOfMeaning(s, {'"', '>'}, j + 5);
    forall k | j <= k < j + 5
      ensures s[k] != '>'
    {
      assert s[k] == s[j..j + 5][k - j];
    }
  }

  /**
   * `MatchAt` is the regular expression: it fails exactly when no span
   * matches at `i`, and otherwise reports a matching span whose `src="`
   * is the last one any match could use (the greedy choice).
   */
  lemma MatchAtIsTagMatch(s: string, i: nat)
    ensures MatchAt(s, i).None? <==> forall j, q, e :: !TagMatch(s, i, j, q, e)
    ensures MatchAt(s, i).Some? ==>
              exists j: nat, q: nat, e: nat ::
                && TagMatch(s, i, j, q, e)
                && MatchAt(s, i).value.fullTag == s[i..e + 1]
                && MatchAt(s, i).value.src == s[j + 5..q]
                && (forall j': nat, q': nat, e': nat :: TagMatch(s, i, j', q', e') ==> j' <= j)
  {
    if OccursAt(s, "<img", i) {
      var e := FirstOf(s, {'>'}, i + 4);
      CloseTagAtFirst(s, i, i + 4);
      if e < |s| {
        var r := LastSrc(s, i + 5, e, e);
        forall j', q', e' | TagMatch(s, i, j', q', e')
          ensures r.Some? && j' <= r.value
        {
          TagMatchDetermined(s, i, j', q', e');
        }
        if r.Some? {
          ChosenSrcMatches(s, i, r.value, e);
        }
      } else {
        forall j', q', e' | TagMatch(s, i, j', q', e')
          ensures false
        {
          TagMatchDetermined(s, i, j', q', e');
        }
      }
    }
  }

  /** `exec` with `lastIndex == i`: the leftmost match that starts at or after `i`. */
  function Exec(s: string, i: nat): (r: Option<ImgTag>)
    ensures r.Some? ==> i <= r.value.index && 6 <= |r.value.fullTag| && r.value.index + |r.value.fullTag| <= |s|
    decreases |s| - i
  {
    if i >= |s| then None
    else match MatchAt(s, i)
      case Some(t) => Some(t)
      case None => Exec(s, i + 1)
  }

  /** `Exec` reports the match at the smallest position from `i` on where there is one. */
  lemma {:induction false} ExecIsLeftmost(s: string, i: nat)
    ensures Exec(s, i).Some? ==> MatchAt(s, Exec(s, i).value.index) == Exec(s, i)
    ensures Exec(s, i).Some? ==> forall k :: i <= k < Exec(s, i).value.index ==> MatchAt(s, k).None?
    ensures Exec(s, i).None? ==> forall k :: i <= k ==> MatchAt(s, k).None?
    decreases |s| - i
  {
    var r := Exec(s, i);
    if i >= |s| {
      forall k | i <= k
        ensures MatchAt(s, k).None?
      {
        assert !OccursAt(s, "<img", k);
      }
    } else if MatchAt(s, i).None? {
      ExecIsLeftmost(s, i + 1);
      assert r == Exec(s, i + 1);
      forall k | i <= k && (r.None? || k < r.value.index)
        ensures MatchAt(s, k).None?
      {
        if k != i {
          assert i + 1 <= k;
        }
      }
    }
  }

  /** The matches `exec` returns one after another, each search resuming where the last match ended. */
  function ExtractFrom(s: string, i: nat): seq<ImgTag>
    decreases |s| - i
  {
    match Exec(s, i)
    case None => []
    case Some(t) => [t] + ExtractFrom(s, t.index + |t.fullTag|)
  }

  /** One step of the search: a match found from `i` heads the list. */
  lemma ExtractFromStep(s: string, i: nat, t: ImgTag)
    requires Exec(s, i) == Some(t)
    ensures ExtractFrom(s, i) == [t] + ExtractFrom(s, t.index + |t.fullTag|)
  {
  }

  /**
   * The state of the `exec` loop: `found` is the next match from
   * `lastIndex` on, and `matches` followed by the tags still to come is the
   * whole list.
   */
  ghost predicate ExtractedSoFar(html: string, matches: seq<ImgTag>, lastIndex: nat, found: Option<ImgTag>) {
    found == Exec(html, lastIndex) && matches + ExtractFrom(html, lastIndex) == ExtractFrom(html, 0)
  }

  /** A found match moves to the list and the search resumes after it, further on. */
  lemma ExtractStep(html: string, matches: seq<ImgTag>, lastIndex: nat, t: ImgTag)
    requires ExtractedSoFar(html, matches, lastIndex, Some(t))
    ensures lastIndex < t.index + |t.fullTag| <= |html|
    ensures ExtractedSoFar(html, matches + [t], t.index + |t.fullTag|, Exec(html, t.index + |t.fullTag|))
  {
    ExtractFromStep(html, lastIndex, t);
    var rest := ExtractFrom(html, t.index + |t.fullTag|);
    assert matches + [t] + rest == matches + ([t] + rest);
  }

  /** No further match: the list is complete. */
  lemma ExtractDone(html: string, matches: seq<ImgTag>, lastIndex: nat)
    requires ExtractedSoFar(html, matches, lastIndex, None)
    ensures matches == ExtractFrom(html, 0)
  {
    assert ExtractFrom(html, lastIndex) == [];
  }

  /** `extractImgTags`: the stateful `exec` loop. */
  method ExtractImgTags(html: string) returns (matches: seq<ImgTag>)
    ensures matches == ExtractFrom(html, 0)
  {
    matches := [];
    var lastIndex: nat := 0;
    var match_ := Exec(html, lastIndex);
    while match_.Some?
      invariant lastIndex <= |html|
      invariant ExtractedSoFar(html, matches, lastIndex, match_)
      decreases |html| - lastIndex
    {
      var t := match_.value;
      ExtractStep(html, matches, lastIndex, t);
      matches := matches + [t];
      lastIndex := t.index + |t.fullTag|;
      match_ := Exec(html, lastIndex);
    }
    ExtractDone(html, matches, lastIndex);
  }

  /** Each extracted tag is the match the expression reports at its index, at or after `i`. */
  lemma {:induction false} ExtractedTagsMatch(s: string, i: nat)
    ensures var ms := ExtractFrom(s, i);
            forall k :: 0 <= k < |ms| ==>
              && i <= ms[k].index && ms[k].index + |ms[k].fullTag| <= |s|
              && MatchAt(s, ms[k].index) == Some(ms[k])
    decreases |s| - i
  {
    var ms := ExtractFrom(s, i);
    ExecIsLeftmost(s, i);
    match Exec(s, i)
    case None =>
    case Some(t) =>
      var rest := ExtractFrom(s, t.index + |t.fullTag|);
      ExtractFromStep(s, i, t);
      ExtractedTagsMatch(s, t.index + |t.fullTag|);
      forall k | 0 <= k < |ms|
        ensures i <= ms[k].index && ms[k].index + |ms[k].fullTag| <= |s|
        ensures MatchAt(s, ms[k].index) == Some(ms[k])
      {
        if k > 0 {
          assert ms[k] == rest[k - 1];
        }
      }
  }

  /** The extracted tags come in strictly increasing order and do not overlap. */
  lemma {:induction false} ExtractedTagsDisjoint(s: string, i: nat)
    ensures var ms := ExtractFrom(s, i);
            forall k, l :: 0 <= k < l < |ms| ==> ms[k].index + |ms[k].fullTag| <= ms[l].index
    decreases |s| - i
  {
    var ms := ExtractFrom(s, i);
    match Exec(s, i)
    case None =>
    case Some(t) =>
      var next := t.index + |t.fullTag|;
      var rest := ExtractFrom(s, next);
      ExtractFromStep(s, i, t);
      ExtractedTagsMatch(s, next);
      ExtractedTagsDisjoint(s, next);
      forall k, l | 0 <= k < l < |ms|
        ensures ms[k].index + |ms[k].fullTag| <= ms[l].index
      {
        assert ms[l] == rest[l - 1];
        if k > 0 {
          assert ms[k] == rest[k - 1];
        }
      }
  }

  lemma InTagAfter(ms: seq<ImgTag>, rest: seq<ImgTag>, t: ImgTag, p: nat)
    requires ms == [t] + rest
    requires exists k :: 0 <= k < |rest| && rest[k].index <= p < rest[k].index + |rest[k].fullTag|
    ensures exists k :: 0 <= k < |ms| && ms[k].index <= p < ms[k].index + |ms[k].fullTag|
  {
    var k :| 0 <= k < |rest| && rest[k].index <= p < rest[k].index + |rest[k].fullTag|;
    assert ms[k + 1] == rest[k];
  }

  /** The scan skips no tag: every position where the expression matches lies within a listed tag. */
  lemma {:induction false} ExtractedTagsComplete(s: string, i: nat)
    ensures var ms := ExtractFrom(s, i);
            forall p :: i <= p && MatchAt(s, p).Some? ==>
              exists k :: 0 <= k < |ms| && ms[k].index <= p < ms[k].index + |ms[k].fullTag|
    decreases |s| - i
  {
    var ms := ExtractFrom(s, i);
    ExecIsLeftmost(s, i);
    match Exec(s, i)
    case None =>
    case Some(t) =>
      var next := t.index + |t.fullTag|;
      var rest := ExtractFrom(s, next);
      ExtractFromStep(s, i, t);
      ExtractedTagsComplete(s, next);
      assert ms == [t] + rest;
      forall p | i <= p && MatchAt(s, p).Some?
        ensures exists k :: 0 <= k < |ms| && ms[k].index <= p < ms[k].index + |ms[k].fullTag|
      {
        if p < next {
          assert t.index <= p;
          assert ms[0] == t;
        } else {
          InTagAfter(ms, rest, t, p);
        }
      }
  }

  /** Each extracted tag is the text of the string at its index. */
  lemma ExtractedTagsAreSubstrings(s: string, i: nat)
    ensures var ms := ExtractFrom(s, i);
            forall k :: 0 <= k < |ms| ==>
              ms[k].index + |ms[k].fullTag| <= |s| && s[ms[k].index..ms[k].index + |ms[k].fullTag|] == ms[k].fullTag
  {
    var ms := ExtractFrom(s, i);
    ExtractedTagsMatch(s, i);
    forall k | 0 <= k < |ms|
      ensures ms[k].index + |ms[k].fullTag| <= |s| && s[ms[k].index..ms[k].index + |ms[k].fullTag|] == ms[k].fullTag
    {
      MatchAtShape(s, ms[k].index);
    }
  }
}
