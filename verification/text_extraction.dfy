/**
 * `TextExtractionService.extractDataFromText`: the `src` of every image
 * tag, found by running the global, case-insensitive expression
 * `<img[^>]*\bsrc\s*=\s*(?:"([^"]*)"|'([^']*)'|([^>\s]+))[^>]*>` with
 * `exec` until it stops matching, and the text with every `<img…>`
 * deleted and trimmed. The expressions are modelled by hand: `MatchAt`
 * computes the match the backtracking engine reports at one position,
 * `Exec` the leftmost one from `lastIndex` on.
 */
module TextExtraction {
  import opened Wrappers
  import opened Strings

  /** The argument as the service receives it: a string, `null`/`undefined`, or another value with its `String()` form. */
  datatype Input = Text(s: string) | Nullish | NonString(asString: string)

  datatype ExtractionResult = ExtractionResult(images: seq<string>, content: string)

  /** The text the service works on: a string as it is, `null` and `undefined` as the empty string, any other value as its `String()` form. */
  function AsText(input: Input): string {
    match input
    case Text(s) => s
    case Nullish => ""
    case NonString(t) => t
  }

  // ---------------------------------------------------------------------
  // Pieces of the expression

  /** The lower-case pattern `p` occurs at `i` when ASCII letters are compared without case (the `i` flag). */
  predicate CiAt(s: string, p: string, i: nat) {
    i + |p| <= |s| && forall k :: 0 <= k < |p| ==> LowerChar(s[i + k]) == p[k]
  }

  /** One character that differs, case aside, rules the pattern out. */
  lemma NotCiAt(s: string, p: string, j: nat, m: nat)
    requires m < |p| && j + m < |s| && LowerChar(s[j + m]) != p[m]
    ensures !CiAt(s, p, j)
  {
  }

  /** `\w` without the `u` flag. */
  predicate IsWordChar(c: char) {
    'a' <= c <= 'z' || 'A' <= c <= 'Z' || '0' <= c <= '9' || c == '_'
  }

  /** End of the longest run of white space (`\s*`) from `k`. */
  function SkipSpace(s: string, k: nat): (r: nat)
    requires k <= |s|
    ensures k <= r <= |s|
    decreases |s| - k
  {
    if k < |s| && IsJsWhitespace(s[k]) then SkipSpace(s, k + 1) else k
  }

  /** `SkipSpace` stops at the first character from `k` that is not white space. */
  lemma {:induction false} SkipSpaceMeaning(s: string, k: nat)
    requires k <= |s|
    ensures forall m :: k <= m < SkipSpace(s, k) ==> IsJsWhitespace(s[m])
    ensures SkipSpace(s, k) < |s| ==> !IsJsWhitespace(s[SkipSpace(s, k)])
    decreases |s| - k
  {
    if k < |s| && IsJsWhitespace(s[k]) {
      SkipSpaceMeaning(s, k + 1);
    }
  }

  /** End of the longest run of characters other than `>` and white space (`[^>\s]*`) from `k`. */
  function TokenEnd(s: string, k: nat): (r: nat)
    requires k <= |s|
    ensures k <= r <= |s|
    decreases |s| - k
  {
    if k < |s| && s[k] != '>' && !IsJsWhitespace(s[k]) then TokenEnd(s, k + 1) else k
  }

  /** `TokenEnd` stops at the first `>` or white space from `k`. */
  lemma {:induction false} TokenEndMeaning(s: string, k: nat)
    requires k <= |s|
    ensures forall m :: k <= m < TokenEnd(s, k) ==> s[m] != '>' && !IsJsWhitespace(s[m])
    ensures TokenEnd(s, k) < |s| ==> s[TokenEnd(s, k)] == '>' || IsJsWhitespace(s[TokenEnd(s, k)])
    decreases |s| - k
  {
    if k < |s| && s[k] != '>' && !IsJsWhitespace(s[k]) {
      TokenEndMeaning(s, k + 1);
    }
  }

  /** `[^>]*>` from `k`: the match closes just after the first `>` from `k` on, if there is one. */
  function CloseAt(s: string, k: nat): (r: Option<nat>)
    requires k <= |s|
    ensures r.Some? ==> k < r.value <= |s| && s[r.value - 1] == '>'
  {
    var e := FirstOf(s, {'>'}, k);
    if e < |s| then Some(e + 1) else None
  }

  /** A captured value and the end of the whole match (one past its closing `>`). */
  datatype Capture = Capture(value: string, end: nat)

  /** `"([^"]*)"` (or its single-quote twin) at `p`, then the rest of the expression. */
  function QuotedAt(s: string, p: nat, quote: char): (r: Option<Capture>)
    requires p <= |s|
    ensures r.Some? ==> p < r.value.end <= |s|
  {
    if p < |s| && s[p] == quote then
      var q := FirstOf(s, {quote}, p + 1);
      if q < |s| then
        match CloseAt(s, q + 1)
        case Some(e) => Some(Capture(s[p + 1..q], e))
        case None => None
      else None
    else None
  }

  /** `([^>\s]+)` at `p`, then the rest of the expression. */
  function BareAt(s: string, p: nat): (r: Option<Capture>)
    requires p <= |s|
    ensures r.Some? ==> p < r.value.end <= |s|
  {
    var t := TokenEnd(s, p);
    if p < t then
      match CloseAt(s, t)
      case Some(e) => Some(Capture(s[p..t], e))
      case None => None
    else None
  }

  /**
   * The alternation at `p`, its branches tried in order, each followed by
   * `[^>]*>`; the capture that takes part is `match[1] || match[2] || match[3]`.
   */
  function ValueAt(s: string, p: nat): (r: Option<Capture>)
    requires p <= |s|
    ensures r.Some? ==> p < r.value.end <= |s|
  {
    match QuotedAt(s, p, '"')
    case Some(c) => Some(c)
    case None =>
      match QuotedAt(s, p, '\'')
      case Some(c) => Some(c)
      case None => BareAt(s, p)
  }

  /** `\bsrc\s*=\s*` at `j` and the rest of the expression after it. */
  function SrcAt(s: string, j: nat): (r: Option<Capture>)
    ensures r.Some? ==> j < r.value.end <= |s|
  {
    if CiAt(s, "src", j) && (j == 0 || !IsWordChar(s[j - 1])) then
      var a := SkipSpace(s, j + 3);
      if a < |s| && s[a] == '=' then ValueAt(s, SkipSpace(s, a + 1)) else None
    else None
  }

  /** `SrcAt` on `s` as a function of the position. */
  function SrcAtIn(s: string): nat -> Option<Capture> {
    (j: nat) => SrcAt(s, j)
  }

  /** Every capture of `f` at `k` ends after `k` and no later than `limit`. */
  ghost predicate EndsWithin(f: nat -> Option<Capture>, limit: nat) {
    forall k: nat :: f(k).Some? ==> k < f(k).value.end <= limit
  }

  /** `[f(j), f(j + 1), …, f(n - 1)]`. */
  function Tabulate(f: nat -> Option<Capture>, j: nat, n: nat): (a: seq<Option<Capture>>)
    requires j <= n
    ensures |a| == n - j
    decreases n - j
  {
    if j == n then [] else [f(j)] + Tabulate(f, j + 1, n)
  }

  /** The entry for position `k` is `f(k)`. */
  lemma {:induction false} TabulateAt(f: nat -> Option<Capture>, j: nat, n: nat, k: nat)
    requires j <= k < n
    ensures Tabulate(f, j, n)[k - j] == f(k)
    decreases k - j
  {
    if j < k {
      TabulateAt(f, j + 1, n, k);
    }
  }

  /** A table of captures that end within `limit` only holds such captures. */
  lemma TabulateEnds(f: nat -> Option<Capture>, n: nat, limit: nat)
    requires EndsWithin(f, limit)
    ensures forall k :: 0 <= k < n && Tabulate(f, 0, n)[k].Some? ==> k < Tabulate(f, 0, n)[k].value.end <= limit
  {
    forall k | 0 <= k < n
      ensures Tabulate(f, 0, n)[k] == f(k)
    {
      TabulateAt(f, 0, n, k);
    }
  }

  /** What `SrcAt` gives at each position `0..|s|`. */
  function SrcAttempts(s: string): (a: seq<Option<Capture>>)
    ensures |a| == |s| + 1
    ensures forall j :: 0 <= j < |a| && a[j].Some? ==> j < a[j].value.end <= |s|
  {
    TabulateEnds(SrcAtIn(s), |s| + 1, |s|);
    Tabulate(SrcAtIn(s), 0, |s| + 1)
  }

  /** The entry for position `j` is the attempt there. */
  lemma SrcAttemptsAt(s: string, j: nat)
    requires j <= |s|
    ensures SrcAttempts(s)[j] == SrcAt(s, j)
  {
    TabulateAt(SrcAtIn(s), 0, |s| + 1, j);
  }

  /** The largest `j` in `[lo, hi)` where the attempt succeeds: where the greedy `[^>]*` backtracks to. */
  function LastSrc(a: seq<Option<Capture>>, lo: nat, hi: nat): (r: Option<nat>)
    requires hi <= |a|
    ensures r.Some? ==> lo <= r.value < hi && a[r.value].Some?
    decreases hi
  {
    if hi <= lo then None
    else if a[hi - 1].Some? then Some(hi - 1)
    else LastSrc(a, lo, hi - 1)
  }

  /** `LastSrc` finds the largest such `j`, and finds none only when there is none. */
  lemma {:induction false} LastSrcMeaning(a: seq<Option<Capture>>, lo: nat, hi: nat)
    requires hi <= |a|
    ensures LastSrc(a, lo, hi).Some? ==> forall j :: LastSrc(a, lo, hi).value < j < hi ==> a[j].None?
    ensures LastSrc(a, lo, hi).None? ==> forall j :: lo <= j < hi ==> a[j].None?
    decreases hi
  {
    if lo < hi && a[hi - 1].None? {
      LastSrcMeaning(a, lo, hi - 1);
    }
  }

  /** One match: where it starts, where it ends (exclusive) and the URL it captured. */
  datatype ImgMatch = ImgMatch(index: nat, end: nat, src: string)

  /**
   * The match the engine reports when it tries the expression at `i`:
   * `<img`, then `[^>]*` stopping before `src` at the last place from which
   * the rest of the expression matches.
   */
  function MatchAt(s: string, i: nat): (r: Option<ImgMatch>)
    ensures r.Some? ==> r.value.index == i && i + 4 < r.value.end <= |s|
  {
    if CiAt(s, "<img", i) then
      var srcs := SrcAttempts(s);
      match LastSrc(srcs, i + 4, FirstOf(s, {'>'}, i + 4) + 1)
      case None => None
      case Some(j) => Some(ImgMatch(i, srcs[j].value.end, srcs[j].value.value))
    else None
  }

  // ---------------------------------------------------------------------
  // The three ways of writing the value

  /** What `<img src=` at `i` means to the expression. */
  lemma OpensImg(s: string, i: nat)
    requires OccursAt(s, "<img src=", i)
    ensures CiAt(s, "<img", i) && !IsWordChar(s[i + 4]) && CiAt(s, "src", i + 5) && s[i + 8] == '='
    ensures forall k :: i + 4 <= k < i + 9 ==> s[k] != '>'
    ensures forall j :: i + 5 < j < i + 9 ==> !CiAt(s, "src", j)
  {
    var w := s[i..i + 9];
    assert s[i] == w[0] && s[i + 1] == w[1] && s[i + 2] == w[2] && s[i + 3] == w[3] && s[i + 4] == w[4];
    assert s[i + 5] == w[5] && s[i + 6] == w[6] && s[i + 7] == w[7] && s[i + 8] == w[8];
    forall k | 0 <= k < 4
      ensures LowerChar(s[i + k]) == "<img"[k]
    {
      if k == 0 {} else if k == 1 {} else if k == 2 {} else {}
    }
    forall k | 0 <= k < 3
      ensures LowerChar(s[i + 5 + k]) == "src"[k]
    {
      if k == 0 {} else if k == 1 {} else {}
    }
    NotCiAt(s, "src", i + 6, 0);
    NotCiAt(s, "src", i + 7, 0);
    NotCiAt(s, "src", i + 8, 0);
  }

  /** A quoted value closed at `q`, with the first `>` after it at `e`. */
  lemma QuotedValue(s: string, p: nat, quote: char, q: nat, e: nat)
    requires p < q < e < |s| && s[p] == quote && s[q] == quote && s[e] == '>'
    requires forall k :: p < k < q ==> s[k] != quote
    requires forall k :: q < k < e ==> s[k] != '>'
    ensures QuotedAt(s, p, quote) == Some(Capture(s[p + 1..q], e + 1))
  {
    FirstOfIs(s, {quote}, p + 1, q);
    FirstOfIs(s, {'>'}, q + 1, e);
  }

  /** A quoted value closed at `q`, with the first `>` after it at `e`, is the value of the alternation. */
  lemma QuotedValueAt(s: string, p: nat, quote: char, q: nat, e: nat)
    requires quote == '"' || quote == '\''
    requires p < q < e < |s| && s[p] == quote && s[q] == quote && s[e] == '>'
    requires forall k :: p < k < q ==> s[k] != quote
    requires forall k :: q < k < e ==> s[k] != '>'
    ensures ValueAt(s, p) == Some(Capture(s[p + 1..q], e + 1))
  {
    QuotedValue(s, p, quote, q, e);
    if quote == '\'' {
      assert QuotedAt(s, p, '"').None?;
    }
  }

  /** `src=` followed by something other than white space: the value starts right after the `=`. */
  lemma SrcValue(s: string, j: nat)
    requires 0 < j && j + 4 < |s| && !IsWordChar(s[j - 1]) && CiAt(s, "src", j)
    requires s[j + 3] == '=' && !IsJsWhitespace(s[j + 4])
    ensures SrcAttempts(s)[j] == ValueAt(s, j + 4)
  {
    SrcAttemptsAt(s, j);
    assert SkipSpace(s, j + 3) == j + 3;
    assert SkipSpace(s, j + 4) == j + 4;
  }

  /** Where no `src` starts, `SrcAt` fails. */
  lemma NoSrcBetween(s: string, lo: nat, e: nat)
    requires e < |s|
    requires forall j :: lo <= j <= e ==> !CiAt(s, "src", j)
    ensures forall j :: lo <= j <= e ==> SrcAttempts(s)[j].None?
  {
    forall j | lo <= j <= e
      ensures SrcAttempts(s)[j].None?
    {
      SrcAttemptsAt(s, j);
    }
  }

  /** `LastSrc` finds `j` when the attempt succeeds there and at no later place below `hi`. */
  lemma {:induction false} LastSrcIs(a: seq<Option<Capture>>, lo: nat, hi: nat, j: nat)
    requires lo <= j < hi <= |a| && a[j].Some?
    requires forall k :: j < k < hi ==> a[k].None?
    ensures LastSrc(a, lo, hi) == Some(j)
    decreases hi
  {
    if j < hi - 1 {
      LastSrcIs(a, lo, hi - 1, j);
    }
  }

  /**
   * The match at `i` when `src` at `j` is the last place before the first
   * `>` (at `e`) from which the rest of the expression matches.
   */
  lemma MatchAtFound(s: string, i: nat, j: nat, e: nat, c: Capture)
    requires CiAt(s, "<img", i) && i + 4 <= j <= e < |s| && s[e] == '>'
    requires forall k :: i + 4 <= k < e ==> s[k] != '>'
    requires SrcAttempts(s)[j] == Some(c)
    requires forall k :: j < k <= e ==> SrcAttempts(s)[k].None?
    ensures MatchAt(s, i) == Some(ImgMatch(i, c.end, c.value))
  {
    FirstOfIs(s, {'>'}, i + 4, e);
    LastSrcIs(SrcAttempts(s), i + 4, e + 1, j);
  }

  /**
   * `<img src="v"…>` or `<img src='v'…>`: the value runs to the next
   * quote of the same kind, and the match to the first `>` after it. The
   * text up to that `>` may hold other attributes, but no further `src`.
   */
  lemma QuotedSrc(s: string, i: nat, quote: char, q: nat, e: nat)
    requires quote == '"' || quote == '\''
    requires OccursAt(s, "<img src=", i) && i + 9 < |s| && s[i + 9] == quote
    requires i + 10 <= q < e < |s| && s[q] == quote && s[e] == '>'
    requires forall k :: i + 10 <= k < q ==> s[k] != quote
    requires forall k :: i + 10 <= k < e ==> s[k] != '>'
    requires forall j :: i + 10 <= j <= e ==> !CiAt(s, "src", j)
    ensures MatchAt(s, i) == Some(ImgMatch(i, e + 1, s[i + 10..q]))
  {
    OpensImg(s, i);
    var c := Capture(s[i + 10..q], e + 1);
    assert SrcAttempts(s)[i + 5] == Some(c) by {
      QuotedValueAt(s, i + 9, quote, q, e);
      SrcValue(s, i + 5);
    }
    assert forall k :: i + 5 < k <= e ==> SrcAttempts(s)[k].None? by {
      NotCiAt(s, "src", i + 9, 0);
      NoSrcBetween(s, i + 6, e);
    }
    MatchAtFound(s, i, i + 5, e, c);
  }

  /**
   * `<img src=v…>`: an unquoted value runs to the first `>` or white
   * space, and the match to the first `>` from there.
   */
  lemma UnquotedSrc(s: string, i: nat, t: nat, e: nat)
    requires OccursAt(s, "<img src=", i)
    requires i + 9 < t <= e < |s| && s[e] == '>'
    requires s[i + 9] != '"' && s[i + 9] != '\''
    requires forall k :: i + 9 <= k < t ==> s[k] != '>' && !IsJsWhitespace(s[k])
    requires s[t] == '>' || IsJsWhitespace(s[t])
    requires forall k :: t <= k < e ==> s[k] != '>'
    requires forall j :: i + 9 <= j <= e ==> !CiAt(s, "src", j)
    ensures MatchAt(s, i) == Some(ImgMatch(i, e + 1, s[i + 9..t]))
  {
    OpensImg(s, i);
    TokenEndMeaning(s, i + 9);
    assert TokenEnd(s, i + 9) == t;
    FirstOfIs(s, {'>'}, t, e);
    assert ValueAt(s, i + 9) == Some(Capture(s[i + 9..t], e + 1));
    SrcValue(s, i + 5);
    NoSrcBetween(s, i + 6, e);
    MatchAtFound(s, i, i + 5, e, Capture(s[i + 9..t], e + 1));
  }

  // ---------------------------------------------------------------------
  // The `exec` loop

  /** Every match reported at a position starts there and ends further on, within the text. */
  ghost predicate Anchored(t: seq<Option<ImgMatch>>) {
    forall i :: 0 <= i < |t| && t[i].Some? ==> t[i].value.index == i && i < t[i].value.end <= |t|
  }

  /** What trying the expression gives at each position of `s`. */
  function Attempts(s: string): (t: seq<Option<ImgMatch>>)
    ensures |t| == |s| && Anchored(t)
  {
    seq(|s|, i requires 0 <= i < |s| => MatchAt(s, i))
  }

  /** `exec` with `lastIndex == i`: the leftmost match that starts at or after `i`. */
  function Exec(t: seq<Option<ImgMatch>>, i: nat): (r: Option<ImgMatch>)
    requires Anchored(t)
    ensures r.Some? ==> i <= r.value.index < r.value.end <= |t|
    decreases |t| - i
  {
    if i >= |t| then None
    else match t[i]
      case Some(m) => Some(m)
      case None => Exec(t, i + 1)
  }

  /** `Exec` reports the match at the smallest position from `i` on where there is one. */
  lemma {:induction false} ExecIsLeftmost(t: seq<Option<ImgMatch>>, i: nat)
    requires Anchored(t)
    ensures Exec(t, i).Some? ==> t[Exec(t, i).value.index] == Exec(t, i)
    ensures Exec(t, i).Some? ==> forall k :: i <= k < Exec(t, i).value.index ==> t[k].None?
    ensures Exec(t, i).None? ==> forall k :: i <= k < |t| ==> t[k].None?
    decreases |t| - i
  {
    if i < |t| && t[i].None? {
      ExecIsLeftmost(t, i + 1);
      var r := Exec(t, i);
      assert r == Exec(t, i + 1);
      forall k | i <= k < |t| && (r.None? || k < r.value.index)
        ensures t[k].None?
      {
        if k != i {
          assert i + 1 <= k;
        }
      }
    }
  }

  /** The matches `exec` returns one after another, each search resuming where the last match ended. */
  function MatchesFrom(t: seq<Option<ImgMatch>>, i: nat): seq<ImgMatch>
    requires Anchored(t)
    decreases |t| - i
  {
    match Exec(t, i)
    case None => []
    case Some(m) => [m] + MatchesFrom(t, m.end)
  }

  /** One step of the search: a match found from `i` heads the list. */
  lemma MatchesFromStep(t: seq<Option<ImgMatch>>, i: nat, m: ImgMatch)
    requires Anchored(t) && Exec(t, i) == Some(m)
    ensures MatchesFrom(t, i) == [m] + MatchesFrom(t, m.end)
  {
  }

  /** What the loop body pushes for a match: its URL, unless that is empty (and so falsy). */
  function Pushed(m: ImgMatch): seq<string> {
    if m.src != "" then [m.src] else []
  }

  /** The URLs pushed for a list of matches, in order. */
  function Srcs(ms: seq<ImgMatch>): seq<string> {
    if ms == [] then [] else Srcs(ms[..|ms| - 1]) + Pushed(ms[|ms| - 1])
  }

  /** `images` for a text. */
  function Images(s: string): seq<string> {
    Srcs(MatchesFrom(Attempts(s), 0))
  }

  /**
   * The state of the `exec` loop: `found` is the next match from
   * `lastIndex` on, `matches` followed by the matches still to come is the
   * whole list, and `images` holds the URLs pushed for `matches`.
   */
  ghost predicate ScannedSoFar(t: seq<Option<ImgMatch>>, matches: seq<ImgMatch>, images: seq<string>, lastIndex: nat,
                               found: Option<ImgMatch>) {
    && Anchored(t)
    && found == Exec(t, lastIndex)
    && matches + MatchesFrom(t, lastIndex) == MatchesFrom(t, 0)
    && images == Srcs(matches)
  }

  lemma AppendAssoc(a: seq<ImgMatch>, m: ImgMatch, b: seq<ImgMatch>)
    ensures a + [m] + b == a + ([m] + b)
    ensures (a + [m])[..|a|] == a
  {
  }

  /** A found match is consumed and the search resumes after it, further on. */
  lemma ScanStep(t: seq<Option<ImgMatch>>, matches: seq<ImgMatch>, images: seq<string>, lastIndex: nat, m: ImgMatch)
    requires ScannedSoFar(t, matches, images, lastIndex, Some(m))
    ensures lastIndex < m.end <= |t|
    ensures ScannedSoFar(t, matches + [m], images + Pushed(m), m.end, Exec(t, m.end))
  {
    MatchesFromStep(t, lastIndex, m);
    AppendAssoc(matches, m, MatchesFrom(t, m.end));
  }

  /** No further match: `images` is complete. */
  lemma ScanDone(t: seq<Option<ImgMatch>>, matches: seq<ImgMatch>, images: seq<string>, lastIndex: nat)
    requires ScannedSoFar(t, matches, images, lastIndex, None)
    ensures images == Srcs(MatchesFrom(t, 0))
  {
    assert MatchesFrom(t, lastIndex) == [];
    assert matches + [] == matches;
  }

  // ---------------------------------------------------------------------
  // `content`

  /** `/<img[^>]*>/i` at `i`: the end of the match (one past its `>`), if there is one. */
  function TagEnd(s: string, i: nat): (r: Option<nat>)
    ensures r.Some? ==> i + 4 < r.value <= |s|
  {
    if CiAt(s, "<img", i) then CloseAt(s, i + 4) else None
  }

  /** `s.replace(/<img[^>]*>/gi, '')`: each match, leftmost first, is deleted, and the scan resumes after it. */
  function Strip(s: string): (r: string)
    ensures |r| <= |s|
    decreases |s|
  {
    if s == [] then []
    else match TagEnd(s, 0)
      case Some(e) => Strip(s[e..])
      case None => [s[0]] + Strip(s[1..])
  }

  /** `extractDataFromText` */
  method ExtractDataFromText(input: Input) returns (r: ExtractionResult)
    ensures r.images == Images(AsText(input))
    ensures r.content == Trim(Strip(AsText(input)))
  {
    var text := AsText(input);
    var images: seq<string> := [];
    ghost var matches: seq<ImgMatch> := [];
    var lastIndex: nat := 0;
    var found := Exec(Attempts(text), lastIndex);
    while found.Some?
      invariant ScannedSoFar(Attempts(text), matches, images, lastIndex, found)
      decreases |text| - lastIndex
    {
      var m := found.value;
      ScanStep(Attempts(text), matches, images, lastIndex, m);
      var url := m.src;
      if url != "" {
        images := images + [url];
      }
      matches := matches + [m];
      lastIndex := m.end;
      found := Exec(Attempts(text), lastIndex);
    }
    ScanDone(Attempts(text), matches, images, lastIndex);
    var content := Trim(Strip(text));
    return ExtractionResult(images, content);
  }

  // ---------------------------------------------------------------------
  // Properties

  /** Every pushed URL is non-empty: `src=""` and `src=''` contribute nothing. */
  lemma {:induction false} SrcsNonEmpty(ms: seq<ImgMatch>)
    ensures forall k :: 0 <= k < |Srcs(ms)| ==> Srcs(ms)[k] != ""
    ensures |Srcs(ms)| <= |ms|
  {
    if ms != [] {
      SrcsNonEmpty(ms[..|ms| - 1]);
    }
  }

  /** `images` never holds an empty string, nor more entries than there are matches. */
  lemma ImagesNonEmpty(s: string)
    ensures forall k :: 0 <= k < |Images(s)| ==> Images(s)[k] != ""
    ensures |Images(s)| <= |MatchesFrom(Attempts(s), 0)|
  {
    SrcsNonEmpty(MatchesFrom(Attempts(s), 0));
  }

  /** An empty quoted value matches, but the loop pushes nothing for it. */
  lemma EmptyQuotedSrcSkipped(s: string, i: nat, e: nat)
    requires OccursAt(s, "<img src=\"\"", i)
    requires i + 10 < e < |s| && s[e] == '>'
    requires forall k :: i + 10 < k < e ==> s[k] != '>'
    requires forall j :: i + 10 <= j <= e ==> !CiAt(s, "src", j)
    ensures MatchAt(s, i) == Some(ImgMatch(i, e + 1, ""))
    ensures Pushed(MatchAt(s, i).value) == []
  {
    var w := s[i..i + 11];
    assert s[i + 10] == w[10] == '"';
    assert s[i..i + 9] == w[..9];
    assert forall k :: i + 10 <= k < e ==> s[k] != '>';
    QuotedSrc(s, i, '"', i + 10, e);
    assert s[i + 10..i + 10] == "";
  }

  /** Each listed match is the match reported at its index, at or after `i`. */
  lemma {:induction false} MatchesAreMatches(t: seq<Option<ImgMatch>>, i: nat)
    requires Anchored(t)
    ensures var ms := MatchesFrom(t, i);
            forall k :: 0 <= k < |ms| ==> i <= ms[k].index < |t| && t[ms[k].index] == Some(ms[k])
    decreases |t| - i
  {
    var ms := MatchesFrom(t, i);
    ExecIsLeftmost(t, i);
    match Exec(t, i)
    case None =>
    case Some(m) =>
      var rest := MatchesFrom(t, m.end);
      MatchesFromStep(t, i, m);
      MatchesAreMatches(t, m.end);
      forall k | 0 <= k < |ms|
        ensures i <= ms[k].index < |t| && t[ms[k].index] == Some(ms[k])
      {
        if k > 0 {
          assert ms[k] == rest[k - 1];
        }
      }
  }

  /** The matches come in document order and do not overlap. */
  lemma {:induction false} MatchesInOrder(t: seq<Option<ImgMatch>>, i: nat)
    requires Anchored(t)
    ensures var ms := MatchesFrom(t, i);
            forall k, l :: 0 <= k < l < |ms| ==> ms[k].end <= ms[l].index
    decreases |t| - i
  {
    var ms := MatchesFrom(t, i);
    match Exec(t, i)
    case None =>
    case Some(m) =>
      var rest := MatchesFrom(t, m.end);
      MatchesFromStep(t, i, m);
      MatchesAreMatches(t, m.end);
      MatchesInOrder(t, m.end);
      forall k, l | 0 <= k < l < |ms|
        ensures ms[k].end <= ms[l].index
      {
        assert ms[l] == rest[l - 1];
        if k > 0 {
          assert ms[k] == rest[k - 1];
        }
      }
  }

  lemma InMatchAfter(ms: seq<ImgMatch>, rest: seq<ImgMatch>, m: ImgMatch, p: nat)
    requires ms == [m] + rest
    requires exists k :: 0 <= k < |rest| && rest[k].index <= p < rest[k].end
    ensures exists k :: 0 <= k < |ms| && ms[k].index <= p < ms[k].end
  {
    var k :| 0 <= k < |rest| && rest[k].index <= p < rest[k].end;
    assert ms[k + 1] == rest[k];
  }

  /** The scan skips no tag: every position from `i` on where the expression matches lies within a listed match. */
  lemma {:induction false} MatchesComplete(t: seq<Option<ImgMatch>>, i: nat)
    requires Anchored(t)
    ensures var ms := MatchesFrom(t, i);
            forall p :: i <= p < |t| && t[p].Some? ==>
              exists k :: 0 <= k < |ms| && ms[k].index <= p < ms[k].end
    decreases |t| - i
  {
    var ms := MatchesFrom(t, i);
    ExecIsLeftmost(t, i);
    match Exec(t, i)
    case None =>
    case Some(m) =>
      var rest := MatchesFrom(t, m.end);
      MatchesFromStep(t, i, m);
      MatchesComplete(t, m.end);
      forall p | i <= p < |t| && t[p].Some?
        ensures exists k :: 0 <= k < |ms| && ms[k].index <= p < ms[k].end
      {
        if p < m.end {
          assert ms[0] == m && m.index <= p;
        } else {
          InMatchAfter(ms, rest, m, p);
        }
      }
  }

  /** Shifting the text by one character shifts the places where `p` occurs. */
  lemma CiAtTail(s: string, p: string, i: nat)
    requires s != []
    ensures CiAt(s[1..], p, i) <==> CiAt(s, p, i + 1)
  {

  }

  /** Text without `<img` (in any case) loses nothing to the replacement. */
  lemma {:induction false} StripNoImg(s: string)
    requires forall i :: !CiAt(s, "<img", i)
    ensures Strip(s) == s
    decreases |s|
  {
    if s != [] {
      assert TagEnd(s, 0).None?;
      var t := s[1..];
      forall i | 0 <= i
        ensures !CiAt(t, "<img", i)
      {
        CiAtTail(s, "<img", i);
      }
      StripNoImg(t);
      assert [s[0]] + s[1..] == s;
    }
  }

  /** Text without `<img` (in any case) has no images, and its content is the trimmed text. */
  lemma NoImgTag(s: string)
    requires forall i :: !CiAt(s, "<img", i)
    ensures Images(s) == []
    ensures Trim(Strip(s)) == Trim(s)
  {
    var t := Attempts(s);
    ExecIsLeftmost(t, 0);
    assert MatchesFrom(t, 0) == [];
    StripNoImg(s);
  }

  /** An empty string, `null` and `undefined` give no images and empty content. */
  lemma EmptyInput(input: Input)
    requires input == Text("") || input == Nullish
    ensures Images(AsText(input)) == []
    ensures Trim(Strip(AsText(input))) == ""
  {
    assert AsText(input) == "";
    assert MatchesFrom(Attempts(""), 0) == [];
  }

  /** Where no match starts at the head, the first character is kept and the scan moves on by one. */
  lemma StripKeepsHead(s: string)
    requires s != [] && !CiAt(s, "<img", 0)
    ensures Strip(s) == [s[0]] + Strip(s[1..])
  {
  }

  /** A character other than `<` cannot start a match, so it is kept. */
  lemma StripConsKeeps(c: char, t: string)
    requires c != '<'
    ensures Strip([c] + t) == [c] + Strip(t)
  {
    NotCiAt([c] + t, "<img", 0, 0);
    StripKeepsHead([c] + t);
    assert ([c] + t)[1..] == t;
  }

  /** `<img` in this spelling opens a match. */
  lemma ImgAt(s: string)
    requires 4 <= |s| && s[..4] == "<img"
    ensures CiAt(s, "<img", 0)
  {
    assert s[0] == '<' && s[1] == 'i' && s[2] == 'm' && s[3] == 'g' by {
      assert s[0] == s[..4][0] && s[1] == s[..4][1] && s[2] == s[..4][2] && s[3] == s[..4][3];
    }
  }

  /** A tag at the head is deleted up to its first `>`, and the scan resumes after it. */
  lemma StripTag(x: string, b: string)
    requires forall k :: 0 <= k < |x| ==> x[k] != '>'
    ensures Strip("<img" + x + ">" + b) == Strip(b)
  {
    var t := "<img" + x + ">" + b;
    assert t[..4] == "<img";
    ImgAt(t);
    forall k | 4 <= k < 4 + |x|
      ensures t[k] !in {'>'}
    {
      assert t[k] == x[k - 4];
    }
    assert t[4 + |x|] == '>';
    FirstOfIs(t, {'>'}, 4, 4 + |x|);
    assert TagEnd(t, 0) == Some(5 + |x|);
    assert t[5 + |x|..] == b;
  }

  lemma TagAssoc(a: string, x: string, b: string)
    ensures a + "<img" + x + ">" + b == a + ("<img" + x + ">" + b)
  {
  }

  lemma ConsTail(a: string, t: string)
    requires a != []
    ensures a + t == [a[0]] + (a[1..] + t)
  {
    assert a == [a[0]] + a[1..];
  }

  /**
   * A tag `<img…>` is deleted and the text around it kept: text before it
   * with no `<` cannot start a match, and the scan resumes right after the
   * tag's `>`.
   */
  lemma {:induction false} StripAroundTag(a: string, x: string, b: string)
    requires forall k :: 0 <= k < |a| ==> a[k] != '<'
    requires forall k :: 0 <= k < |x| ==> x[k] != '>'
    ensures Strip(a + "<img" + x + ">" + b) == a + Strip(b)
    decreases |a|
  {
    TagAssoc(a, x, b);
    if a == [] {
      assert [] + ("<img" + x + ">" + b) == "<img" + x + ">" + b;
      StripTag(x, b);
    } else {
      var tag := "<img" + x + ">" + b;
      ConsTail(a, tag);
      StripConsKeeps(a[0], a[1..] + tag);
      StripAroundTag(a[1..], x, b);
      TagAssoc(a[1..], x, b);
      ConsTail(a, Strip(b));
    }
  }

  /** What is left after the tag holds no `<`, so it is kept. */
  lemma StripNoTagLeft()
    ensures Strip("img>") == "img>"
  {
    var u := "img>";
    forall i: nat
      ensures !CiAt(u, "<img", i)
    {
      if i == 0 {
        NotCiAt(u, "<img", 0, 0);
      }
    }
    StripNoImg(u);
  }

  /**
   * The replacement makes a single pass: text it joins up can form a new
   * tag, which stays in `content`.
   */
  lemma StripIsOnePass()
    ensures Strip("<<img>img>") == "<img>"
  {
    var t := "<img" + "" + ">" + "img>";
    assert "<<img>img>" == ['<'] + t;
    NotCiAt(['<'] + t, "<img", 0, 1);
    StripKeepsHead(['<'] + t);
    assert (['<'] + t)[1..] == t;
    StripTag("", "img>");
    StripNoTagLeft();
  }
}
