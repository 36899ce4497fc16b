/**
 * `ImageFilterService.filterImages`: every `<img … src="…">` tag of the
 * unescaped HTML is classified (blacklist, then GIF, then a size probe),
 * the statistics and the lists of removed and kept images are built in
 * document order, kept tags are numbered `<img1/>`, `<img2/>`, … and the
 * replacements are spliced into the HTML from the last tag to the first.
 *
 * The size probe (`getImageInfo`) talks to the network; the model keeps
 * its first check (the unescaped URL must start with `http`) and takes the
 * rest as a function `fetch` from the URL to a size or a failure.
 */
module ImageFilter {
  import opened Wrappers
  import opened Strings
  import opened ImageTags
  import opened ImageUrls

  // ---------------------------------------------------------------------
  // Data

  /** Why an image was removed; the names are the keys of `stats.reasons`. */
  datatype Reason = Blacklist | Gif | Size | ProbeError

  function ReasonName(r: Reason): (name: string)
    ensures name in {"blacklist", "gif", "size", "error"}
  {
    match r
    case Blacklist => "blacklist"
    case Gif => "gif"
    case Size => "size"
    case ProbeError => "error"
  }

  /** What the network answers for a URL: its `content-length` (0 when absent), or a failure. */
  datatype ProbeResult = Sized(size: int) | Failed

  datatype Outcome = Removed(reason: Reason) | Kept

  /** The request; an omitted blacklist or minimum size takes its default. */
  datatype FilterRequest = FilterRequest(content: string, blacklistUrls: Option<seq<string>>, minSizeKB: Option<real>)

  datatype Stats = Stats(total: nat, removed: nat, kept: nat, reasons: map<Reason, nat>)

  datatype RemovedImage = RemovedImage(src: string, reason: Reason)

  datatype KeptImage = KeptImage(src: string, tag: string)

  datatype FilterResult = FilterResult(filteredHtml: string, stats: Stats, removedImages: seq<RemovedImage>, keptImages: seq<KeptImage>)

  /** A pending splice: replace `length` characters at `index` by `replacement`. */
  datatype Operation = Operation(index: nat, length: nat, replacement: string, imgTag: ImgTag, isKept: bool)

  function BlacklistOf(req: FilterRequest): seq<string> {
    if req.blacklistUrls.Some? then req.blacklistUrls.value else []
  }

  function MinSizeKB(req: FilterRequest): real {
    if req.minSizeKB.Some? then req.minSizeKB.value else 15.0
  }

  const NoStats := Stats(0, 0, 0, map[])

  // ---------------------------------------------------------------------
  // Classification of one tag

  /** `getImageInfo`: a URL that does not start with `http` once unescaped is rejected without a request. */
  function ProbeImage(fetch: string -> ProbeResult, url: string): (r: ProbeResult)
    ensures !StartsWith(UnescapeHtml(url), "http") ==> r == Failed
    ensures StartsWith(UnescapeHtml(url), "http") ==> r == fetch(UnescapeHtml(url))
  {
    var clean := UnescapeHtml(url);
    if !StartsWith(clean, "http") then Failed else fetch(clean)
  }

  /** The decision of the classification loop for one image source. */
  function Classify(src: string, blacklist: seq<string>, minSizeKB: real, fetch: string -> ProbeResult): Outcome {
    if IsInBlacklist(src, blacklist) then Removed(Blacklist)
    else if IsGifUrl(src) then Removed(Gif)
    else match ProbeImage(fetch, src)
      case Failed => Removed(ProbeError)
      case Sized(size) => if size as real <= minSizeKB * 1024.0 then Removed(Size) else Kept
  }

  /**
   * The checks run in order and the first that applies decides: a
   * blacklisted or GIF source is removed for that reason whatever the
   * network would say; the probe decides the rest, a failure counting as
   * an error and a size up to `minSizeKB * 1024` bytes as too small.
   */
  lemma ClassificationOrder(src: string, blacklist: seq<string>, minSizeKB: real, fetch: string -> ProbeResult, other: string -> ProbeResult)
    ensures IsInBlacklist(src, blacklist) ==> Classify(src, blacklist, minSizeKB, fetch) == Removed(Blacklist)
    ensures !IsInBlacklist(src, blacklist) && IsGifUrl(src) ==> Classify(src, blacklist, minSizeKB, fetch) == Removed(Gif)
    ensures IsInBlacklist(src, blacklist) || IsGifUrl(src) ==>
              Classify(src, blacklist, minSizeKB, fetch) == Classify(src, blacklist, minSizeKB, other)
    ensures !IsInBlacklist(src, blacklist) && !IsGifUrl(src) ==>
              var c := Classify(src, blacklist, minSizeKB, fetch);
              var p := ProbeImage(fetch, src);
              && (c == Removed(ProbeError) <==> p.Failed?)
              && (c == Removed(Size) <==> p.Sized? && p.size as real <= minSizeKB * 1024.0)
              && (c == Kept <==> p.Sized? && p.size as real > minSizeKB * 1024.0)
  {
  }

  /** The outcome of every extracted tag, in document order. */
  function Outcomes(tags: seq<ImgTag>, blacklist: seq<string>, minSizeKB: real, fetch: string -> ProbeResult): (os: seq<Outcome>)
    ensures |os| == |tags|
  {
    if tags == [] then []
    else
      var n := |tags| - 1;
      Outcomes(tags[..n], blacklist, minSizeKB, fetch) + [Classify(tags[n].src, blacklist, minSizeKB, fetch)]
  }

  /** Each tag's outcome is its classification, independent of the other tags. */
  lemma {:induction false} OutcomesAt(tags: seq<ImgTag>, blacklist: seq<string>, minSizeKB: real, fetch: string -> ProbeResult, k: nat)
    requires k < |tags|
    ensures Outcomes(tags, blacklist, minSizeKB, fetch)[k] == Classify(tags[k].src, blacklist, minSizeKB, fetch)
    decreases |tags|
  {
    var n := |tags| - 1;
    if k < n {
      OutcomesAt(tags[..n], blacklist, minSizeKB, fetch, k);
    }
  }

  // ---------------------------------------------------------------------
  // Counting

  /** Number of entries of `os` equal to `o`. */
  function Count(os: seq<Outcome>, o: Outcome): nat {
    if os == [] then 0 else Count(os[..|os| - 1], o) + (if os[|os| - 1] == o then 1 else 0)
  }

  /** Number of removed entries of `os`. */
  function CountRemoved(os: seq<Outcome>): nat {
    if os == [] then 0 else CountRemoved(os[..|os| - 1]) + (if os[|os| - 1].Removed? then 1 else 0)
  }

  const AllReasons: set<Reason> := {Blacklist, Gif, Size, ProbeError}

  /** `stats.reasons`: a reason is a key exactly when some image was removed for it. */
  function Tally(os: seq<Outcome>): map<Reason, nat> {
    map r | r in AllReasons && Count(os, Removed(r)) > 0 :: Count(os, Removed(r))
  }

  /** The count recorded under `r`, 0 when `r` is not a key. */
  function Recorded(m: map<Reason, nat>, r: Reason): nat {
    if r in m then m[r] else 0
  }

  /** One more removal for reason `r`, starting from zero when `r` has no entry yet. */
  function Bump(m: map<Reason, nat>, r: Reason): map<Reason, nat> {
    m[r := Recorded(m, r) + 1]
  }

  function StatsOf(os: seq<Outcome>): Stats {
    Stats(|os|, CountRemoved(os), Count(os, Kept), Tally(os))
  }

  /** `removedImages`: one entry per removed tag, in document order. */
  function RemovedList(tags: seq<ImgTag>, os: seq<Outcome>): seq<RemovedImage>
    requires |tags| == |os|
  {
    if os == [] then []
    else
      var n := |os| - 1;
      RemovedList(tags[..n], os[..n]) + (if os[n].Removed? then [RemovedImage(tags[n].src, os[n].reason)] else [])
  }

  /** The placeholder of the `n`-th kept image. */
  function KeptTag(n: nat): string {
    "<img" + NatToString(n) + "/>"
  }

  /** `keptImages`: one entry per kept tag, in document order, numbered from 1. */
  function KeptList(tags: seq<ImgTag>, os: seq<Outcome>): seq<KeptImage>
    requires |tags| == |os|
  {
    if os == [] then []
    else
      var n := |os| - 1;
      KeptList(tags[..n], os[..n]) + (if os[n] == Kept then [KeptImage(tags[n].src, KeptTag(Count(os, Kept)))] else [])
  }

  // ---------------------------------------------------------------------
  // Splicing

  /** The operation the classification loop records for a tag, before numbering. */
  function PendingOp(t: ImgTag, o: Outcome): Operation {
    Operation(t.index, |t.fullTag|, "", t, o == Kept)
  }

  /** The operations the classification loop records, one per tag, in document order. */
  function PendingOps(tags: seq<ImgTag>, os: seq<Outcome>): (ops: seq<Operation>)
    requires |tags| == |os|
    ensures |ops| == |os|
  {
    if os == [] then []
    else
      var n := |os| - 1;
      PendingOps(tags[..n], os[..n]) + [PendingOp(tags[n], os[n])]
  }

  /** The `j`-th pending operation is the one recorded for the `j`-th tag. */
  lemma {:induction false} PendingOpsAt(tags: seq<ImgTag>, os: seq<Outcome>)
    requires |tags| == |os|
    ensures forall j :: 0 <= j < |os| ==> PendingOps(tags, os)[j] == PendingOp(tags[j], os[j])
  {
    if os != [] {
      var n := |os| - 1;
      PendingOpsAt(tags[..n], os[..n]);
    }
  }

  /** The operation for the `k`-th tag once kept tags carry their placeholders. */
  function FinalOp(tags: seq<ImgTag>, os: seq<Outcome>, k: nat): Operation
    requires |tags| == |os| && k < |os|
  {
    var p := PendingOp(tags[k], os[k]);
    if os[k] == Kept then p.(replacement := KeptTag(Count(os[..k + 1], Kept))) else p
  }

  function Operations(tags: seq<ImgTag>, os: seq<Outcome>): (ops: seq<Operation>)
    requires |tags| == |os|
    ensures |ops| == |os|
    ensures forall k :: 0 <= k < |os| ==> ops[k] == FinalOp(tags, os, k)
  {
    seq(|os|, k requires 0 <= k < |os| => FinalOp(tags, os, k))
  }

  /** Where an operation's span ends. */
  function End(o: Operation): nat {
    o.index + o.length
  }

  /**
   * The spans of the operations from the `m`-th on start at or after `p`,
   * follow one another without overlapping and end by `n`.
   */
  predicate Ordered(ops: seq<Operation>, m: nat, p: nat, n: nat)
    requires m <= |ops|
    decreases |ops| - m
  {
    && p <= n
    && (m < |ops| ==> p <= ops[m].index && End(ops[m]) <= n && Ordered(ops, m + 1, End(ops[m]), n))
  }

  /** Spans that lie within `[p, n)` and do not overlap are ordered. */
  lemma {:induction false} OrderedOfDisjoint(ops: seq<Operation>, m: nat, p: nat, n: nat)
    requires m <= |ops| && p <= n
    requires forall k :: m <= k < |ops| ==> p <= ops[k].index && End(ops[k]) <= n
    requires forall k, l :: m <= k < l < |ops| ==> End(ops[k]) <= ops[l].index
    ensures Ordered(ops, m, p, n)
    decreases |ops| - m
  {
    if m < |ops| {
      OrderedOfDisjoint(ops, m + 1, End(ops[m]), n);
    }
  }

  /** Ordered spans end before the next one starts. */
  lemma {:induction false} OrderedDisjoint(ops: seq<Operation>, m: nat, p: nat, n: nat)
    requires m <= |ops| && Ordered(ops, m, p, n)
    ensures forall k, l :: m <= k < l < |ops| ==> End(ops[k]) <= ops[l].index
    decreases |ops| - m
  {
    if m < |ops| {
      OrderedDisjoint(ops, m + 1, End(ops[m]), n);
      OrderedAfter(ops, m + 1, End(ops[m]), n);
    }
  }

  /** Ordered spans start at or after `p`. */
  lemma {:induction false} OrderedAfter(ops: seq<Operation>, m: nat, p: nat, n: nat)
    requires m <= |ops| && Ordered(ops, m, p, n)
    ensures forall k :: m <= k < |ops| ==> p <= ops[k].index
    decreases |ops| - m
  {
    if m < |ops| {
      OrderedAfter(ops, m + 1, End(ops[m]), n);
    }
  }

  /**
   * The text from `p` on with the spans of the operations from the `m`-th
   * on replaced, read front to back: the text before the next span, its
   * replacement, and so on.
   */
  function Rebuild(s: string, ops: seq<Operation>, m: nat, p: nat): string
    requires m <= |ops| && Ordered(ops, m, p, |s|)
    decreases |ops| - m
  {
    if m == |ops| then s[p..]
    else s[p..ops[m].index] + ops[m].replacement + Rebuild(s, ops, m + 1, End(ops[m]))
  }

  // ---------------------------------------------------------------------
  // The whole filter

  /** The tags of the extracted list become operations whose spans are ordered. */
  lemma OperationsOrdered(html: string, os: seq<Outcome>)
    requires |os| == |ExtractFrom(html, 0)|
    ensures Ordered(Operations(ExtractFrom(html, 0), os), 0, 0, |html|)
  {
    ExtractedTagsMatch(html, 0);
    ExtractedTagsDisjoint(html, 0);
    OrderedOfDisjoint(Operations(ExtractFrom(html, 0), os), 0, 0, |html|);
  }

  /** The operations of the extracted tags are ready to be spliced back to front. */
  lemma SpliceReady(html: string, os: seq<Outcome>)
    requires |os| == |ExtractFrom(html, 0)|
    ensures var ops := Operations(ExtractFrom(html, 0), os);
            && Ordered(ops, 0, 0, |html|)
            && forall k :: 0 <= k < |ops| ==> ops[k].length > 0
  {
    OperationsOrdered(html, os);
    ExtractedTagsMatch(html, 0);
  }

  /** What `filterImages` returns for a request, given the network's answers. */
  function FilterSpec(req: FilterRequest, fetch: string -> ProbeResult): FilterResult {
    if req.content == "" then FilterResult(req.content, NoStats, [], [])
    else
      var html := UnescapeHtml(req.content);
      var tags := ExtractFrom(html, 0);
      var os := Outcomes(tags, BlacklistOf(req), MinSizeKB(req), fetch);
      OperationsOrdered(html, os);
      FilterResult(Rebuild(html, Operations(tags, os), 0, 0), StatsOf(os), RemovedList(tags, os), KeptList(tags, os))
  }

  // ---------------------------------------------------------------------
  // Properties of the counts and lists

  lemma CountLast(os: seq<Outcome>, k: nat, o: Outcome)
    requires k < |os|
    ensures Count(os[..k + 1], o) == Count(os[..k], o) + (if os[k] == o then 1 else 0)
    ensures CountRemoved(os[..k + 1]) == CountRemoved(os[..k]) + (if os[k].Removed? then 1 else 0)
  {
    assert os[..k + 1][..k] == os[..k];
  }

  /** Every outcome is a removal for one of the four reasons or a keep. */
  lemma {:induction false} CountsAddUp(os: seq<Outcome>)
    ensures CountRemoved(os) + Count(os, Kept) == |os|
    ensures CountRemoved(os) == Count(os, Removed(Blacklist)) + Count(os, Removed(Gif))
                                + Count(os, Removed(Size)) + Count(os, Removed(ProbeError))
  {
    if os != [] {
      CountsAddUp(os[..|os| - 1]);
      match os[|os| - 1]
      case Kept =>
      case Removed(r) => ReasonIn(r);
    }
  }

  lemma ReasonIn(r: Reason)
    ensures r in AllReasons
  {
    match r
    case Blacklist =>
    case Gif =>
    case Size =>
    case ProbeError =>
  }

  /** Each reason is recorded with the number of images removed for it. */
  lemma TallyRecords(os: seq<Outcome>, r: Reason)
    ensures Recorded(Tally(os), r) == Count(os, Removed(r))
    ensures r in Tally(os) <==> Count(os, Removed(r)) > 0
  {
    ReasonIn(r);
  }

  /** The sum of the recorded reasons. */
  function ReasonSum(m: map<Reason, nat>): nat {
    Recorded(m, Blacklist) + Recorded(m, Gif) + Recorded(m, Size) + Recorded(m, ProbeError)
  }

  /** Recording one more removal bumps its reason in the tally, as the loop does. */
  lemma TallyStepRemoved(os: seq<Outcome>, k: nat)
    requires k < |os| && os[k].Removed?
    ensures Tally(os[..k + 1]) == Bump(Tally(os[..k]), os[k].reason)
  {
    var a, b := Tally(os[..k + 1]), Tally(os[..k]);
    var c := Bump(b, os[k].reason);
    forall x: Reason
      ensures x in a <==> x in c
      ensures x in a ==> a[x] == c[x]
    {
      ReasonIn(x);
      CountLast(os, k, Removed(x));
    }
  }

  /** Recording one more kept image leaves the tally as it is. */
  lemma TallyStepKept(os: seq<Outcome>, k: nat)
    requires k < |os| && os[k] == Kept
    ensures Tally(os[..k + 1]) == Tally(os[..k])
  {
    var a, b := Tally(os[..k + 1]), Tally(os[..k]);
    forall x: Reason
      ensures x in a <==> x in b
      ensures x in a ==> a[x] == b[x]
    {
      ReasonIn(x);
      CountLast(os, k, Removed(x));
    }
  }

  lemma {:induction false} RemovedListLength(tags: seq<ImgTag>, os: seq<Outcome>)
    requires |tags| == |os|
    ensures |RemovedList(tags, os)| == CountRemoved(os)
  {
    if os != [] {
      RemovedListLength(tags[..|os| - 1], os[..|os| - 1]);
    }
  }

  lemma {:induction false} KeptListLength(tags: seq<ImgTag>, os: seq<Outcome>)
    requires |tags| == |os|
    ensures |KeptList(tags, os)| == Count(os, Kept)
  {
    if os != [] {
      KeptListLength(tags[..|os| - 1], os[..|os| - 1]);
    }
  }

  /**
   * `removedImages` is in document order: the `j`-th tag, when removed,
   * is listed with its reason after the removed tags before it.
   */
  lemma {:induction false} RemovedInOrder(tags: seq<ImgTag>, os: seq<Outcome>, j: nat)
    requires |tags| == |os| && j < |os| && os[j].Removed?
    ensures CountRemoved(os[..j]) < |RemovedList(tags, os)|
    ensures RemovedList(tags, os)[CountRemoved(os[..j])] == RemovedImage(tags[j].src, os[j].reason)
    decreases |os|
  {
    var n := |os| - 1;
    RemovedListLength(tags[..n], os[..n]);
    assert os[..n][..j] == os[..j] by {
      if j < n {
        assert os[..n][..j] == os[..j];
      }
    }
    if j < n {
      RemovedInOrder(tags[..n], os[..n], j);
      CountLast(os, j, Kept);
      CountPrefixMonotone(os[..n], j + 1);
      assert os[..n][..j + 1] == os[..j + 1];
    } else {
      assert os[..j] == os[..n];
    }
  }

  lemma {:induction false} CountPrefixMonotone(os: seq<Outcome>, j: nat)
    requires j <= |os|
    ensures CountRemoved(os[..j]) <= CountRemoved(os)
    ensures Count(os[..j], Kept) <= Count(os, Kept)
    decreases |os|
  {
    if j < |os| {
      var n := |os| - 1;
      assert os[..n][..j] == os[..j];
      CountPrefixMonotone(os[..n], j);
    } else {
      assert os[..j] == os;
    }
  }

  /** The `k`-th entry of `keptImages` carries the placeholder `<img{k + 1}/>`. */
  lemma {:induction false} KeptNumbering(tags: seq<ImgTag>, os: seq<Outcome>)
    requires |tags| == |os|
    ensures var kept := KeptList(tags, os);
            forall k :: 0 <= k < |kept| ==> kept[k].tag == KeptTag(k + 1)
    decreases |os|
  {
    if os != [] {
      var n := |os| - 1;
      KeptNumbering(tags[..n], os[..n]);
      KeptListLength(tags[..n], os[..n]);
      CountLast(os, n, Kept);
      assert os[..n + 1] == os;
    }
  }

  /**
   * `keptImages` is in document order: the `j`-th tag, when kept, is
   * listed after the kept tags before it, with its source.
   */
  lemma {:induction false} KeptInOrder(tags: seq<ImgTag>, os: seq<Outcome>, j: nat)
    requires |tags| == |os| && j < |os| && os[j] == Kept
    ensures Count(os[..j], Kept) < |KeptList(tags, os)|
    ensures KeptList(tags, os)[Count(os[..j], Kept)].src == tags[j].src
    decreases |os|
  {
    var n := |os| - 1;
    KeptListLength(tags[..n], os[..n]);
    if j < n {
      assert os[..n][..j] == os[..j];
      KeptInOrder(tags[..n], os[..n], j);
      CountLast(os, j, Kept);
      CountPrefixMonotone(os[..n], j + 1);
      assert os[..n][..j + 1] == os[..j + 1];
    } else {
      assert os[..j] == os[..n];
    }
  }

  /** The statistics agree with the lists and with each other. */
  lemma StatsAgree(tags: seq<ImgTag>, os: seq<Outcome>)
    requires |tags| == |os|
    ensures var st := StatsOf(os);
            && st.total == |tags| == st.removed + st.kept
            && st.removed == ReasonSum(st.reasons) == |RemovedList(tags, os)|
            && st.kept == |KeptList(tags, os)|
  {
    CountsAddUp(os);
    TallyRecords(os, Blacklist);
    TallyRecords(os, Gif);
    TallyRecords(os, Size);
    TallyRecords(os, ProbeError);
    RemovedListLength(tags, os);
    KeptListLength(tags, os);
  }

  // ---------------------------------------------------------------------
  // Properties of the splice

  /** Moving the start of the rebuilt text forward over untouched text. */
  lemma RebuildShift(s: string, ops: seq<Operation>, m: nat, p: nat, q: nat)
    requires m <= |ops| && p <= q && Ordered(ops, m, q, |s|)
    ensures Ordered(ops, m, p, |s|)
    ensures Rebuild(s, ops, m, p) == s[p..q] + Rebuild(s, ops, m, q)
  {
    if m < |ops| {
      assert s[p..ops[m].index] == s[p..q] + s[q..ops[m].index];
    } else {
      assert s[p..] == s[p..q] + s[q..];
    }
  }

  /** Rebuilt from where its next span starts, the text begins with that span's replacement. */
  lemma RebuildHead(s: string, ops: seq<Operation>, m: nat)
    requires m < |ops| && Ordered(ops, m, ops[m].index, |s|)
    ensures Rebuild(s, ops, m, ops[m].index) == ops[m].replacement + Rebuild(s, ops, m + 1, End(ops[m]))
  {
    var i := ops[m].index;
    var tail := Rebuild(s, ops, m + 1, End(ops[m]));
    assert Rebuild(s, ops, m, i) == s[i..i] + ops[m].replacement + tail;
    assert s[i..i] == [];
    assert s[i..i] + ops[m].replacement == ops[m].replacement;
  }

  /** Replacing every span by its own text gives back the text: only the spans change. */
  lemma {:induction false} RebuildIdentity(s: string, ops: seq<Operation>, m: nat, p: nat)
    requires m <= |ops| && Ordered(ops, m, p, |s|)
    requires forall k :: m <= k < |ops| ==> End(ops[k]) <= |s| && ops[k].replacement == s[ops[k].index..End(ops[k])]
    ensures Rebuild(s, ops, m, p) == s[p..]
    decreases |ops| - m
  {
    if m < |ops| {
      var o := ops[m];
      RebuildIdentity(s, ops, m + 1, End(o));
      calc {
        Rebuild(s, ops, m, p);
        s[p..o.index] + s[o.index..End(o)] + s[End(o)..];
        { assert s[p..] == s[p..o.index] + s[o.index..End(o)] + s[End(o)..]; }
        s[p..];
      }
    }
  }

  /** The change in length: each span's length is traded for its replacement's. */
  function Growth(ops: seq<Operation>, m: nat): int
    requires m <= |ops|
    decreases |ops| - m
  {
    if m == |ops| then 0 else |ops[m].replacement| - ops[m].length + Growth(ops, m + 1)
  }

  lemma {:induction false} RebuildLength(s: string, ops: seq<Operation>, m: nat, p: nat)
    requires m <= |ops| && Ordered(ops, m, p, |s|)
    ensures |Rebuild(s, ops, m, p)| == |s| - p + Growth(ops, m)
    decreases |ops| - m
  {
    if m < |ops| {
      RebuildLength(s, ops, m + 1, End(ops[m]));
    }
  }

  // ---------------------------------------------------------------------
  // Properties of the whole filter

  /**
   * An empty content comes back as it is, with zero statistics and empty
   * lists; an omitted minimum size is 15 KB and an omitted blacklist is
   * empty.
   */
  lemma FilterDefaults(req: FilterRequest, fetch: string -> ProbeResult)
    ensures req.content == "" ==> FilterSpec(req, fetch) == FilterResult("", Stats(0, 0, 0, map[]), [], [])
    ensures req.minSizeKB.None? ==> FilterSpec(req, fetch) == FilterSpec(req.(minSizeKB := Some(15.0)), fetch)
    ensures req.blacklistUrls.None? ==> FilterSpec(req, fetch) == FilterSpec(req.(blacklistUrls := Some([])), fetch)
  {
  }

  /**
   * The statistics of a filtered request: `total` is the number of tags
   * extracted from the unescaped content and equals `removed + kept`;
   * `removed` is the sum of the reasons and the length of `removedImages`;
   * `kept` is the length of `keptImages`, whose entries are `<img1/>` …
   * in order.
   */
  lemma FilterStats(req: FilterRequest, fetch: string -> ProbeResult)
    ensures var r := FilterSpec(req, fetch);
            && r.stats.total == r.stats.removed + r.stats.kept
            && r.stats.removed == ReasonSum(r.stats.reasons) == |r.removedImages|
            && r.stats.kept == |r.keptImages|
            && (forall k :: 0 <= k < |r.keptImages| ==> r.keptImages[k].tag == KeptTag(k + 1))
    ensures req.content != "" ==> FilterSpec(req, fetch).stats.total == |ExtractFrom(UnescapeHtml(req.content), 0)|
  {
    if req.content != "" {
      var html := UnescapeHtml(req.content);
      var tags := ExtractFrom(html, 0);
      var os := Outcomes(tags, BlacklistOf(req), MinSizeKB(req), fetch);
      StatsAgree(tags, os);
      KeptNumbering(tags, os);
    }
  }

  /** Content without any tag the expression matches comes back unescaped and otherwise unchanged. */
  lemma NoTagsKeepsHtml(req: FilterRequest, fetch: string -> ProbeResult)
    requires req.content != ""
    requires forall p :: 0 <= p <= |UnescapeHtml(req.content)| ==> MatchAt(UnescapeHtml(req.content), p).None?
    ensures FilterSpec(req, fetch).filteredHtml == UnescapeHtml(req.content)
    ensures FilterSpec(req, fetch).stats == Stats(0, 0, 0, map[])
  {
    var html := UnescapeHtml(req.content);
    ExecIsLeftmost(html, 0);
    assert Exec(html, 0).None?;
    assert ExtractFrom(html, 0) == [];
  }

  // ---------------------------------------------------------------------
  // The service method

  function Reverse<T>(xs: seq<T>): (r: seq<T>)
    ensures |r| == |xs| && forall k :: 0 <= k < |xs| ==> r[k] == xs[|xs| - 1 - k]
  {
    seq(|xs|, k requires 0 <= k < |xs| => xs[|xs| - 1 - k])
  }

  lemma {:induction false} ReverseMultiset<T>(xs: seq<T>)
    ensures multiset(Reverse(xs)) == multiset(xs)
    decreases |xs|
  {
    if xs != [] {
      var n := |xs| - 1;
      ReverseMultiset(xs[..n]);
      assert Reverse(xs) == [xs[n]] + Reverse(xs[..n]);
      assert xs == xs[..n] + [xs[n]];
    }
  }

  /**
   * The sort by descending index, for operations whose indices
   * strictly increase, as the extracted tags' do: the result has strictly
   * decreasing indices.
   */
  function SortByIndexDescending(ops: seq<Operation>): (sorted: seq<Operation>)
    requires forall k :: 0 <= k < |ops| - 1 ==> ops[k].index < ops[k + 1].index
    ensures |sorted| == |ops|
    ensures forall k :: 0 <= k < |sorted| - 1 ==> sorted[k].index > sorted[k + 1].index
  {
    Reverse(ops)
  }

  /** The sort only reorders: the same operations, each as often. */
  lemma SortByIndexDescendingPermutes(ops: seq<Operation>)
    requires forall k :: 0 <= k < |ops| - 1 ==> ops[k].index < ops[k + 1].index
    ensures multiset(SortByIndexDescending(ops)) == multiset(ops)
  {
    ReverseMultiset(ops);
  }

  /** Where the untouched text ends once the operations from `m` on are applied. */
  function Start(n: nat, ops: seq<Operation>, m: nat): nat {
    if m < |ops| then ops[m].index else n
  }

  /** Operations ordered from `j` on are ordered from any later `m` on, starting at `Start`. */
  lemma {:induction false} OrderedLater(ops: seq<Operation>, j: nat, p: nat, n: nat, m: nat)
    requires j <= m <= |ops| && Ordered(ops, j, p, n)
    ensures Ordered(ops, m, Start(n, ops, m), n)
    decreases m - j
  {
    if j < m {
      OrderedLater(ops, j + 1, End(ops[j]), n, m);
    }
  }

  /**
   * After the operations from the `m`-th on have been applied back to
   * front, the text is the untouched part before them followed by their
   * front-to-back rebuild.
   */
  ghost predicate SplicedFrom(s: string, ops: seq<Operation>, m: nat, cur: string) {
    && m <= |ops|
    && Ordered(ops, m, Start(|s|, ops, m), |s|)
    && cur == s[..Start(|s|, ops, m)] + Rebuild(s, ops, m, Start(|s|, ops, m))
  }

  /** Nothing applied yet: the text is the original. */
  lemma SpliceNone(s: string, ops: seq<Operation>)
    requires Ordered(ops, 0, 0, |s|)
    ensures SplicedFrom(s, ops, |ops|, s)
  {
    OrderedLater(ops, 0, 0, |s|, |ops|);
  }

  /** Everything applied: the text is the front-to-back rebuild. */
  lemma SpliceAll(s: string, ops: seq<Operation>, cur: string)
    requires Ordered(ops, 0, 0, |s|) && SplicedFrom(s, ops, 0, cur)
    ensures cur == Rebuild(s, ops, 0, 0)
  {
    RebuildShift(s, ops, 0, 0, Start(|s|, ops, 0));
  }

  /**
   * Applying the operation before the `m`-th with `substring` extends the
   * applied suffix by one operation.
   */
  lemma SpliceStep(s: string, ops: seq<Operation>, m: nat, cur: string)
    requires 0 < m <= |ops| && Ordered(ops, 0, 0, |s|)
    requires SplicedFrom(s, ops, m, cur)
    ensures End(ops[m - 1]) <= |cur|
    ensures var o := ops[m - 1];
            SplicedFrom(s, ops, m - 1, cur[..o.index] + o.replacement + cur[End(o)..])
  {
    OrderedLater(ops, 0, 0, |s|, m - 1);
    var o := ops[m - 1];
    var e := End(o);
    var st := Start(|s|, ops, m);
    var tail := Rebuild(s, ops, m, st);
    assert Rebuild(s, ops, m, e) == s[e..st] + tail by {
      RebuildShift(s, ops, m, e, st);
    }
    assert Rebuild(s, ops, m - 1, o.index) == o.replacement + Rebuild(s, ops, m, e) by {
      RebuildHead(s, ops, m - 1);
    }
    assert cur[..o.index] == s[..o.index];
    assert cur[e..] == s[e..st] + tail;
  }

  /** Operations whose spans are ordered and non-empty have strictly increasing indices. */
  lemma OrderedIncreasing(ops: seq<Operation>, p: nat, n: nat)
    requires Ordered(ops, 0, p, n)
    requires forall k :: 0 <= k < |ops| ==> ops[k].length > 0
    ensures forall k :: 0 <= k < |ops| - 1 ==> ops[k].index < ops[k + 1].index
  {
    OrderedDisjoint(ops, 0, p, n);
  }

  /** The body of the classification loop for one source: the checks in source order. */
  method ClassifyOne(src: string, blacklistUrls: seq<string>, minSizeKB: real, fetch: string -> ProbeResult)
    returns (outcome: Outcome)
    ensures outcome == Classify(src, blacklistUrls, minSizeKB, fetch)
  {
    if IsInBlacklist(src, blacklistUrls) {
      outcome := Removed(Blacklist);
    } else if IsGifUrl(src) {
      outcome := Removed(Gif);
    } else {
      var imageInfo := ProbeImage(fetch, src);
      if imageInfo.Failed? {
        outcome := Removed(ProbeError);
      } else if imageInfo.size as real <= minSizeKB * 1024.0 {
        outcome := Removed(Size);
      } else {
        outcome := Kept;
      }
    }
  }

  /** One more classified tag extends the outcomes by its classification. */
  lemma OutcomesStep(tags: seq<ImgTag>, k: nat, blacklist: seq<string>, minSizeKB: real, fetch: string -> ProbeResult)
    requires k < |tags|
    ensures Outcomes(tags[..k + 1], blacklist, minSizeKB, fetch)
              == Outcomes(tags[..k], blacklist, minSizeKB, fetch) + [Classify(tags[k].src, blacklist, minSizeKB, fetch)]
  {
    TakeStep(tags, k);
  }

  /** Cutting `k + 1` elements and then `k` is cutting `k`. */
  lemma TakeStep<T>(xs: seq<T>, k: nat)
    requires k < |xs|
    ensures xs[..k + 1][..k] == xs[..k]
  {
  }

  /** One more outcome appends one pending operation. */
  lemma PendingOpsStep(tags: seq<ImgTag>, outcomes: seq<Outcome>, outcome: Outcome)
    requires |tags| > |outcomes|
    ensures var k := |outcomes|;
            PendingOps(tags[..k + 1], outcomes + [outcome]) == PendingOps(tags[..k], outcomes) + [PendingOp(tags[k], outcome)]
  {
    var k := |outcomes|;
    TakeStep(tags, k);
    TakeStep(outcomes + [outcome], k);
  }

  /** One more outcome appends to the removed list exactly when it is a removal. */
  lemma RemovedListStep(tags: seq<ImgTag>, outcomes: seq<Outcome>, outcome: Outcome)
    requires |tags| > |outcomes|
    ensures var k := |outcomes|;
            RemovedList(tags[..k + 1], outcomes + [outcome]) == RemovedList(tags[..k], outcomes)
              + (if outcome.Removed? then [RemovedImage(tags[k].src, outcome.reason)] else [])
  {
    var k := |outcomes|;
    TakeStep(tags, k);
    TakeStep(outcomes + [outcome], k);
  }

  /** One more kept image: the loop only counts it. */
  lemma StatsStepKept(outcomes: seq<Outcome>, total: nat)
    ensures var before := StatsOf(outcomes).(total := total);
            StatsOf(outcomes + [Kept]).(total := total) == before.(kept := before.kept + 1)
  {
    var os := outcomes + [Kept];
    var n := |outcomes|;
    assert os[..n] == outcomes && os[..n + 1] == os;
    CountLast(os, n, Kept);
    TallyStepKept(os, n);
  }

  /** One more removal: the loop counts it and bumps its reason. */
  lemma StatsStepRemoved(outcomes: seq<Outcome>, r: Reason, total: nat)
    ensures var before := StatsOf(outcomes).(total := total);
            StatsOf(outcomes + [Removed(r)]).(total := total)
              == before.(removed := before.removed + 1, reasons := Bump(before.reasons, r))
  {
    var os := outcomes + [Removed(r)];
    var n := |outcomes|;
    assert os[..n] == outcomes && os[..n + 1] == os;
    CountLast(os, n, Kept);
    TallyStepRemoved(os, n);
  }

  /**
   * What the classification loop has built after the first `k` tags: their
   * outcomes, one pending operation each, the statistics and the removed
   * images.
   */
  ghost predicate ClassifiedUpTo(imgTags: seq<ImgTag>, k: nat, blacklist: seq<string>, minSizeKB: real, fetch: string -> ProbeResult,
                                 outcomes: seq<Outcome>, ops: seq<Operation>, stats: Stats, removedImages: seq<RemovedImage>)
  {
    && k <= |imgTags| && |outcomes| == k
    && outcomes == Outcomes(imgTags[..k], blacklist, minSizeKB, fetch)
    && ops == PendingOps(imgTags[..k], outcomes)
    && stats == StatsOf(outcomes).(total := |imgTags|)
    && removedImages == RemovedList(imgTags[..k], outcomes)
  }

  /** The body of the classification loop for the `k`-th tag. */
  method ClassifyNext(imgTags: seq<ImgTag>, k: nat, blacklistUrls: seq<string>, minSizeKB: real, fetch: string -> ProbeResult,
                      ghost outcomes: seq<Outcome>, ops: seq<Operation>, stats: Stats, removedImages: seq<RemovedImage>)
    returns (ghost outcomes': seq<Outcome>, ops': seq<Operation>, stats': Stats, removedImages': seq<RemovedImage>)
    requires k < |imgTags|
    requires ClassifiedUpTo(imgTags, k, blacklistUrls, minSizeKB, fetch, outcomes, ops, stats, removedImages)
    ensures ClassifiedUpTo(imgTags, k + 1, blacklistUrls, minSizeKB, fetch, outcomes', ops', stats', removedImages')
  {
    var imgTag := imgTags[k];
    var src := imgTag.src;
    var outcome := ClassifyOne(src, blacklistUrls, minSizeKB, fetch);
    OutcomesStep(imgTags, k, blacklistUrls, minSizeKB, fetch);
    PendingOpsStep(imgTags, outcomes, outcome);
    RemovedListStep(imgTags, outcomes, outcome);
    ops' := ops + [Operation(imgTag.index, |imgTag.fullTag|, "", imgTag, outcome == Kept)];
    stats', removedImages' := stats, removedImages;
    if outcome == Kept {
      StatsStepKept(outcomes, |imgTags|);
      stats' := stats.(kept := stats.kept + 1);
    } else {
      StatsStepRemoved(outcomes, outcome.reason, |imgTags|);
      stats' := stats.(removed := stats.removed + 1, reasons := Bump(stats.reasons, outcome.reason));
      removedImages' := removedImages + [RemovedImage(src, outcome.reason)];
    }
    outcomes' := outcomes + [outcome];
  }

  /**
   * The classification loop of `filterImages`: one pending operation per
   * tag, the statistics and the removed images, all in document order.
   */
  method ClassifyTags(imgTags: seq<ImgTag>, blacklistUrls: seq<string>, minSizeKB: real, fetch: string -> ProbeResult)
    returns (ops: seq<Operation>, stats: Stats, removedImages: seq<RemovedImage>)
    ensures var os := Outcomes(imgTags, blacklistUrls, minSizeKB, fetch);
            && ops == PendingOps(imgTags, os)
            && stats == StatsOf(os)
            && removedImages == RemovedList(imgTags, os)
  {
    removedImages := [];
    stats := Stats(|imgTags|, 0, 0, map[]);
    ops := [];
    var k := 0;
    ghost var outcomes: seq<Outcome> := [];
    while k < |imgTags|
      invariant ClassifiedUpTo(imgTags, k, blacklistUrls, minSizeKB, fetch, outcomes, ops, stats, removedImages)
      decreases |imgTags| - k
    {
      outcomes, ops, stats, removedImages := ClassifyNext(imgTags, k, blacklistUrls, minSizeKB, fetch, outcomes, ops, stats, removedImages);
      k := k + 1;
    }
    assert imgTags[..k] == imgTags;
  }

  /** The operations once the first `j` have been through the numbering loop. */
  function Numbered(tags: seq<ImgTag>, os: seq<Outcome>, j: nat): (ops: seq<Operation>)
    requires |tags| == |os|
    ensures |ops| == |os|
  {
    seq(|os|, i requires 0 <= i < |os| => if i < j then FinalOp(tags, os, i) else PendingOp(tags[i], os[i]))
  }

  /** Before the loop the operations are the pending ones, after it the numbered ones. */
  lemma NumberedEnds(tags: seq<ImgTag>, os: seq<Outcome>)
    requires |tags| == |os|
    ensures Numbered(tags, os, 0) == PendingOps(tags, os)
    ensures Numbered(tags, os, |os|) == Operations(tags, os)
  {
    PendingOpsAt(tags, os);
  }

  /** The numbering loop's step for the `j`-th operation. */
  lemma NumberStep(tags: seq<ImgTag>, os: seq<Outcome>, j: nat)
    requires |tags| == |os| && j < |os|
    ensures Numbered(tags, os, j)[j] == PendingOp(tags[j], os[j])
    ensures os[j] != Kept ==> Numbered(tags, os, j + 1) == Numbered(tags, os, j)
    ensures os[j] == Kept ==>
              Numbered(tags, os, j + 1)
              == Numbered(tags, os, j)[j := PendingOp(tags[j], os[j]).(replacement := KeptTag(Count(os[..j], Kept) + 1))]
  {
    CountLast(os, j, Kept);
  }

  /** The numbering loop's step for the kept list and the running count. */
  lemma KeptStep(tags: seq<ImgTag>, os: seq<Outcome>, j: nat)
    requires |tags| == |os| && j < |os|
    ensures Count(os[..j + 1], Kept) == Count(os[..j], Kept) + (if os[j] == Kept then 1 else 0)
    ensures KeptList(tags[..j + 1], os[..j + 1]) == KeptList(tags[..j], os[..j])
              + (if os[j] == Kept then [KeptImage(tags[j].src, KeptTag(Count(os[..j], Kept) + 1))] else [])
  {
    CountLast(os, j, Kept);
    assert tags[..j + 1][..j] == tags[..j] && os[..j + 1][..j] == os[..j];
  }

  /**
   * The numbering loop of `filterImages`: the kept operations, in order,
   * get the placeholders `<img1/>`, `<img2/>`, … and the kept images are
   * listed with them.
   */
  method NumberKept(imgTags: seq<ImgTag>, ghost os: seq<Outcome>, pending: seq<Operation>)
    returns (ops: seq<Operation>, keptImages: seq<KeptImage>)
    requires |imgTags| == |os| == |pending|
    requires pending == PendingOps(imgTags, os)
    ensures ops == Operations(imgTags, os)
    ensures keptImages == KeptList(imgTags, os)
  {
    NumberedEnds(imgTags, os);
    ops := pending;
    keptImages := [];
    var keptCount := 0;
    var j := 0;
    while j < |ops|
      invariant 0 <= j <= |ops| == |imgTags|
      invariant ops == Numbered(imgTags, os, j)
      invariant keptCount == Count(os[..j], Kept)
      invariant keptImages == KeptList(imgTags[..j], os[..j])
    {
      NumberStep(imgTags, os, j);
      KeptStep(imgTags, os, j);
      if ops[j].isKept {
        keptCount := keptCount + 1;
        var placeholderTag := KeptTag(keptCount);
        ops := ops[j := ops[j].(replacement := placeholderTag)];
        keptImages := keptImages + [KeptImage(ops[j].imgTag.src, placeholderTag)];
      }
      j := j + 1;
    }
    assert imgTags[..j] == imgTags && os[..j] == os;
  }

  /**
   * The splice of `filterImages`: the operations sorted by decreasing
   * index and applied one by one with `substring`, which gives the text
   * rebuilt front to back.
   */
  method SpliceBackToFront(html: string, ops: seq<Operation>) returns (processedHtml: string)
    requires Ordered(ops, 0, 0, |html|)
    requires forall k :: 0 <= k < |ops| ==> ops[k].length > 0
    ensures processedHtml == Rebuild(html, ops, 0, 0)
  {
    OrderedIncreasing(ops, 0, |html|);
    var sorted := SortByIndexDescending(ops);
    ghost var n := |ops|;
    processedHtml := html;
    var t := 0;
    SpliceNone(html, ops);
    while t < |sorted|
      invariant 0 <= t <= n
      invariant SplicedFrom(html, ops, n - t, processedHtml)
    {
      var operation := sorted[t];
      assert operation == ops[n - t - 1];
      SpliceStep(html, ops, n - t, processedHtml);
      processedHtml := processedHtml[..operation.index] + operation.replacement
                       + processedHtml[operation.index + operation.length..];
      t := t + 1;
    }
    SpliceAll(html, ops, processedHtml);
  }

  /** `filterImages`, with the network's answers given by `fetch`. */
  method FilterImages(req: FilterRequest, fetch: string -> ProbeResult) returns (res: FilterResult)
    ensures res == FilterSpec(req, fetch)
  {
    var blacklistUrls := if req.blacklistUrls.Some? then req.blacklistUrls.value else [];
    var minSizeKB := if req.minSizeKB.Some? then req.minSizeKB.value else 15.0;
    if req.content == "" {
      return FilterResult(req.content, Stats(0, 0, 0, map[]), [], []);
    }
    var processedHtml := UnescapeHtml(req.content);
    var imgTags := ExtractImgTags(processedHtml);
    ghost var os := Outcomes(imgTags, blacklistUrls, minSizeKB, fetch);
    var pending, stats, removedImages := ClassifyTags(imgTags, blacklistUrls, minSizeKB, fetch);
    var ops, keptImages := NumberKept(imgTags, os, pending);
    SpliceReady(processedHtml, os);
    processedHtml := SpliceBackToFront(processedHtml, ops);
    res := FilterResult(processedHtml, stats, removedImages, keptImages);
  }
}
