/**
 * `HtmlTemplateService.populateHTMLFromJSON`: the slot-population engine.
 *
 * The template is parsed into a detached container.  Every element's
 * original inner HTML is recorded under its dotted lower-case tag path and
 * under its bare tag name.  Then the data object is walked key by key: a
 * string value replaces the first descendant whose tag is the key with the
 * value's fragment (after `{{key}}` inside it was replaced by the recorded
 * content), an object value recurses into that descendant, and the key
 * `summary` gets an outer/inner two-stage splice.
 *
 * The first half of the module states the engine as functions on the tree
 * (the reference definitions); the second half is the engine as the
 * service runs it, step by step, proved equal to them.
 */
module HtmlTemplate {
  import opened Wrappers
  import opened Strings
  import opened JsonData
  import opened Dom
  import opened HtmlEscapes
  import opened Templates

  /** Why a population run fails (the service throws in each case). */
  datatype PopulateError =
    | TemplateNotFound(id: string)   // `NotFoundException`: unknown template id
    | MissingInput                   // neither a template id nor data
    | OuterNotString                 // `summary.outer` truthy but not a string: `.replace` is not a function

  /** The marker `handleSummary` looks for in text nodes. */
  const InnerMarker: string := "{{inner}}"

  // ---------------------------------------------------------------------
  // Choosing the data

  /**
   * `HtmlTemplateService.getTemplateById`: the registry lookup, failing
   * when it finds nothing. An inherited property name does not fail.
   */
  function TemplateById(id: string): (r: Result<Entry, PopulateError>)
    ensures r.Ok? <==> id in Registry || id in InheritedNames
    ensures id in Registry ==> r == Ok(Preset(Registry[id]))
    ensures id !in Registry && id in InheritedNames ==> r == Ok(Inherited(id))
    ensures r.Err? ==> r.error == TemplateNotFound(id)
  {
    match GetTemplateById(id)
    case Some(t) => Ok(t)
    case None => Err(TemplateNotFound(id))
  }

  /** A template id is used when it is truthy, i.e. present and not empty. */
  predicate TruthyId(templateId: Option<string>) {
    templateId.Some? && templateId.value != ""
  }

  /**
   * The data the run works on: a truthy template id wins over `jsonData`.
   * `None` inside `Ok` is `undefined`, the `data` of an inherited name.
   */
  function ChooseData(jsonData: Option<seq<Field>>, templateId: Option<string>): (r: Result<Option<seq<Field>>, PopulateError>)
    ensures TruthyId(templateId) && templateId.value in Registry ==>
      r == Ok(Some(Registry[templateId.value].data))
    ensures TruthyId(templateId) && templateId.value !in Registry && templateId.value in InheritedNames ==>
      r == Ok(None)
    ensures TruthyId(templateId) && templateId.value !in Registry && templateId.value !in InheritedNames ==>
      r == Err(TemplateNotFound(templateId.value))
    ensures !TruthyId(templateId) && jsonData.Some? ==> r == Ok(jsonData)
    ensures !TruthyId(templateId) && jsonData.None? ==> r == Err(MissingInput)
  {
    if TruthyId(templateId) then
      match TemplateById(templateId.value)
      case Ok(t) => Ok(EntryData(t))
      case Err(e) => Err(e)
    else if jsonData.Some? then Ok(jsonData)
    else Err(MissingInput)
  }

  // ---------------------------------------------------------------------
  // Paths and placeholders

  /**
   * The path of `key` below `path`: the key itself at the top, otherwise
   * the parent path, a dot and the key. A key without dots is the last
   * segment of the path it makes, so its placeholder is `{{key}}` at any
   * depth.
   */
  function JoinPath(path: string, key: string): (r: string)
    ensures path == "" ==> r == key
    ensures path != "" ==> |r| == |path| + 1 + |key| && r[..|path|] == path && r[|path|] == '.' && r[|path| + 1..] == key
    ensures '.' !in key ==> LastSegment(r) == key
  {
    var r := if path == "" then key else path + "." + key;
    assert '.' !in key ==> LastSegment(r) == key by {
      if '.' !in key {
        assert r[|r| - |key|..] == key;
        LastSegmentOfDotFreeSuffix(r, key);
      }
    }
    r
  }

  /** The last dot-separated segment of a field path: the text after the last dot. */
  function LastSegment(path: string): (r: string)
    ensures EndsWith(path, r)
    ensures forall i :: 0 <= i < |r| ==> r[i] != '.'
    ensures |r| < |path| ==> path[|path| - |r| - 1] == '.'
  {
    if path == "" || path[|path| - 1] == '.' then ""
    else LastSegment(path[..|path| - 1]) + [path[|path| - 1]]
  }

  /** A dot-free end of a path that is the whole path or follows a dot is its last segment. */
  lemma LastSegmentOfDotFreeSuffix(path: string, key: string)
    requires EndsWith(path, key)
    requires forall i :: 0 <= i < |key| ==> key[i] != '.'
    requires |key| < |path| ==> path[|path| - |key| - 1] == '.'
    ensures LastSegment(path) == key
  {
    var r := LastSegment(path);
    assert path[|path| - |r|..] == r;
  }

  /**
   * `replacePlaceholders`: every `{{last segment}}` of `html` becomes the
   * content recorded under the exact `fieldPath`, or the empty string when
   * nothing was recorded there; the bare name is not consulted.
   */
  function ReplacePlaceholders(contents: map<string, string>, html: string, fieldPath: string): string {
    var original := if fieldPath in contents then contents[fieldPath] else "";
    ReplaceAll(html, Placeholder(LastSegment(fieldPath)), original)
  }

  /** A value without its placeholder comes through unchanged. */
  lemma ReplacePlaceholdersAbsent(contents: map<string, string>, html: string, fieldPath: string)
    requires !Contains(html, Placeholder(LastSegment(fieldPath)))
    ensures ReplacePlaceholders(contents, html, fieldPath) == html
  {
    ReplaceAllAbsent(html, Placeholder(LastSegment(fieldPath)), if fieldPath in contents then contents[fieldPath] else "");
  }

  /**
   * A value holding its placeholder once, with no brace before it, gets the
   * recorded content in its place (the empty string when the exact path
   * was never recorded).
   */
  lemma {:induction false} ReplacePlaceholdersOnce(contents: map<string, string>, a: string, b: string, fieldPath: string)
    requires forall i :: 0 <= i < |a| ==> a[i] != '{'
    requires !Contains(b, Placeholder(LastSegment(fieldPath)))
    ensures fieldPath in contents ==>
      ReplacePlaceholders(contents, a + Placeholder(LastSegment(fieldPath)) + b, fieldPath) == a + contents[fieldPath] + b
    ensures fieldPath !in contents ==>
      ReplacePlaceholders(contents, a + Placeholder(LastSegment(fieldPath)) + b, fieldPath) == a + b
  {
    var p := Placeholder(LastSegment(fieldPath));
    var original := if fieldPath in contents then contents[fieldPath] else "";
    assert p[0] == '{';
    assert a + p + b == a + (p + b);
    ReplaceAllKeepsPrefix(a, p + b, p, original);
    ReplaceAllMatchHere(b, p, original);
    ReplaceAllAbsent(b, p, original);
  }

  /**
   * In a nested object the path is longer than the bare name, so a record
   * kept only under the bare name is not found: `{{title}}` at, say,
   * `summary.inner.title` is emptied even though `title` was recorded.
   */
  lemma NestedPlaceholderEmptied(original: string, parent: string)
    requires parent != ""
    ensures ReplacePlaceholders(map["title" := original], "<h3>{{title}}</h3>", JoinPath(parent, "title")) == "<h3></h3>"
  {
    var path := JoinPath(parent, "title");
    TitleSegment(parent);
    ReplacePlaceholdersOnce(map["title" := original], "<h3>", "</h3>", path);
    SplitHeading();
  }

  /** The placeholder looked for at `parent.title` is `{{title}}`, and no record is kept at that path. */
  lemma TitleSegment(parent: string)
    requires parent != ""
    ensures Placeholder(LastSegment(JoinPath(parent, "title"))) == "{{title}}"
    ensures JoinPath(parent, "title") != "title"
    ensures !Contains("</h3>", "{{title}}")
  {
    TooLongAbsent("</h3>", "{{title}}");
  }

  lemma SplitHeading()
    ensures "<h3>" + "{{title}}" + "</h3>" == "<h3>{{title}}</h3>"
    ensures "<h3>" + "</h3>" == "<h3></h3>"
  {
  }

  // ---------------------------------------------------------------------
  // `collectOriginalContents`

  /** One assignment of a value to a key of the original-contents record. */
  datatype Write = Write(key: string, value: string)

  predicate HasElementChild(kids: seq<Node>) {
    exists k | 0 <= k < |kids| :: kids[k].Element?
  }

  /**
   * The assignments the collector makes for the element children of
   * `f[i..]`, in order: for each, its path and then its bare tag get its
   * inner HTML, and then its own element children are visited.
   */
  function WritesFrom(codec: HtmlCodec, f: seq<Node>, prefix: string, i: nat): (ws: seq<Write>)
    requires i <= |f|
    decreases f, |f| - i
  {
    if i == |f| then []
    else if f[i].Element? then
      var tag := Lower(f[i].tag);
      var full := JoinPath(prefix, tag);
      var inner := codec.serialize(f[i].kids);
      [Write(full, inner), Write(tag, inner)]
      + (if HasElementChild(f[i].kids) then WritesFrom(codec, f[i].kids, full, 0) else [])
      + WritesFrom(codec, f, prefix, i + 1)
    else WritesFrom(codec, f, prefix, i + 1)
  }

  /** The dictionary after the assignments `ws`, one after another. */
  function ApplyWrites(m: map<string, string>, ws: seq<Write>): map<string, string>
    decreases |ws|
  {
    if ws == [] then m else ApplyWrites(m[ws[0].key := ws[0].value], ws[1..])
  }

  /** Reference definition: the value of the last assignment to `k`, if any. */
  function LastWrite(ws: seq<Write>, k: string): Option<string>
  {
    if ws == [] then None
    else if ws[|ws| - 1].key == k then Some(ws[|ws| - 1].value)
    else LastWrite(ws[..|ws| - 1], k)
  }

  /**
   * `LastWrite` finds nothing exactly when no assignment is to `k`, and
   * otherwise the value of an assignment to `k` that no later one overrides.
   */
  lemma {:induction false} LastWriteMeaning(ws: seq<Write>, k: string)
    ensures LastWrite(ws, k).None? <==> forall j :: 0 <= j < |ws| ==> ws[j].key != k
    ensures LastWrite(ws, k).Some? ==>
              exists j :: 0 <= j < |ws| && ws[j] == Write(k, LastWrite(ws, k).value)
                          && forall j' :: j < j' < |ws| ==> ws[j'].key != k
  {
    if ws != [] {
      var n := |ws| - 1;
      if ws[n].key == k {
        assert ws[n] == Write(k, ws[n].value);
      } else {
        var init := ws[..n];
        LastWriteMeaning(init, k);
        assert forall j :: 0 <= j < n ==> init[j] == ws[j];
        if LastWrite(init, k).Some? {
          var j :| 0 <= j < |init| && init[j] == Write(k, LastWrite(init, k).value)
                   && forall j' :: j < j' < |init| ==> init[j'].key != k;
          assert ws[j] == Write(k, LastWrite(ws, k).value);
        }
      }
    }
  }

  lemma {:induction false} ApplyWritesAppend(m: map<string, string>, xs: seq<Write>, ys: seq<Write>)
    ensures ApplyWrites(m, xs + ys) == ApplyWrites(ApplyWrites(m, xs), ys)
    decreases |xs|
  {
    if xs == [] {
      assert xs + ys == ys;
    } else {
      assert (xs + ys)[0] == xs[0] && (xs + ys)[1..] == xs[1..] + ys;
      ApplyWritesAppend(m[xs[0].key := xs[0].value], xs[1..], ys);
    }
  }

  /** The last assignment to a key wins; a key never assigned keeps its old entry. */
  lemma {:induction false} LastWriteWins(m: map<string, string>, ws: seq<Write>, k: string)
    ensures LastWrite(ws, k).Some? ==> k in ApplyWrites(m, ws) && ApplyWrites(m, ws)[k] == LastWrite(ws, k).value
    ensures LastWrite(ws, k).None? ==> (k in ApplyWrites(m, ws) <==> k in m)
    ensures LastWrite(ws, k).None? && k in m ==> ApplyWrites(m, ws)[k] == m[k]
    decreases |ws|
  {
    if ws != [] {
      var init := ws[..|ws| - 1];
      var last := ws[|ws| - 1];
      assert ws == init + [last];
      ApplyWritesAppend(m, init, [last]);
      LastWriteWins(m, init, k);
      assert ApplyWrites(m, ws) == ApplyWrites(m, init)[last.key := last.value];
    }
  }

  /** The dotted lower-case tag path of the element at `b`, below `prefix`. */
  function TagPath(f: seq<Node>, b: Address, prefix: string): string
    requires ValidAddr(f, b) && At(f, b).Element?
    decreases |b|
  {
    var here := JoinPath(prefix, Lower(f[b[0]].tag));
    if |b| == 1 then here else TagPath(f[b[0]].kids, b[1..], here)
  }

  /**
   * Every element of the tree is recorded: its inner HTML is assigned to
   * its tag path and to its bare tag.
   */
  lemma {:induction false} WritesCover(codec: HtmlCodec, f: seq<Node>, prefix: string, i: nat, b: Address)
    requires i <= |f| && ValidAddr(f, b) && b[0] >= i && At(f, b).Element?
    ensures Write(TagPath(f, b, prefix), codec.serialize(At(f, b).kids)) in WritesFrom(codec, f, prefix, i)
    ensures Write(Lower(At(f, b).tag), codec.serialize(At(f, b).kids)) in WritesFrom(codec, f, prefix, i)
    decreases f, |f| - i
  {
    var ws := WritesFrom(codec, f, prefix, i);
    if i < b[0] {
      WritesCover(codec, f, prefix, i + 1, b);
      if f[i].Element? {
        var tag := Lower(f[i].tag);
        var full := JoinPath(prefix, tag);
        var inner := codec.serialize(f[i].kids);
        var own := [Write(full, inner), Write(tag, inner)]
          + (if HasElementChild(f[i].kids) then WritesFrom(codec, f[i].kids, full, 0) else []);
        assert ws == own + WritesFrom(codec, f, prefix, i + 1);
      }
    } else if |b| > 1 {
      var e := f[i];
      var full := JoinPath(prefix, Lower(e.tag));
      var inner := codec.serialize(e.kids);
      assert b[1..][0] == b[1];
      assert e.kids[b[1]].Element?;
      assert HasElementChild(e.kids);
      WritesCover(codec, e.kids, full, 0, b[1..]);
      assert ws == [Write(full, inner), Write(Lower(e.tag), inner)] + WritesFrom(codec, e.kids, full, 0)
        + WritesFrom(codec, f, prefix, i + 1);
    }
  }

  /**
   * Two top-level elements with the same tag: the later one owns the bare
   * entry, which at the top is also its path.
   */
  lemma DuplicateTagLaterWins(codec: HtmlCodec, s: string, t: string)
    ensures var m := ApplyWrites(map[], WritesFrom(codec, [Element("p", [], [Text(s)]), Element("P", [], [Text(t)])], "", 0));
            "p" in m && m["p"] == codec.serialize([Text(t)])
  {
    var f := [Element("p", [], [Text(s)]), Element("P", [], [Text(t)])];
    assert Lower("p") == "p" && Lower("P") == "p";
    assert !HasElementChild([Text(s)]) && !HasElementChild([Text(t)]);
    var later := [Write("p", codec.serialize([Text(t)])), Write("p", codec.serialize([Text(t)]))];
    assert WritesFrom(codec, f, "", 2) == [];
    assert WritesFrom(codec, f, "", 1) == later;
    var ws := WritesFrom(codec, f, "", 0);
    assert ws == [Write("p", codec.serialize([Text(s)])), Write("p", codec.serialize([Text(s)]))] + later;
    LastWriteWins(map[], ws, "p");
  }

  // ---------------------------------------------------------------------
  // `populateElement` and `handleSummary` as functions of the tree

  /** What a run reads besides the tree: the codec and the recorded contents. */
  datatype Ctx = Ctx(codec: HtmlCodec, contents: map<string, string>)

  /** The keys `data[i..]`, one after another, applied to the forest `f`. */
  function PopulateFrom(ctx: Ctx, f: seq<Node>, data: seq<Field>, i: nat, path: string): Result<seq<Node>, PopulateError>
    requires i <= |data|
    decreases Obj(data), |data| - i, 1
  {
    if i == |data| then Ok(f)
    else match PopulateKey(ctx, f, data, i, path)
      case Err(e) => Err(e)
      case Ok(g) => PopulateFrom(ctx, g, data, i + 1, path)
  }

  /** One iteration of the `for…in` loop of `populateElement`, for the key `data[i].key`. */
  function PopulateKey(ctx: Ctx, f: seq<Node>, data: seq<Field>, i: nat, path: string): Result<seq<Node>, PopulateError>
    requires i < |data|
    decreases Obj(data), |data| - i, 0
  {
    var key := data[i].key;
    var currentPath := JoinPath(path, key);
    match FindFirst(f, key)
    case None => Ok(f)
    case Some(a) =>
      match data[i].value
      case Str(s) => Ok(Splice(f, a, ctx.codec.parse(ReplacePlaceholders(ctx.contents, s, currentPath))))
      case Obj(fs) =>
        if key == "summary" then SummaryResult(ctx, f, a, fs, currentPath)
        else
          (match PopulateFrom(ctx, At(f, a).kids, fs, 0, currentPath)
           case Err(e) => Err(e)
           case Ok(ks) => Ok(SetKids(f, a, ks)))
      case _ => Ok(f)
  }

  /**
   * `handleSummary` for the element at `a`, as a value: nothing when `outer` is falsy;
   * otherwise the element is replaced by the nodes of `outer` (its
   * `{{summary}}` resolved), in which every text node containing
   * `{{inner}}` has become an `<inner>` element holding a copy of the
   * element's children populated with `inner`.
   */
  function SummaryResult(ctx: Ctx, f: seq<Node>, a: Address, sfs: seq<Field>, path: string): Result<seq<Node>, PopulateError>
    requires ValidAddr(f, a) && At(f, a).Element?
    decreases Obj(sfs), 0, 0
  {
    var outer := Get(sfs, "outer");
    if !Truthy(outer) then Ok(f)
    else if !outer.value.Str? then Err(OuterNotString)
    else
      var outerKids := ctx.codec.parse(ReplacePlaceholders(ctx.contents, outer.value.s, path));
      match FindKey(sfs, "inner")
      case Some(j) =>
        if sfs[j].value.Obj? && MarkedTexts(Walk(outerKids), InnerMarker) != [] then
          var copy := ctx.codec.parse(ctx.codec.serialize(At(f, a).kids));
          match PopulateFrom(ctx, copy, sfs[j].value.fields, 0, path + ".inner")
          case Err(e) => Err(e)
          case Ok(ik) => Ok(Splice(f, a, MapText(outerKids, InnerMarker, Element("inner", [], ik))))
        else Ok(Splice(f, a, outerKids))
      case None => Ok(Splice(f, a, outerKids))
  }

  /**
   * `populateHTMLFromJSON` as a whole: choose the data, decode its string
   * leaves, parse the template, record the original contents, populate,
   * serialise.
   */
  function PopulateHtml(codec: HtmlCodec, html: string, jsonData: Option<seq<Field>>, templateId: Option<string>)
    : Result<string, PopulateError>
  {
    match ChooseData(jsonData, templateId)
    case Err(e) => Err(e)
    case Ok(data) =>
      // `for…in` over `undefined` visits nothing
      var preprocessed := if data.Some? then PreprocessJsonData(data.value) else [];
      var root := codec.parse(html);
      var ctx := Ctx(codec, ApplyWrites(map[], WritesFrom(codec, root, "", 0)));
      match PopulateFrom(ctx, root, preprocessed, 0, "")
      case Err(e) => Err(e)
      case Ok(g) => Ok(codec.serialize(g))
  }

  // ---------------------------------------------------------------------
  // Properties of a run

  /** A truthy template id decides the data on its own: `jsonData` is not looked at. */
  lemma TemplateIdOverridesData(codec: HtmlCodec, html: string, j1: Option<seq<Field>>, j2: Option<seq<Field>>, id: Option<string>)
    requires TruthyId(id)
    ensures PopulateHtml(codec, html, j1, id) == PopulateHtml(codec, html, j2, id)
  {
    assert ChooseData(j1, id) == ChooseData(j2, id);
  }

  /** An unknown template id fails before the template is even parsed. */
  lemma UnknownTemplateFails(codec: HtmlCodec, html: string, jsonData: Option<seq<Field>>, id: string)
    requires id != "" && id !in Registry && id !in InheritedNames
    ensures PopulateHtml(codec, html, jsonData, Some(id)) == Err(TemplateNotFound(id))
  {
  }

  /** Without a truthy template id and without data the run fails. */
  lemma MissingInputFails(codec: HtmlCodec, html: string, id: Option<string>)
    requires !TruthyId(id)
    ensures PopulateHtml(codec, html, None, id) == Err(MissingInput)
  {
  }

  /** The id `blue-theme` runs the engine on the blue-theme data. */
  lemma BlueThemeIdUsesItsData(jsonData: Option<seq<Field>>)
    ensures ChooseData(jsonData, Some("blue-theme")) == Ok(Some(BlueThemeData))
  {
    BlueThemeLookup();
  }

  /**
   * An inherited property name as template id does not fail: its `data`
   * is `undefined`, so the template comes back as parsed and serialised.
   */
  lemma InheritedIdKeepsTemplate(codec: HtmlCodec, html: string, jsonData: Option<seq<Field>>, id: string)
    requires id in InheritedNames
    ensures PopulateHtml(codec, html, jsonData, Some(id)) == Ok(codec.serialize(codec.parse(html)))
  {
    EmptyDataKeepsTemplate(codec, html);
  }

  /** With empty data the template comes back as parsed and serialised. */
  lemma EmptyDataKeepsTemplate(codec: HtmlCodec, html: string)
    ensures PopulateHtml(codec, html, Some([]), None) == Ok(codec.serialize(codec.parse(html)))
  {
    assert PreprocessJsonData([]) == [];
  }

  /** Keys that name no element of the tree leave it unchanged. */
  lemma {:induction false} UnmatchedKeysKeepTree(ctx: Ctx, f: seq<Node>, data: seq<Field>, i: nat, path: string)
    requires i <= |data|
    requires forall k, b :: i <= k < |data| && ValidAddr(f, b) ==> !Matches(At(f, b), data[k].key)
    ensures PopulateFrom(ctx, f, data, i, path) == Ok(f)
    decreases |data| - i
  {
    if i < |data| {
      FindFirstNoneIffAbsent(f, data[i].key);
      assert PopulateKey(ctx, f, data, i, path) == Ok(f);
      UnmatchedKeysKeepTree(ctx, f, data, i + 1, path);
    }
  }

  /** Numbers, booleans and `null` are ignored, as is a key that names no element. */
  lemma OtherValuesIgnored(ctx: Ctx, f: seq<Node>, data: seq<Field>, i: nat, path: string)
    requires i < |data|
    requires (!data[i].value.Str? && !data[i].value.Obj?) || FindFirst(f, data[i].key).None?
    ensures PopulateKey(ctx, f, data, i, path) == Ok(f)
  {
  }

  /**
   * A string value replaces the first element (in document order) whose
   * tag is the key by the nodes of the resolved fragment, in its place
   * among its siblings; the other siblings stay where they were.
   */
  lemma StringValueSplices(ctx: Ctx, f: seq<Node>, data: seq<Field>, i: nat, path: string)
    requires i < |data| && data[i].value.Str?
    requires FindFirst(f, data[i].key).Some?
    ensures var a := FindFirst(f, data[i].key).value;
            var nodes := ctx.codec.parse(ReplacePlaceholders(ctx.contents, data[i].value.s, JoinPath(path, data[i].key)));
            var parent := a[..|a| - 1];
            var j := a[|a| - 1];
            && Matches(At(f, a), data[i].key)
            && (forall b :: ValidAddr(f, b) && Before(b, a) ==> !Matches(At(f, b), data[i].key))
            && PopulateKey(ctx, f, data, i, path).Ok?
            && (parent == [] || (ValidAddr(f, parent) && At(f, parent).Element?))
            && j < |ChildrenAt(f, parent)|
            && (parent == [] || (ValidAddr(PopulateKey(ctx, f, data, i, path).value, parent)
                                 && At(PopulateKey(ctx, f, data, i, path).value, parent).Element?))
            && ChildrenAt(PopulateKey(ctx, f, data, i, path).value, parent)
               == ChildrenAt(f, parent)[..j] + nodes + ChildrenAt(f, parent)[j + 1..]
  {
    var a := FindFirst(f, data[i].key).value;
    var nodes := ctx.codec.parse(ReplacePlaceholders(ctx.contents, data[i].value.s, JoinPath(path, data[i].key)));
    StringValueStep(ctx, f, data, i, path);
    SpliceInParent(f, a, nodes);
    FirstMatchIsFirst(f, data[i].key);
  }

  /** Splicing at an address changes only that place among its parent's children. */
  lemma SpliceInParent(f: seq<Node>, a: Address, nodes: seq<Node>)
    requires ValidAddr(f, a)
    ensures var parent := a[..|a| - 1];
            var j := a[|a| - 1];
            && (parent == [] || (ValidAddr(f, parent) && At(f, parent).Element?))
            && j < |ChildrenAt(f, parent)|
            && (parent == [] || (ValidAddr(Splice(f, a, nodes), parent) && At(Splice(f, a, nodes), parent).Element?))
            && ChildrenAt(Splice(f, a, nodes), parent) == ChildrenAt(f, parent)[..j] + nodes + ChildrenAt(f, parent)[j + 1..]
  {
    var parent := a[..|a| - 1];
    var j := a[|a| - 1];
    assert parent + [j] == a;
    SpliceSiblings(f, parent, j, nodes);
  }

  /** No element before the one `FindFirst` returns matches the name. */
  lemma FirstMatchIsFirst(f: seq<Node>, name: string)
    requires FindFirst(f, name).Some?
    ensures forall b :: ValidAddr(f, b) && Before(b, FindFirst(f, name).value) ==> !Matches(At(f, b), name)
  {
    forall b | ValidAddr(f, b) && Before(b, FindFirst(f, name).value) ensures !Matches(At(f, b), name) {
      FindFirstIsFirst(f, name, b);
    }
  }

  /** The step on a string value is the splice of its resolved fragment. */
  lemma StringValueStep(ctx: Ctx, f: seq<Node>, data: seq<Field>, i: nat, path: string)
    requires i < |data| && data[i].value.Str?
    requires FindFirst(f, data[i].key).Some?
    ensures PopulateKey(ctx, f, data, i, path)
         == Ok(Splice(f, FindFirst(f, data[i].key).value,
                      ctx.codec.parse(ReplacePlaceholders(ctx.contents, data[i].value.s, JoinPath(path, data[i].key)))))
  {
  }

  /**
   * A nested object (other than `summary`) is applied to the children of
   * the first element whose tag is the key; that element stays, with its
   * tag and attributes, and an error inside is the error of the step.
   */
  lemma NestedObjectKeepsContainer(ctx: Ctx, f: seq<Node>, data: seq<Field>, i: nat, path: string)
    requires i < |data| && data[i].value.Obj? && data[i].key != "summary"
    requires FindFirst(f, data[i].key).Some?
    ensures var a := FindFirst(f, data[i].key).value;
            var inside := PopulateFrom(ctx, At(f, a).kids, data[i].value.fields, 0, JoinPath(path, data[i].key));
            var r := PopulateKey(ctx, f, data, i, path);
            && (inside.Err? ==> r == Err(inside.error))
            && (inside.Ok? ==>
                 (r.Ok? && ValidAddr(r.value, a) && At(r.value, a) == Element(At(f, a).tag, At(f, a).attrs, inside.value)))
  {
    var a := FindFirst(f, data[i].key).value;
    var inside := PopulateFrom(ctx, At(f, a).kids, data[i].value.fields, 0, JoinPath(path, data[i].key));
    if inside.Ok? {
      SetKidsAt(f, a, inside.value);
    }
  }

  /** A falsy `outer` leaves the summary element in place; a truthy non-string one is an error. */
  lemma SummaryOuterCases(ctx: Ctx, f: seq<Node>, a: Address, sfs: seq<Field>, path: string)
    requires ValidAddr(f, a) && At(f, a).Element?
    ensures !Truthy(Get(sfs, "outer")) ==> SummaryResult(ctx, f, a, sfs, path) == Ok(f)
    ensures Truthy(Get(sfs, "outer")) && !Get(sfs, "outer").value.Str? ==>
      SummaryResult(ctx, f, a, sfs, path) == Err(OuterNotString)
  {
  }

  /**
   * With a string `outer` the summary element is replaced by outer's nodes.
   * Each text node of outer that contains `{{inner}}` has become, as a
   * whole, an `<inner>` element whose children are the summary element's
   * children populated with `inner` at `path.inner`; every other text node
   * of outer is kept.  Without an object `inner`, or without such a text
   * node, outer's nodes are spliced in as they are.
   */
  lemma SummaryReplacesElement(ctx: Ctx, f: seq<Node>, a: Address, sfs: seq<Field>, path: string, b: Address)
    requires ValidAddr(f, a) && At(f, a).Element?
    requires Get(sfs, "outer").Some? && Get(sfs, "outer").value.Str? && Get(sfs, "outer").value.s != ""
    requires ValidAddr(ctx.codec.parse(ReplacePlaceholders(ctx.contents, Get(sfs, "outer").value.s, path)), b)
    ensures var outerKids := ctx.codec.parse(ReplacePlaceholders(ctx.contents, Get(sfs, "outer").value.s, path));
            var inner := Get(sfs, "inner");
            var r := SummaryResult(ctx, f, a, sfs, path);
            var marked := MarkedTexts(Walk(outerKids), InnerMarker) != [];
            && (!(inner.Some? && inner.value.Obj? && marked) ==> r == Ok(Splice(f, a, outerKids)))
            && (inner.Some? && inner.value.Obj? && marked ==>
                 var copy := ctx.codec.parse(ctx.codec.serialize(At(f, a).kids));
                 var ik := PopulateFrom(ctx, copy, inner.value.fields, 0, path + ".inner");
                 (ik.Err? ==> r == Err(ik.error))
                 && (ik.Ok? ==>
                      exists g :: r == Ok(Splice(f, a, g)) && |g| == |outerKids| && ValidAddr(g, b)
                        && (At(outerKids, b).Text? && Contains(At(outerKids, b).text, InnerMarker) ==>
                              At(g, b) == Element("inner", [], ik.value))
                        && (At(outerKids, b).Text? && !Contains(At(outerKids, b).text, InnerMarker) ==>
                              At(g, b) == At(outerKids, b))))
  {
    var outerKids := ctx.codec.parse(ReplacePlaceholders(ctx.contents, Get(sfs, "outer").value.s, path));
    var inner := Get(sfs, "inner");
    if inner.Some? {
      var j := FindKey(sfs, "inner").value;
      assert inner.value == sfs[j].value;
      if inner.value.Obj? && MarkedTexts(Walk(outerKids), InnerMarker) != [] {
        var copy := ctx.codec.parse(ctx.codec.serialize(At(f, a).kids));
        var ik := PopulateFrom(ctx, copy, inner.value.fields, 0, path + ".inner");
        if ik.Ok? {
          var n := Element("inner", [], ik.value);
          MapTextAt(outerKids, InnerMarker, n, b);
          var g := MapText(outerKids, InnerMarker, n);
          assert SummaryResult(ctx, f, a, sfs, path) == Ok(Splice(f, a, g));
        }
      }
    }
  }

  // ---------------------------------------------------------------------
  // The run as the service performs it

  /**
   * The container's first child is moved in front of the element until the
   * container is empty, and the element is then removed: the element at `a`
   * is replaced by the container's nodes, in their order.
   */
  method MoveChildrenBefore(f: seq<Node>, a: Address, container: seq<Node>) returns (g: seq<Node>)
    requires ValidAddr(f, a)
    ensures g == Splice(f, a, container)
  {
    var element := At(f, a);
    var rest := container;
    ghost var moved: seq<Node> := [];
    var pos := a;
    g := f;
    SpliceSelf(f, a);
    assert Shift(a, 0) == a;
    assert moved + [element] == [element];
    while rest != []
      invariant moved + rest == container
      invariant pos == Shift(a, |moved|)
      invariant g == Splice(f, a, moved + [element])
      decreases |rest|
    {
      var first := rest[0];
      SpliceShift(f, a, moved, element, [first, element]);
      g := Splice(g, pos, [first, element]);
      assert moved + [first, element] == (moved + [first]) + [element];
      ShiftOnce(a, |moved|);
      moved := moved + [first];
      rest := rest[1..];
      pos := Shift(pos, 1);
    }
    SpliceShift(f, a, moved, element, []);
    g := Splice(g, pos, []);
    assert moved + [] == container;
  }

  /** The tree walker's pass: the addresses of the text nodes whose value contains `{{inner}}`. */
  method CollectMarkedTexts(container: seq<Node>) returns (textNodes: seq<Address>)
    ensures textNodes == MarkedTexts(Walk(container), InnerMarker)
  {
    var walked := Walk(container);
    textNodes := [];
    var k := 0;
    while k < |walked|
      invariant 0 <= k <= |walked|
      invariant textNodes == MarkedTexts(walked[..k], InnerMarker)
    {
      var node := walked[k];
      MarkedTextsAppend(walked[..k], [node], InnerMarker);
      assert walked[..k + 1] == walked[..k] + [node];
      assert node.text == "" ==> !Contains(node.text, InnerMarker);
      if node.text != "" && Contains(node.text, InnerMarker) {
        textNodes := textNodes + [node.addr];
      }
      k := k + 1;
    }
    assert walked[..k] == walked;
  }

  /**
   * The state one `populateHTMLFromJSON` call shares between its closures:
   * the codec standing for the JSDOM document, and `originalContents`.
   * An element is named by its address in the forest a method works on.
   */
  class PopulationRun {
    const codec: HtmlCodec
    var originalContents: map<string, string>

    constructor(codec: HtmlCodec)
      ensures this.codec == codec && originalContents == map[]
    {
      this.codec := codec;
      originalContents := map[];
    }

    /** What the reference definitions read of this run. */
    function Context(): Ctx
      reads this
    {
      Ctx(codec, originalContents)
    }

    /** `collectOriginalContents(element, prefix)`, over the element children of `element`. */
    method CollectOriginalContents(element: seq<Node>, prefix: string)
      modifies this
      ensures originalContents == ApplyWrites(old(originalContents), WritesFrom(codec, element, prefix, 0))
      decreases element
    {
      var i := 0;
      while i < |element|
        invariant i <= |element|
        invariant ApplyWrites(originalContents, WritesFrom(codec, element, prefix, i))
               == ApplyWrites(old(originalContents), WritesFrom(codec, element, prefix, 0))
      {
        var child := element[i];
        if child.Element? {
          var tagName := Lower(child.tag);
          var fullPath := JoinPath(prefix, tagName);
          var inner := codec.serialize(child.kids);
          var own := [Write(fullPath, inner), Write(tagName, inner)];
          var nested := if HasElementChild(child.kids) then WritesFrom(codec, child.kids, fullPath, 0) else [];
          var rest := WritesFrom(codec, element, prefix, i + 1);
          assert WritesFrom(codec, element, prefix, i) == own + nested + rest;
          ApplyWritesAppend(originalContents, own + nested, rest);
          ApplyWritesAppend(originalContents, own, nested);
          assert own[1..] == [Write(tagName, inner)] && [Write(tagName, inner)][1..] == [];
          assert ApplyWrites(originalContents, own)
              == ApplyWrites(originalContents[fullPath := inner], [Write(tagName, inner)]);
          assert ApplyWrites(originalContents[fullPath := inner], [Write(tagName, inner)])
              == ApplyWrites(originalContents[fullPath := inner][tagName := inner], []);
          originalContents := originalContents[fullPath := inner];
          originalContents := originalContents[tagName := inner];
          if HasElementChild(child.kids) {
            CollectOriginalContents(child.kids, fullPath);
          }
        }
        i := i + 1;
      }
    }

    /** `replaceElementWithContent`: the element at `a` gives way to the nodes of `content`. */
    method ReplaceElementWithContent(f: seq<Node>, a: Address, content: string) returns (g: seq<Node>)
      requires ValidAddr(f, a)
      ensures g == Splice(f, a, codec.parse(content))
    {
      var tempContainer := codec.parse(content);
      g := MoveChildrenBefore(f, a, tempContainer);
    }

    /** `populateElement(element, data, path)`: the keys of `data` in order, on the children of `element`. */
    method PopulateElement(element: seq<Node>, data: seq<Field>, path: string) returns (r: Result<seq<Node>, PopulateError>)
      ensures r == PopulateFrom(Context(), element, data, 0, path)
      decreases Obj(data), 2
    {
      var cur := element;
      var i := 0;
      while i < |data|
        invariant 0 <= i <= |data|
        invariant PopulateFrom(Context(), element, data, 0, path) == PopulateFrom(Context(), cur, data, i, path)
      {
        var key := data[i].key;
        var value := data[i].value;
        var currentPath := JoinPath(path, key);
        var targetElement := FindFirst(cur, key);
        if targetElement.Some? {
          var a := targetElement.value;
          match value {
            case Str(s) =>
              var processedValue := ReplacePlaceholders(originalContents, s, currentPath);
              cur := ReplaceElementWithContent(cur, a, processedValue);
            case Obj(fs) =>
              if key == "summary" {
                var res := HandleSummary(cur, a, fs, currentPath);
                if res.Err? {
                  return Err(res.error);
                }
                cur := res.value;
              } else {
                var res := PopulateElement(At(cur, a).kids, fs, currentPath);
                if res.Err? {
                  return Err(res.error);
                }
                cur := SetKids(cur, a, res.value);
              }
            case _ =>
          }
        }
        i := i + 1;
      }
      return Ok(cur);
    }

    /**
     * The `{{inner}}` stage of `handleSummary`: the walker lists the text
     * nodes containing the marker, and each in turn gives way to an
     * `<inner>` element holding the summary element's children, populated
     * with `innerData` at `path.inner`.
     */
    method FillInnerMarkers(outerContainer: seq<Node>, summaryKids: seq<Node>, innerData: seq<Field>, path: string)
      returns (r: Result<seq<Node>, PopulateError>)
      ensures var spec := PopulateFrom(Context(), codec.parse(codec.serialize(summaryKids)), innerData, 0, path + ".inner");
              && (MarkedTexts(Walk(outerContainer), InnerMarker) == [] ==> r == Ok(outerContainer))
              && (MarkedTexts(Walk(outerContainer), InnerMarker) != [] && spec.Err? ==> r == Err(spec.error))
              && (MarkedTexts(Walk(outerContainer), InnerMarker) != [] && spec.Ok? ==>
                    r == Ok(MapText(outerContainer, InnerMarker, Element("inner", [], spec.value))))
      decreases Obj(innerData), 5
    {
      var textNodes := CollectMarkedTexts(outerContainer);
      ghost var spec := PopulateFrom(Context(), codec.parse(codec.serialize(summaryKids)), innerData, 0, path + ".inner");
      ghost var target := Element("inner", [], if spec.Ok? then spec.value else []);
      ReplaceMarkedIsMapText(outerContainer, InnerMarker, target);
      ghost var mapped := MapText(outerContainer, InnerMarker, target);
      var container := outerContainer;
      var k := 0;
      while k < |textNodes|
        invariant 0 <= k <= |textNodes|
        invariant k > 0 ==> spec.Ok?
        invariant k == 0 ==> container == outerContainer
        invariant ReplaceEach(container, textNodes[k..], target) == mapped
      {
        if k == 0 {
          MarkedTextIsText(outerContainer, InnerMarker, 0);
        }
        ReplaceEachStep(container, textNodes, k, target);
        var replaced := ReplaceMarkedText(container, textNodes[k], summaryKids, innerData, path, target);
        if replaced.Err? {
          return Err(replaced.error);
        }
        container := replaced.value;
        k := k + 1;
      }
      if textNodes == [] {
        return Ok(outerContainer);
      }
      assert textNodes[k..] == [];
      return Ok(container);
    }

    /**
     * The body of the `textNodes.forEach` loop: a node still in place as a
     * text node is replaced (`ReplaceTextNode`); any other is passed over.
     * `target` stands for the `<inner>` element the population produces.
     */
    method ReplaceMarkedText(container: seq<Node>, t: Address, summaryKids: seq<Node>, innerData: seq<Field>, path: string,
                             ghost target: Node)
      returns (r: Result<seq<Node>, PopulateError>)
      requires var spec := PopulateFrom(Context(), codec.parse(codec.serialize(summaryKids)), innerData, 0, path + ".inner");
               spec.Ok? ==> target == Element("inner", [], spec.value)
      ensures var spec := PopulateFrom(Context(), codec.parse(codec.serialize(summaryKids)), innerData, 0, path + ".inner");
              && (r.Err? <==> ValidAddr(container, t) && At(container, t).Text? && spec.Err?)
              && (r.Err? ==> r.error == spec.error)
              && (r.Ok? ==> r.value == ReplaceTextAt(container, t, target))
      decreases Obj(innerData), 4
    {
      if ValidAddr(container, t) && At(container, t).Text? {
        r := ReplaceTextNode(container, t, summaryKids, innerData, path);
      } else {
        r := Ok(container);
      }
    }

    /**
     * One `textNodes.forEach` step: the text node at `t` is replaced by an
     * `inner-container` div, whose `<inner>` child receives a copy of the
     * summary element's children and is populated; the div is unwrapped.
     */
    method ReplaceTextNode(container: seq<Node>, t: Address, summaryKids: seq<Node>, innerData: seq<Field>, path: string)
      returns (r: Result<seq<Node>, PopulateError>)
      requires ValidAddr(container, t)
      ensures var spec := PopulateFrom(Context(), codec.parse(codec.serialize(summaryKids)), innerData, 0, path + ".inner");
              && (spec.Err? ==> r == Err(spec.error))
              && (spec.Ok? ==> r == Ok(Splice(container, t, [Element("inner", [], spec.value)])))
      decreases Obj(innerData), 3
    {
      var innerContainer := Element("div", [Attr("class", "inner-container")], []);
      var g := Splice(container, t, [innerContainer]);
      var populated := PopulateElement(codec.parse(codec.serialize(summaryKids)), innerData, path + ".inner");
      if populated.Err? {
        return Err(populated.error);
      }
      var innerElement := Element("inner", [], populated.value);
      SpliceTwice(container, t, innerContainer, []);
      g := SetKids(g, t, [innerElement]);
      var filled := Element("div", [Attr("class", "inner-container")], [innerElement]);
      SpliceTwice(container, t, innerContainer, [filled]);
      SpliceTwice(container, t, filled, [innerElement]);
      g := MoveChildrenBefore(g, t, [innerElement]);
      return Ok(g);
    }

    /** `handleSummary(summaryElement, summaryData, path)` for the element at `a`. */
    method HandleSummary(f: seq<Node>, a: Address, summaryData: seq<Field>, path: string)
      returns (r: Result<seq<Node>, PopulateError>)
      requires ValidAddr(f, a) && At(f, a).Element?
      ensures r == SummaryResult(Context(), f, a, summaryData, path)
      decreases Obj(summaryData), 1
    {
      var outer := Get(summaryData, "outer");
      if !Truthy(outer) {
        return Ok(f);
      }
      if !outer.value.Str? {
        return Err(OuterNotString);
      }
      var processedOuter := ReplacePlaceholders(originalContents, outer.value.s, path);
      var outerContainer := codec.parse(processedOuter);
      var innerIndex := FindKey(summaryData, "inner");
      if innerIndex.Some? && summaryData[innerIndex.value].value.Obj? {
        var innerData := summaryData[innerIndex.value].value.fields;
        var filled := FillInnerMarkers(outerContainer, At(f, a).kids, innerData, path);
        if filled.Err? {
          return Err(filled.error);
        }
        outerContainer := filled.value;
      }
      var g := MoveChildrenBefore(f, a, outerContainer);
      return Ok(g);
    }
  }

  /** `populateHTMLFromJSON(htmlTemplate, jsonData, templateId)`. */
  method PopulateHTMLFromJSON(codec: HtmlCodec, htmlTemplate: string, jsonData: Option<seq<Field>>, templateId: Option<string>)
    returns (r: Result<string, PopulateError>)
    ensures r == PopulateHtml(codec, htmlTemplate, jsonData, templateId)
  {
    var finalJsonData: Option<seq<Field>>;
    if TruthyId(templateId) {
      var template := TemplateById(templateId.value);
      if template.Err? {
        return Err(template.error);
      }
      finalJsonData := EntryData(template.value);
    } else if jsonData.Some? {
      finalJsonData := jsonData;
    } else {
      return Err(MissingInput);
    }
    var preprocessedJsonData := if finalJsonData.Some? then PreprocessJsonData(finalJsonData.value) else [];
    var tempDiv := codec.parse(htmlTemplate);
    var run := new PopulationRun(codec);
    run.CollectOriginalContents(tempDiv, "");
    var populated := run.PopulateElement(tempDiv, preprocessedJsonData, "");
    if populated.Err? {
      return Err(populated.error);
    }
    return Ok(codec.serialize(populated.value));
  }
}
