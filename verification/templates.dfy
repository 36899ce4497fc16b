/**
 * The registry of preset templates: a fixed table from template id to a
 * configuration whose `data` is the object the template engine populates.
 * It holds one entry, the blue theme.
 */
module Templates {
  import opened Wrappers
  import opened Strings
  import opened JsonData

  datatype TemplateConfig = TemplateConfig(id: string, name: string, description: string, data: seq<Field>)

  /** The placeholder `{{k}}` that the engine fills for key `k`. */
  function Placeholder(k: string): (p: string)
    ensures |p| == |k| + 4 && p[..2] == "{{" && p[2..|k| + 2] == k && p[|k| + 2..] == "}}"
  {
    "{{" + k + "}}"
  }

  /** Different keys have different placeholders. */
  lemma PlaceholderInjective(a: string, b: string)
    requires Placeholder(a) == Placeholder(b)
    ensures a == b
  {
    var p := Placeholder(a);
    assert a == p[2..|a| + 2];
  }

  // ---------------------------------------------------------------------
  // The blue theme.  Each HTML fragment is the text before its
  // placeholder, the placeholder, and the text after it.

  /** `article_title`: the text around `{{article_title}}`. */
  const ArticleTitleHead: string :=
    "<h1 style=\"text-align: center; font-size: 22px; color: rgba(0, 0, 0, 0.9); margin: 20px"
    + " 0; line-height: 1.4;\">"
  const ArticleTitleTail: string :=
    "</h1>"
  const ArticleTitleHtml: string := ArticleTitleHead + Placeholder("article_title") + ArticleTitleTail

  /** `subtitle`: the text around `{{subtitle}}`. */
  const SubtitleHead: string :=
    "<div style=\"margin: 20px 0; box-sizing: border-box; font-style: normal; font-weight: 40"
    + "0; text-align: justify; font-size: 16px; color: rgb(62, 62, 62);\"><div style=\"text-ali"
    + "gn: center; justify-content: center; display: flex; flex-flow: row; margin: 0px 0px 10px"
    + "; box-sizing: border-box;\"><div style=\"display: inline-block; vertical-align: middle; "
    + "width: auto; flex: 0 0 0%; height: auto; align-self: center; padding: 0px 5px 0px 0px; l"
    + "ine-height: 0; box-sizing: border-box;\"><div style=\"text-align: right; margin: 0px; bo"
    + "x-sizing: border-box;\"><div style=\"display: inline-block; width: 5px; height: 20px; ve"
    + "rtical-align: top; overflow: hidden; border-radius: 10px; background-color: rgb(222, 239"
    + ", 255); box-sizing: border-box;\"></div></div></div><div style=\"display: inline-block; "
    + "vertical-align: middle; width: auto; flex: 0 0 0%; height: auto; align-self: center; pad"
    + "ding: 0px 5px 0px 0px; line-height: 0; box-sizing: border-box;\"><div style=\"text-align"
    + ": right; margin: 0px; box-sizing: border-box;\"><div style=\"display: inline-block; widt"
    + "h: 5px; height: 30px; vertical-align: top; overflow: hidden; border-radius: 10px; backgr"
    + "ound-color: rgb(222, 239, 255); box-sizing: border-box;\"></div></div></div><div style="
    + "\"display: inline-block; vertical-align: middle; width: auto; align-self: center; flex: "
    + "0 0 auto; background-image: linear-gradient(140deg, rgb(50, 151, 248) 0%, rgb(28, 96, 24"
    + "8) 34%, rgb(30, 101, 248) 66%, rgb(50, 151, 248) 100%); border-style: solid; border-widt"
    + "h: 2px; border-color: rgb(255, 255, 255); border-radius: 10px; overflow: hidden; box-sha"
    + "dow: rgb(189, 189, 189) 0px 0px 3px 0px, rgb(54, 243, 241) 2px 2px 5px 0px inset, rgb(8,"
    + " 63, 186) -2px -2px 5px 0px inset; padding: 10px 20px; min-width: 5%; max-width: 100%; h"
    + "eight: auto; z-index: 1; box-sizing: border-box;\"><div style=\"text-align: justify; let"
    + "ter-spacing: 2px; box-sizing: border-box; color: rgb(255, 255, 255); font-size: 16px; fo"
    + "nt-weight: bold;\"><p style=\"white-space: normal;margin: 0px;padding: 0px;box-sizing: b"
    + "order-box;\"><strong style=\"box-sizing: border-box;\"><span>"
  const SubtitleTail: string :=
    "</span></strong></p></div></div><div style=\"display: inline-block; vertical-align: midd"
    + "le; width: auto; flex: 0 0 0%; height: auto; align-self: center; padding: 0px; z-index: "
    + "auto; line-height: 0; box-sizing: border-box;\"><div style=\"text-align: left; margin: 0"
    + "px; box-sizing: border-box;\"><div style=\"display: inline-block; width: 5px; height: 30"
    + "px; vertical-align: top; overflow: hidden; border-radius: 10px; background-color: rgb(22"
    + "2, 239, 255); box-sizing: border-box;\"></div></div></div><div style=\"display: inline-b"
    + "lock; vertical-align: middle; width: auto; flex: 0 0 0%; height: auto; align-self: cente"
    + "r; padding: 0px; z-index: auto; line-height: 0; box-sizing: border-box;\"><div style=\"t"
    + "ext-align: left; margin: 0px; box-sizing: border-box;\"><div style=\"display: inline-blo"
    + "ck; width: 5px; height: 20px; vertical-align: top; overflow: hidden; border-radius: 10px"
    + "; background-color: rgb(222, 239, 255); box-sizing: border-box;\"></div></div></div></di"
    + "v></div>"
  const SubtitleHtml: string := SubtitleHead + Placeholder("subtitle") + SubtitleTail

  /**
   * `summary.outer`: the text before `{{inner}}` comes in parts small
   * enough for the verifier to read character by character.
   */
  const SummaryOuterPart0: string :=
    "<div style=\"margin: 20px "
    + "0; box-sizing: border-box"
    + "; font-style: normal; fon"
    + "t-weight: 400; text-align"
    + ": justify; color: rgb(62,"
    + " 62, 62);\">\n   <div style"
  const SummaryOuterPart1: string :=
    "=\"text-align: center; jus"
    + "tify-content: center; dis"
    + "play: flex; flex-flow: ro"
    + "w; margin: 10px 0px; box-"
    + "sizing: border-box;\">\n   "
    + " <div style=\"display: inl"
  const SummaryOuterPart2: string :=
    "ine-block; width: 99%; ve"
    + "rtical-align: top; align-"
    + "self: flex-start; flex: 0"
    + " 0 auto; border-top: 1px "
    + "solid rgb(41, 155, 253); "
    + "border-bottom-left-radius"
  const SummaryOuterPart3: string :=
    ": 10px; border-bottom-rig"
    + "ht-radius: 10px; box-shad"
    + "ow: rgb(191, 220, 255) 0p"
    + "x 5px 0px; padding: 20px "
    + "20px; height: auto; overf"
    + "low: hidden; box-sizing: "
  const SummaryOuterPart4: string :=
    "border-box; max-width: 99"
    + "% !important;\">\n     "
  const SummaryOuterHead: string :=
    SummaryOuterPart0 + SummaryOuterPart1 + SummaryOuterPart2 + SummaryOuterPart3 + SummaryOuterPart4
  const SummaryOuterTail: string := "\n    </div>\n   </div>\n  </div>"
  const SummaryOuterHtml: string := SummaryOuterHead + Placeholder("inner") + SummaryOuterTail

  /** `summary.inner.title`: the text around `{{title}}`. */
  const SummaryTitleHead: string :=
    "<div style=\"text-align: left; justify-content: flex-start; display: flex; flex-flow: ro"
    + "w; margin: 0px 0px 20px; box-sizing: border-box;\">\n      <div style=\"display: inline-"
    + "block; vertical-align: top; width: auto; align-self: flex-start; flex: 0 0 0%; height: a"
    + "uto; line-height: 0; background-color: #4862ff; box-sizing: border-box;\">\n       <div "
    + "style=\"text-align: center; box-sizing: border-box;\">\n        <div style=\"display: in"
    + "line-block; width: 12px; height: 12px; vertical-align: top; overflow: hidden; background"
    + "-color: #ffffff; border-top-right-radius: 50px; box-sizing: border-box;\"></div>\n      "
    + " </div>\n      </div>\n      <div style=\"display: inline-block; vertical-align: top; wi"
    + "dth: auto; align-self: flex-start; flex: 0 0 auto; background-image: linear-gradient(162"
    + "deg, #4862ff 0%, #0ecafc 100%); min-width: 5%; max-width: 100%; height: auto; padding: 5"
    + "px 20px; border-bottom-left-radius: 10px; border-bottom-right-radius: 10px; overflow: hi"
    + "dden; box-sizing: border-box;\">\n       <div style=\"color: #ffffff; font-size: 16px; l"
    + "etter-spacing: 2px; line-height: 1.6; box-sizing: border-box;\">\n        <p style=\"mar"
    + "gin: 0px;padding: 0px;box-sizing: border-box;\"><strong style=\"box-sizing: border-box;"
    + "\"><span>"
  const SummaryTitleTail: string :=
    "</span></strong></p>\n       </div>\n      </div>\n      <div style=\"display: inline-bl"
    + "ock; vertical-align: top; width: auto; align-self: flex-start; flex: 0 0 0%; height: aut"
    + "o; line-height: 0; background-color: #299bfd; box-sizing: border-box;\">\n       <div st"
    + "yle=\"text-align: center; box-sizing: border-box;\">\n        <div style=\"display: inli"
    + "ne-block; width: 12px; height: 12px; vertical-align: top; overflow: hidden; background-c"
    + "olor: #ffffff; border-top-left-radius: 50px; box-sizing: border-box;\"></div>\n       </"
    + "div>\n      </div>\n     </div>"
  const SummaryTitleHtml: string := SummaryTitleHead + Placeholder("title") + SummaryTitleTail

  /** `summary.inner.content`: the text around `{{content}}`. */
  const SummaryContentHead: string :=
    "<div style=\"text-align: justify; font-size: 16px; line-height: 1.75; box-sizing: border"
    + "-box;\">\n      <p style=\"white-space: normal;margin: 0px;padding: 0px;box-sizing: bord"
    + "er-box;\"><span>"
  const SummaryContentTail: string :=
    "</span></p>\n     </div>"
  const SummaryContentHtml: string := SummaryContentHead + Placeholder("content") + SummaryContentTail

  /** `main_subject`: the text around `{{main_subject}}`. */
  const MainSubjectHead: string :=
    "<strong><span>"
  const MainSubjectTail: string :=
    "</span></strong>"
  const MainSubjectHtml: string := MainSubjectHead + Placeholder("main_subject") + MainSubjectTail

  /** `highlight_content`: the text around `{{highlight_content}}`. */
  const HighlightContentHead: string :=
    "<span style=\"color: rgb(0, 112, 192); font-weight: bold;\"><strong><span>"
  const HighlightContentTail: string :=
    "</span></strong></span>"
  const HighlightContentHtml: string := HighlightContentHead + Placeholder("highlight_content") + HighlightContentTail

  /** `content_points.title`: the text around `{{title}}`. */
  const ContentPointsTitleHead: string :=
    "<div style=\"margin: 10px 0%; display: flex; flex-flow: row; text-align: left; justify-c"
    + "ontent: flex-start; box-sizing: border-box;\"><div style=\"display: inline-block; vertic"
    + "al-align: bottom; width: auto; min-width: 10%; max-width: 100%; flex: 0 0 auto; height: "
    + "auto; border-top-left-radius: 50px; border-bottom-left-radius: 50px; border-top-right-ra"
    + "dius: 8px; overflow: hidden; align-self: flex-end; z-index: 2; margin: 0px; box-shadow: "
    + "rgb(0, 0, 0) 0px 0px 0px; background-image: linear-gradient(162deg, rgb(72, 98, 255) 0%,"
    + " rgb(14, 202, 252) 100%); padding: 4px 10px; box-sizing: border-box;\"><div style=\"just"
    + "ify-content: flex-start; display: flex; flex-flow: row; box-sizing: border-box;\"><div s"
    + "tyle=\"display: inline-block; vertical-align: middle; width: auto; align-self: center; f"
    + "lex: 0 0 auto; min-width: 5%; max-width: 100%; height: auto; box-sizing: border-box;\"><"
    + "div style=\"text-align: center; margin: 0px; box-sizing: border-box;\"><div style=\"disp"
    + "lay: inline-block; width: 25px; height: 25px; vertical-align: top; overflow: hidden; bor"
    + "der-radius: 100%; background-color: rgb(255, 255, 255); box-sizing: border-box;\"></div>"
    + "</div></div><div style=\"display: inline-block; vertical-align: middle; width: auto; ali"
    + "gn-self: center; flex: 0 0 auto; min-width: 5%; max-width: 100%; height: auto; padding: "
    + "0px 0px 0px 10px; box-sizing: border-box;\"><div style=\"margin: 0px; box-sizing: border"
    + "-box; font-size: 16px; color: rgb(255, 255, 255); font-weight: bold;\"><p style=\"margin"
    + ": 0px;padding: 0px;box-sizing: border-box;\"><strong style=\"box-sizing: border-box;\"><"
    + "span>NO.n</span></strong></p></div></div></div></div><div style=\"display: inline-block;"
    + " vertical-align: bottom; width: auto; min-width: 10%; max-width: 100%; flex: 0 0 auto; h"
    + "eight: auto; align-self: flex-end; z-index: auto; margin: 0px; line-height: 2; letter-sp"
    + "acing: 0px; background-color: rgb(255, 255, 255); border-top-right-radius: 50px; overflo"
    + "w: hidden; border-bottom-right-radius: 50px; box-shadow: rgb(191, 220, 255) 0px 0px 5px "
    + "0px; padding: 0px 15px 0px 0px; box-sizing: border-box;\"><div style=\"display: flex; fl"
    + "ex-flow: row; text-align: justify; justify-content: flex-start; box-sizing: border-box;"
    + "\"><div style=\"display: inline-block; vertical-align: bottom; width: auto; align-self: "
    + "flex-end; flex: 0 0 0%; height: auto; line-height: 0; background-color: rgb(14, 202, 252"
    + "); box-sizing: border-box;\"><div style=\"text-align: center; box-sizing: border-box;\">"
    + "<div style=\"display: inline-block; width: 12px; height: 12px; vertical-align: top; over"
    + "flow: hidden; background-color: rgb(255, 255, 255); border-bottom-left-radius: 50px; box"
    + "-sizing: border-box;\"></div></div></div><div style=\"display: inline-block; vertical-al"
    + "ign: bottom; width: auto; align-self: flex-end; flex: 0 0 auto; min-width: 10%; max-widt"
    + "h: 100%; height: auto; box-sizing: border-box;\"><div style=\"margin: 5px 0px; box-sizin"
    + "g: border-box;\"><div style=\"color: rgb(63, 143, 239); letter-spacing: 2px; line-height"
    + ": 1.6; box-sizing: border-box; font-size: 16px; font-weight: bold;\"><p style=\"margin: "
    + "0px;padding: 0px;box-sizing: border-box;\"><strong style=\"box-sizing: border-box;\"><sp"
    + "an>"
  const ContentPointsTitleTail: string :=
    "</span></strong></p></div></div></div></div></div></div>"
  const ContentPointsTitleHtml: string := ContentPointsTitleHead + Placeholder("title") + ContentPointsTitleTail

  /** `content_points.content`: the text around `{{content}}`. */
  const ContentPointsContentHead: string :=
    "<div style=\"margin-bottom: 20px; text-align: justify;\"><p>"
  const ContentPointsContentTail: string :=
    "</p></div>"
  const ContentPointsContentHtml: string := ContentPointsContentHead + Placeholder("content") + ContentPointsContentTail

  const SummaryInnerFields: seq<Field> := [
    Field("title", Str(SummaryTitleHtml)),
    Field("content", Str(SummaryContentHtml))]

  const SummaryFields: seq<Field> := [
    Field("outer", Str(SummaryOuterHtml)),
    Field("inner", Obj(SummaryInnerFields))]

  const ContentPointsFields: seq<Field> := [
    Field("title", Str(ContentPointsTitleHtml)),
    Field("content", Str(ContentPointsContentHtml))]

  const BlueThemeData: seq<Field> := [
    Field("article_title", Str(ArticleTitleHtml)),
    Field("subtitle", Str(SubtitleHtml)),
    Field("summary", Obj(SummaryFields)),
    Field("main_subject", Str(MainSubjectHtml)),
    Field("highlight_content", Str(HighlightContentHtml)),
    Field("content_points", Obj(ContentPointsFields))]

  const BlueTheme: TemplateConfig :=
    TemplateConfig("blue-theme", "蓝色主题", "现代化蓝色渐变主题，适用于公众号文章排版", BlueThemeData)

  // ---------------------------------------------------------------------
  // The registry

  /** Every template, keyed by its id. */
  const Registry: map<string, TemplateConfig> := map[BlueTheme.id := BlueTheme]

  /** `getAllTemplates`: the registry's values. */
  function GetAllTemplates(): (r: seq<TemplateConfig>)
    ensures |r| == |Registry|
    ensures forall t :: t in r <==> t in Registry.Values
  {
    assert Registry.Values == {BlueTheme} by {
      assert Registry[BlueTheme.id] == BlueTheme;
    }
    [BlueTheme]
  }

  /**
   * The properties every object inherits from `Object.prototype`. The
   * registry is a plain object literal, so reading one of these names from
   * it yields a function (for `__proto__`, the prototype object itself): a
   * truthy value that is not a configuration.
   */
  const InheritedNames: set<string> := {
    "constructor", "hasOwnProperty", "isPrototypeOf", "propertyIsEnumerable",
    "toLocaleString", "toString", "valueOf", "__proto__",
    "__defineGetter__", "__defineSetter__", "__lookupGetter__", "__lookupSetter__"
  }

  /** A truthy value read from the registry. */
  datatype Entry =
    | Preset(config: TemplateConfig)   // a registered configuration
    | Inherited(name: string)          // a member of `Object.prototype`

  /** The entry's `data` property: `None` stands for `undefined`. */
  function EntryData(e: Entry): Option<seq<Field>> {
    match e
    case Preset(c) => Some(c.data)
    case Inherited(_) => None
  }

  /**
   * `getTemplateById`: `TEMPLATE_REGISTRY[id] || null`. A registered id
   * finds its configuration; an inherited property name finds that
   * property; anything else finds nothing.
   */
  function GetTemplateById(id: string): (r: Option<Entry>)
    ensures r.Some? <==> id in Registry || id in InheritedNames
    ensures id in Registry ==> r == Some(Preset(Registry[id])) && Registry[id].id == id
    ensures id !in Registry && id in InheritedNames ==> r == Some(Inherited(id))
  {
    if id in Registry then Some(Preset(Registry[id]))
    else if id in InheritedNames then Some(Inherited(id))
    else None
  }

  /** Every entry is stored under its own id. */
  lemma RegistryKeyedById()
    ensures forall k :: k in Registry ==> Registry[k].id == k
  {
  }

  lemma BlueThemeLookup()
    ensures GetTemplateById("blue-theme") == Some(Preset(BlueTheme))
  {
  }

  /** An inherited name finds no configuration: its `data` is `undefined`. */
  lemma InheritedIdHasNoData(id: string)
    requires id in InheritedNames
    ensures GetTemplateById(id).Some? && EntryData(GetTemplateById(id).value).None?
  {
  }

  lemma UnknownIdIsNone(id: string)
    requires id != "blue-theme" && id !in InheritedNames
    ensures GetTemplateById(id).None?
  {
  }

  // ---------------------------------------------------------------------
  // The shape of the blue-theme data

  /** A string leaf that holds the placeholder for its own key. */
  predicate NamesItself(f: Field) {
    f.value.Str? && Contains(f.value.s, Placeholder(f.key))
  }

  lemma LeafNamesItself(head: string, k: string, tail: string)
    ensures NamesItself(Field(k, Str(head + Placeholder(k) + tail)))
  {
    ContainsMiddle(head, Placeholder(k), tail);
  }

  lemma ArticleTitleNamesItself()
    ensures NamesItself(BlueThemeData[0])
  {
    LeafNamesItself(ArticleTitleHead, "article_title", ArticleTitleTail);
  }

  lemma SubtitleNamesItself()
    ensures NamesItself(BlueThemeData[1])
  {
    LeafNamesItself(SubtitleHead, "subtitle", SubtitleTail);
  }

  lemma SummaryTitleNamesItself()
    ensures NamesItself(SummaryInnerFields[0])
  {
    LeafNamesItself(SummaryTitleHead, "title", SummaryTitleTail);
  }

  lemma SummaryContentNamesItself()
    ensures NamesItself(SummaryInnerFields[1])
  {
    LeafNamesItself(SummaryContentHead, "content", SummaryContentTail);
  }

  lemma MainSubjectNamesItself()
    ensures NamesItself(BlueThemeData[3])
  {
    LeafNamesItself(MainSubjectHead, "main_subject", MainSubjectTail);
  }

  lemma HighlightContentNamesItself()
    ensures NamesItself(BlueThemeData[4])
  {
    LeafNamesItself(HighlightContentHead, "highlight_content", HighlightContentTail);
  }

  lemma ContentPointsTitleNamesItself()
    ensures NamesItself(ContentPointsFields[0])
  {
    LeafNamesItself(ContentPointsTitleHead, "title", ContentPointsTitleTail);
  }

  lemma ContentPointsContentNamesItself()
    ensures NamesItself(ContentPointsFields[1])
  {
    LeafNamesItself(ContentPointsContentHead, "content", ContentPointsContentTail);
  }

  /**
   * The data has six keys; `summary` is an object holding `outer` and an
   * `inner` object, and `content_points` is an object.
   */
  lemma BlueThemeDataShape()
    ensures Keys(BlueThemeData)
         == ["article_title", "subtitle", "summary", "main_subject", "highlight_content", "content_points"]
    ensures Get(BlueThemeData, "summary") == Some(Obj(SummaryFields))
    ensures Keys(SummaryFields) == ["outer", "inner"]
    ensures Get(SummaryFields, "outer") == Some(Str(SummaryOuterHtml))
    ensures Get(SummaryFields, "inner") == Some(Obj(SummaryInnerFields))
    ensures Get(BlueThemeData, "content_points") == Some(Obj(ContentPointsFields))
  {
    GetFirst(BlueThemeData, 2);
    GetFirst(BlueThemeData, 5);
    GetFirst(SummaryFields, 0);
    GetFirst(SummaryFields, 1);
  }

  /** Every top-level string leaf holds the placeholder for its own key. */
  lemma TopLeavesNameThemselves()
    ensures forall k :: 0 <= k < |BlueThemeData| && BlueThemeData[k].value.Str? ==> NamesItself(BlueThemeData[k])
  {
    forall k | 0 <= k < |BlueThemeData| && BlueThemeData[k].value.Str?
      ensures NamesItself(BlueThemeData[k])
    {
      if k == 0 { ArticleTitleNamesItself(); }
      else if k == 1 { SubtitleNamesItself(); }
      else if k == 3 { MainSubjectNamesItself(); }
      else { HighlightContentNamesItself(); }
    }
  }

  /** Both leaves of `summary.inner` hold the placeholder for their own key. */
  lemma SummaryInnerLeavesNameThemselves()
    ensures forall k :: 0 <= k < |SummaryInnerFields| ==> NamesItself(SummaryInnerFields[k])
  {
    forall k | 0 <= k < |SummaryInnerFields| ensures NamesItself(SummaryInnerFields[k]) {
      if k == 0 { SummaryTitleNamesItself(); } else { SummaryContentNamesItself(); }
    }
  }

  /** Both leaves of `content_points` hold the placeholder for their own key. */
  lemma ContentPointsLeavesNameThemselves()
    ensures forall k :: 0 <= k < |ContentPointsFields| ==> NamesItself(ContentPointsFields[k])
  {
    forall k | 0 <= k < |ContentPointsFields| ensures NamesItself(ContentPointsFields[k]) {
      if k == 0 { ContentPointsTitleNamesItself(); } else { ContentPointsContentNamesItself(); }
    }
  }

  predicate NoBrace(s: string) {
    forall i :: 0 <= i < |s| ==> s[i] != '{'
  }

  lemma NoBraceAppend(a: string, b: string)
    requires NoBrace(a) && NoBrace(b)
    ensures NoBrace(a + b)
  {
  }

  lemma SummaryOuterPart0NoBrace()
    ensures NoBrace(SummaryOuterPart0)
  {
    var acc := "<div style=\"margin: 20px ";
    assert NoBrace(acc);
    assert NoBrace("0; box-sizing: border-box");
    NoBraceAppend(acc, "0; box-sizing: border-box");
    acc := acc + "0; box-sizing: border-box";
    assert NoBrace("; font-style: normal; fon");
    NoBraceAppend(acc, "; font-style: normal; fon");
    acc := acc + "; font-style: normal; fon";
    assert NoBrace("t-weight: 400; text-align");
    NoBraceAppend(acc, "t-weight: 400; text-align");
    acc := acc + "t-weight: 400; text-align";
    assert NoBrace(": justify; color: rgb(62,");
    NoBraceAppend(acc, ": justify; color: rgb(62,");
    acc := acc + ": justify; color: rgb(62,";
    assert NoBrace(" 62, 62);\">\n   <div style");
    NoBraceAppend(acc, " 62, 62);\">\n   <div style");
    acc := acc + " 62, 62);\">\n   <div style";
  }

  lemma SummaryOuterPart1NoBrace()
    ensures NoBrace(SummaryOuterPart1)
  {
    var acc := "=\"text-align: center; jus";
    assert NoBrace(acc);
    assert NoBrace("tify-content: center; dis");
    NoBraceAppend(acc, "tify-content: center; dis");
    acc := acc + "tify-content: center; dis";
    assert NoBrace("play: flex; flex-flow: ro");
    NoBraceAppend(acc, "play: flex; flex-flow: ro");
    acc := acc + "play: flex; flex-flow: ro";
    assert NoBrace("w; margin: 10px 0px; box-");
    NoBraceAppend(acc, "w; margin: 10px 0px; box-");
    acc := acc + "w; margin: 10px 0px; box-";
    assert NoBrace("sizing: border-box;\">\n   ");
    NoBraceAppend(acc, "sizing: border-box;\">\n   ");
    acc := acc + "sizing: border-box;\">\n   ";
    assert NoBrace(" <div style=\"display: inl");
    NoBraceAppend(acc, " <div style=\"display: inl");
    acc := acc + " <div style=\"display: inl";
  }

  lemma SummaryOuterPart2NoBrace()
    ensures NoBrace(SummaryOuterPart2)
  {
    var acc := "ine-block; width: 99%; ve";
    assert NoBrace(acc);
    assert NoBrace("rtical-align: top; align-");
    NoBraceAppend(acc, "rtical-align: top; align-");
    acc := acc + "rtical-align: top; align-";
    assert NoBrace("self: flex-start; flex: 0");
    NoBraceAppend(acc, "self: flex-start; flex: 0");
    acc := acc + "self: flex-start; flex: 0";
    assert NoBrace(" 0 auto; border-top: 1px ");
    NoBraceAppend(acc, " 0 auto; border-top: 1px ");
    acc := acc + " 0 auto; border-top: 1px ";
    assert NoBrace("solid rgb(41, 155, 253); ");
    NoBraceAppend(acc, "solid rgb(41, 155, 253); ");
    acc := acc + "solid rgb(41, 155, 253); ";
    assert NoBrace("border-bottom-left-radius");
    NoBraceAppend(acc, "border-bottom-left-radius");
    acc := acc + "border-bottom-left-radius";
  }

  lemma SummaryOuterPart3NoBrace()
    ensures NoBrace(SummaryOuterPart3)
  {
    var acc := ": 10px; border-bottom-rig";
    assert NoBrace(acc);
    assert NoBrace("ht-radius: 10px; box-shad");
    NoBraceAppend(acc, "ht-radius: 10px; box-shad");
    acc := acc + "ht-radius: 10px; box-shad";
    assert NoBrace("ow: rgb(191, 220, 255) 0p");
    NoBraceAppend(acc, "ow: rgb(191, 220, 255) 0p");
    acc := acc + "ow: rgb(191, 220, 255) 0p";
    assert NoBrace("x 5px 0px; padding: 20px ");
    NoBraceAppend(acc, "x 5px 0px; padding: 20px ");
    acc := acc + "x 5px 0px; padding: 20px ";
    assert NoBrace("20px; height: auto; overf");
    NoBraceAppend(acc, "20px; height: auto; overf");
    acc := acc + "20px; height: auto; overf";
    assert NoBrace("low: hidden; box-sizing: ");
    NoBraceAppend(acc, "low: hidden; box-sizing: ");
    acc := acc + "low: hidden; box-sizing: ";
  }

  lemma SummaryOuterPart4NoBrace()
    ensures NoBrace(SummaryOuterPart4)
  {
    var acc := "border-box; max-width: 99";
    assert NoBrace(acc);
    assert NoBrace("% !important;\">\n     ");
    NoBraceAppend(acc, "% !important;\">\n     ");
    acc := acc + "% !important;\">\n     ";
  }

  lemma SummaryOuterHeadNoBrace()
    ensures NoBrace(SummaryOuterHead)
  {
    SummaryOuterPart0NoBrace();
    var acc := SummaryOuterPart0;
    SummaryOuterPart1NoBrace();
    NoBraceAppend(acc, SummaryOuterPart1);
    acc := acc + SummaryOuterPart1;
    SummaryOuterPart2NoBrace();
    NoBraceAppend(acc, SummaryOuterPart2);
    acc := acc + SummaryOuterPart2;
    SummaryOuterPart3NoBrace();
    NoBraceAppend(acc, SummaryOuterPart3);
    acc := acc + SummaryOuterPart3;
    SummaryOuterPart4NoBrace();
    NoBraceAppend(acc, SummaryOuterPart4);
    acc := acc + SummaryOuterPart4;
  }

  /** Around a lone `{{inner}}`, text without braces holds no other placeholder. */
  lemma {:induction false} LoneInner(a: string, b: string)
    requires NoBrace(a) && NoBrace(b)
    ensures forall i :: OccursAt(a + "{{inner}}" + b, "{{inner}}", i) <==> i == |a|
    ensures !Contains(a + "{{inner}}" + b, "{{summary}}")
  {
    var s := a + "{{inner}}" + b;
    assert forall k :: 0 <= k < |s| && s[k] == '{' ==> k == |a| || k == |a| + 1 by {
      forall k | 0 <= k < |s| ensures s[k] == '{' ==> k == |a| || k == |a| + 1 {
        if k < |a| {
          assert s[k] == a[k];
        } else if k >= |a| + 9 {
          assert s[k] == b[k - |a| - 9];
        } else {
          assert s[k] == "{{inner}}"[k - |a|];
        }
      }
    }
    ContainsMiddle(a, "{{inner}}", b);
    assert s[|a|..|a| + 9] == "{{inner}}";
    assert s[|a| + 2] == 'i';
    forall i | 0 <= i <= |s| ensures OccursAt(s, "{{inner}}", i) <==> i == |a| {
      if i + 9 <= |s| {
        var w := s[i..i + 9];
        assert w[0] == s[i] && w[1] == s[i + 1];
      }
    }
    forall i | 0 <= i <= |s| ensures !OccursAt(s, "{{summary}}", i) {
      if i + 11 <= |s| {
        var w := s[i..i + 11];
        assert w[0] == s[i] && w[1] == s[i + 1] && w[2] == s[i + 2];
      }
    }
  }

  /** `summary.outer` holds exactly one `{{inner}}` and no `{{summary}}`. */
  lemma SummaryOuterPlaceholders()
    ensures Contains(SummaryOuterHtml, "{{inner}}")
    ensures forall i :: OccursAt(SummaryOuterHtml, "{{inner}}", i) <==> i == |SummaryOuterHead|
    ensures !Contains(SummaryOuterHtml, "{{summary}}")
  {
    assert Placeholder("inner") == "{{inner}}";
    SummaryOuterHeadNoBrace();
    assert NoBrace(SummaryOuterTail);
    LoneInner(SummaryOuterHead, SummaryOuterTail);
    ContainsMiddle(SummaryOuterHead, "{{inner}}", SummaryOuterTail);
  }
}
