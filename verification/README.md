# next-nest content services — a Dafny model

This project models the content-processing core of the next-nest NestJS server:

- **Template population** (`HtmlTemplateService.populateHTMLFromJSON`). A JSON object is poured into an HTML template whose element tags name the keys. The engine:
  - picks its data: a preset template's data when a template id is given, otherwise the caller's `jsonData`;
  - normalises every string leaf: HTML entities are decoded, then a fixed chain of backslash un-escapes runs;
  - records each element's original inner HTML under its dotted tag path and under its bare tag;
  - walks the keys in order. A string value replaces the first element with that tag, after its `{{name}}` placeholder has been filled from the record. A nested object populates that element's children. `summary` gets special handling: its `outer` HTML replaces the element, and each text node containing `{{inner}}` becomes the populated `inner` object.
- **Template registry** (`templates/index.ts`). This is the fixed table of presets. It holds one entry, `blue-theme`.
- **Image filter** (`ImageFilterService.filterImages`). This unescapes the content and extracts every `<img … src="…">` tag with a global regular expression. It then classifies each tag in document order: blacklist, then GIF, then a size probe, with an error when the probe fails. Finally it counts the outcomes, numbers the kept tags `<img1/>`, `<img2/>`, … and splices the replacements back to front.
- **Text extraction** (`TextExtractionService.extractDataFromText`). This collects the `src` of every `<img>` tag, whether double-quoted, single-quoted or bare, using a case-insensitive global expression. It then strips the tags and trims the rest.

## How it is modelled

Code that computes values is modelled as datatypes, functions and lemmas. Code that works step by step is modelled as methods with loops, each proved equal to a reference function:
- the JSON data is a value tree (`JsonData`);
- the DOM is a value tree of `Dom.Node`, addressed by child-index paths;
- the state one population run shares between its closures (`originalContents`) is the class `HtmlTemplate.PopulationRun`.

The regular expressions are written out by hand. Each one is:
- an anchored matcher (`MatchAt`);
- an `exec` that finds the leftmost anchored match from `lastIndex`;
- the collecting loop, proved equal to a recursive reference.

The image filter's pattern is also given a declarative description (`ImageTags.TagMatch`). The matcher is proved to agree with it in both directions, including the greedy choice of the last `src="`.

Several source quirks are modelled as written, and lemmas state them:
- A nested placeholder such as `{{title}}` under `summary.inner` is looked up under its full path. When that path was not recorded (as in the controller test's template), the placeholder is emptied (`HtmlTemplate.NestedPlaceholderEmptied`).
- A template id that names a property every object inherits, such as `toString`, is not rejected. Its `data` is `undefined`, so the template is rendered with no data (`HtmlTemplate.InheritedIdKeepsTemplate`).
- A literal `___DOUBLE_BACKSLASH___` in a value becomes a backslash (`HtmlEscapes.DecodeLiteralPlaceholder`).
- Removing image tags is a single pass, so `<<img>img>` leaves `<img>` (`TextExtraction.StripIsOnePass`).
- The GIF keyword `gif` subsumes the extension and parameter tests (`ImageUrls.GifKeywordsDecide`).

## Model

Source paths are relative to the repository root.

| member | source | states |
|---|---|---|
| `Strings.ReplaceAll` | src/server/app/html-template/html-template.service.ts:130-133 | A `g`-flagged replace of a literal pattern: occurrences are found left to right without overlap and each is replaced; `ReplaceAllAbsent` and `ReplaceAllKeepsPrefix` state what it does. |
| `Strings.ReplaceAllAbsent` | src/server/app/html-template/html-template.service.ts:130-133 | A global literal replace returns a string in which the pattern never occurs unchanged. |
| `Strings.ReplaceAllKeepsPrefix` | src/server/app/html-template/html-template.service.ts:285-295 | A prefix none of whose characters can start the pattern is copied through the replace. |
| `Strings.FirstOf` | src/server/app/image-filter/image-filter.service.ts:298 | The position of the first stop character at or after the start, or the end of the text; the character found is a stop character. |
| `Strings.FirstOfMeaning` | src/server/app/image-filter/image-filter.service.ts:298 | No character between the start and the position `FirstOf` returns is a stop character (the `[^>]` run of the tag pattern). |
| `Strings.FirstOfIs` | src/server/app/image-filter/image-filter.service.ts:298 | A stop character with none before it from the start is the one `FirstOf` returns. |
| `Strings.Lower` | src/server/app/html-template/html-template.service.ts:73 | `toLowerCase` keeps the length and lower-cases each ASCII capital letter, leaving every other character alone. |
| `Strings.Trim` | src/server/app/text-extraction/text-extraction.service.ts:31 | `trim` leaves neither leading nor trailing JavaScript white space and never lengthens the text. |
| `Strings.TrimIsInfix` | src/server/app/text-extraction/text-extraction.service.ts:31 | The trimmed text is the infix of the input that starts where the leading white space ends. |
| `Strings.TrimDropsWhitespace` | src/server/app/text-extraction/text-extraction.service.ts:31 | Everything `trim` cuts off at the end is white space. |
| `Strings.NatToString` | src/server/app/image-filter/image-filter.service.ts:140 | The decimal numeral of the kept-image number: non-empty, digits only, no leading zero for a positive number, and it denotes exactly that number (`DecimalValue`), so different numbers get different tags. |
| `JsonData.Truthy` | src/server/app/html-template/html-template.service.ts:162 | JavaScript truthiness of a property read: `undefined`, `null`, `false`, `0` and the empty string are falsy; `SummaryOuterCases` states what it decides. |
| `JsonData.FindKey` | src/server/app/html-template/html-template.service.ts:93-96 | The position of the first property with the key, and `None` exactly when no property has it. |
| `JsonData.Get` | src/server/app/html-template/html-template.service.ts:95 | A property read yields a value exactly when some property has the key (otherwise `undefined`). |
| `JsonData.GetFirst` | src/server/app/html-template/html-template.service.ts:95 | Reading the key of the first property that has it yields that property's value. |
| `Templates.GetAllTemplates` | src/server/app/html-template/templates/index.ts:65-67 | The list holds exactly the registry's configurations, one per entry. |
| `Templates.PlaceholderInjective` | src/server/app/html-template/html-template.service.ts:130-131 | Different keys are looked for through different placeholders `{{key}}`. |
| `Templates.GetTemplateById` | src/server/app/html-template/templates/index.ts:72-74 | A registered id finds its own configuration; a property name every object inherits (`toString`, `constructor`, `__proto__`, …) finds that inherited member, which is truthy but no configuration; any other id finds nothing. |
| `Templates.RegistryKeyedById` | src/server/app/html-template/templates/index.ts:55-60 | Every configuration is stored under its own id. |
| `Templates.BlueThemeLookup` | src/server/app/html-template/templates/index.ts:55-56 | The id `blue-theme` finds the blue-theme configuration. |
| `Templates.UnknownIdIsNone` | src/server/app/html-template/templates/index.ts:72-74 | Every id other than `blue-theme` and the inherited property names finds nothing. |
| `Templates.InheritedIdHasNoData` | src/server/app/html-template/templates/index.ts:72-74 | An inherited property name is found, but it has no `data` (it reads as `undefined`). |
| `Templates.BlueThemeDataShape` | src/server/app/html-template/templates/index.ts:20-49 | The blue-theme data has its six keys in order; `summary` holds `outer` and an `inner` object; `content_points` is an object. |
| `Templates.ArticleTitleNamesItself` | src/server/app/html-template/templates/index.ts:21-22 | The `article_title` leaf holds the placeholder `{{article_title}}`. |
| `Templates.SubtitleNamesItself` | src/server/app/html-template/templates/index.ts:24-25 | The `subtitle` leaf holds the placeholder `{{subtitle}}`. |
| `Templates.SummaryTitleNamesItself` | src/server/app/html-template/templates/index.ts:31-32 | The `summary.inner.title` leaf holds the placeholder `{{title}}`. |
| `Templates.SummaryContentNamesItself` | src/server/app/html-template/templates/index.ts:33-34 | The `summary.inner.content` leaf holds the placeholder `{{content}}`. |
| `Templates.MainSubjectNamesItself` | src/server/app/html-template/templates/index.ts:38 | The `main_subject` leaf holds the placeholder `{{main_subject}}`. |
| `Templates.HighlightContentNamesItself` | src/server/app/html-template/templates/index.ts:40-41 | The `highlight_content` leaf holds the placeholder `{{highlight_content}}`. |
| `Templates.ContentPointsTitleNamesItself` | src/server/app/html-template/templates/index.ts:44-45 | The `content_points.title` leaf holds the placeholder `{{title}}`. |
| `Templates.ContentPointsContentNamesItself` | src/server/app/html-template/templates/index.ts:46-47 | The `content_points.content` leaf holds the placeholder `{{content}}`. |
| `Templates.TopLeavesNameThemselves` | src/server/app/html-template/templates/index.ts:21-41 | Every top-level string leaf of the blue-theme data holds the placeholder for its own key. |
| `Templates.SummaryInnerLeavesNameThemselves` | src/server/app/html-template/templates/index.ts:30-35 | Both leaves of `summary.inner` hold the placeholder for their own key. |
| `Templates.ContentPointsLeavesNameThemselves` | src/server/app/html-template/templates/index.ts:43-48 | Both leaves of `content_points` hold the placeholder for their own key. |
| `Templates.LoneInner` | src/server/app/html-template/templates/index.ts:28-29 | Around one `{{inner}}`, brace-free text holds no other `{{inner}}` and no `{{summary}}`. |
| `Templates.SummaryOuterPlaceholders` | src/server/app/html-template/templates/index.ts:28-29 | `summary.outer` holds `{{inner}}` exactly once, at a known position, and no `{{summary}}`. |
| `HtmlEscapes.MatchEntity` | src/server/app/html-template/html-template.service.ts:280-282 | An entity match starts at `&` and is no longer than the text. |
| `HtmlEscapes.DecodeEntities` | src/server/app/html-template/html-template.service.ts:280-282 | Text without `&` passes entity decoding unchanged. |
| `HtmlEscapes.DecodeEntitiesKeepsPrefix` | src/server/app/html-template/html-template.service.ts:280-282 | A prefix without `&` is copied whatever follows it. |
| `HtmlEscapes.DecodeQuotEntity` | src/server/app/html-template/html-template.service.ts:280-282 | `&quot;` decodes to a double quote. |
| `HtmlEscapes.QuotesAndBracesKeepPrefix` | src/server/app/html-template/html-template.service.ts:289-292 | The four quote and brace replacements copy text without backslashes. |
| `HtmlEscapes.QuotesAndBracesOnEscape` | src/server/app/html-template/html-template.service.ts:289-292 | The four replacements drop the backslash before a quote or a brace. |
| `HtmlEscapes.QuotesAndBracesOnOtherPair` | src/server/app/html-template/html-template.service.ts:289-292 | The four replacements keep a backslash before any other character. |
| `HtmlEscapes.ProtectThenUnescapeIsOnePass` | src/server/app/html-template/html-template.service.ts:286-292 | Protecting double backslashes and then the four replacements equal one left-to-right pass over the text, on every input. |
| `HtmlEscapes.RestoreAfterOnePass` | src/server/app/html-template/html-template.service.ts:295 | Restoring the placeholder after that pass gives the reference un-escape, for text without two underscores in a row. |
| `HtmlEscapes.DecodeHTMLEntities` | src/server/app/html-template/html-template.service.ts:276-298 | Entity decoding, then the backslash un-escape chain; `DecodeIsEntityDecodingThenUnescape` gives its one-pass meaning, and `DecodeKeepsPrefix`, `DecodeKeepsName`, `DecodeEscaped` and `DecodeQuot` what it does to each kind of text. |
| `HtmlEscapes.DecodeIsEntityDecodingThenUnescape` | src/server/app/html-template/html-template.service.ts:276-298 | `decodeHTMLEntities` is entity decoding followed by the reference un-escape (a double backslash becomes one; a backslash before a quote or brace is dropped), for text without two underscores in a row. |
| `HtmlEscapes.DecodePlainText` | src/server/app/html-template/html-template.service.ts:276-298 | Text without `&` or backslash comes back unchanged except that a literal placeholder turns into a backslash. |
| `HtmlEscapes.DecodeUnchanged` | src/server/app/html-template/html-template.service.ts:276-298 | Text without `&`, backslash or the placeholder comes back unchanged. |
| `HtmlEscapes.DecodeLiteralPlaceholder` | src/server/app/html-template/html-template.service.ts:285-295 | A literal `___DOUBLE_BACKSLASH___` in the input comes out as one backslash. |
| `HtmlEscapes.DecodeKeepsPrefix` | src/server/app/html-template/html-template.service.ts:276-298 | A prefix without `&`, backslash or underscore is copied by decoding. |
| `HtmlEscapes.DecodeUnderscore` | src/server/app/html-template/html-template.service.ts:276-298 | A single underscore followed by a plain character is copied. |
| `HtmlEscapes.DecodeKeepsName` | src/server/app/html-template/html-template.service.ts:276-298 | Text without `&` or backslashes, whose underscores each sit before another character, is copied by decoding, which goes on with what follows. |
| `HtmlEscapes.DecodeEscaped` | src/server/app/html-template/html-template.service.ts:289-292 | A backslash before a quote or a brace is dropped by decoding. |
| `HtmlEscapes.DecodeQuot` | src/server/app/html-template/html-template.service.ts:276-298 | `&quot;` comes out of decoding as a double quote. |
| `HtmlEscapes.DecodePlainTail` | src/server/app/html-template/html-template.service.ts:276-298 | Plain text is copied by decoding. |
| `HtmlEscapes.DecodeEscapedPlaceholder` | src/server/app/html-template/html-template.controller.spec.ts:116-136 | Escaped braces `\{\{name\}\}` come out as the plain placeholder `{{name}}` for every name whose underscores each sit before another character (such as `article_title`), with plain text around it. |
| `HtmlEscapes.EscapedBracesExample` | src/server/app/html-template/html-template.controller.spec.ts:116-136 | The escaped-braces value of the controller test decodes to `<h1 style="text-align: center;">{{article_title}}</h1>`. |
| `HtmlEscapes.DecodeQuotedAttribute` | src/server/app/html-template/html-template.controller.spec.ts:72-96 | `&quot;` around an attribute value comes out as real quotes. |
| `HtmlEscapes.QuotedStyleExample` | src/server/app/html-template/html-template.controller.spec.ts:80-81 | The style value of the controller test decodes to a properly quoted `style` attribute. |
| `HtmlEscapes.PreprocessValue` | src/server/app/html-template/html-template.service.ts:249-269 | A string becomes its decoding; an object stays an object with the same keys in the same order; other values are kept. |
| `HtmlEscapes.PreprocessJsonData` | src/server/app/html-template/html-template.service.ts:249-269 | The result has the same keys in the same order as the input. |
| `HtmlEscapes.PreprocessDecodesLeaves` | src/server/app/html-template/html-template.service.ts:249-269 | Preprocessing replaces every string leaf, at every depth, by its decoding, keeps every object's keys in order, and keeps every other value. |
| `HtmlEscapes.PreprocessPlainIsIdentity` | src/server/app/html-template/html-template.service.ts:249-269 | Data that needs no decoding comes through preprocessing unchanged. |
| `Dom.Splice` | src/server/app/html-template/html-template.service.ts:137-152 | The node at an address is replaced by the given nodes in its place; earlier siblings stay; ancestors keep tag and attributes. |
| `Dom.SpliceSiblings` | src/server/app/html-template/html-template.service.ts:137-152 | Splicing a child of `p` leaves `p` an element and its other children where they were. |
| `Dom.SpliceShift` | src/server/app/html-template/html-template.service.ts:145-150 | Inserting nodes one at a time before a node and then removing it is the same as splicing them all in its place. |
| `Dom.SpliceSelf` | src/server/app/html-template/html-template.service.ts:137-152 | Putting a node back in its own place changes nothing. |
| `Dom.SpliceTwice` | src/server/app/html-template/html-template.service.ts:195-219 | A node replaced by one node and then by a list is as if replaced by the list directly. |
| `Dom.SetKidsAt` | src/server/app/html-template/html-template.service.ts:106-112 | Rewriting an element's children keeps the element, with its tag and attributes, at its address. |
| `Dom.FindFirst` | src/server/app/html-template/html-template.service.ts:99 | `querySelector(key)` returns the address of an element whose tag is the key. |
| `Dom.FindFirstIsFirst` | src/server/app/html-template/html-template.service.ts:99 | No element before the one found in document order matches. |
| `Dom.FindFirstNoneIffAbsent` | src/server/app/html-template/html-template.service.ts:99-101 | Nothing is found exactly when no element of the tree matches. |
| `Dom.WalkExact` | src/server/app/html-template/html-template.service.ts:173-185 | The text-node walker lists exactly the text nodes of the tree, each with its own value. |
| `Dom.MarkedTexts` | src/server/app/html-template/html-template.service.ts:182 | The addresses kept are no more than the nodes walked. |
| `Dom.MarkedTextIsText` | src/server/app/html-template/html-template.service.ts:173-185 | Every address the walker keeps names a text node containing the marker. |
| `Dom.MapText` | src/server/app/html-template/html-template.service.ts:188-222 | The mapped forest has as many top-level nodes as the original. |
| `Dom.ReplaceMarkedIsMapText` | src/server/app/html-template/html-template.service.ts:188-222 | Replacing the collected text nodes one after another equals replacing every text node containing the marker at once. |
| `Dom.MapTextUnmarked` | src/server/app/html-template/html-template.service.ts:188-222 | With no text node containing the marker the tree is left as it is. |
| `Dom.MapTextAt` | src/server/app/html-template/html-template.service.ts:188-222 | At any address, a text node containing the marker has become the new node and every other node is unchanged. |
| `HtmlTemplate.TemplateById` | src/server/app/html-template/html-template.service.ts:17-23 | The lookup succeeds for registry ids, with that configuration, and for inherited property names, with that member; it fails with a not-found error naming the id otherwise. |
| `HtmlTemplate.ChooseData` | src/server/app/html-template/html-template.service.ts:46-54 | A truthy registered template id selects that template's data; a truthy inherited name gives `undefined` data; any other truthy id fails as not found; without a truthy id `jsonData` is used, and without it the run fails. |
| `HtmlTemplate.JoinPath` | src/server/app/html-template/html-template.service.ts:96 | An empty parent path gives the key; otherwise parent, a dot, then the key; a dot-free key is the last segment of the joined path, so its placeholder is `{{key}}` at any depth. |
| `HtmlTemplate.LastSegment` | src/server/app/html-template/html-template.service.ts:129 | The text after the last dot: a dot-free suffix of the path preceded by a dot when shorter than the path. |
| `HtmlTemplate.LastSegmentOfDotFreeSuffix` | src/server/app/html-template/html-template.service.ts:129 | A dot-free end of a path that is the whole path or follows a dot is its last segment. |
| `HtmlTemplate.ReplacePlaceholders` | src/server/app/html-template/html-template.service.ts:121-134 | Every `{{last segment}}` becomes the content recorded under the exact path, or the empty string; `ReplacePlaceholdersAbsent`, `ReplacePlaceholdersOnce` and `NestedPlaceholderEmptied` state what it does. |
| `HtmlTemplate.ReplacePlaceholdersAbsent` | src/server/app/html-template/html-template.service.ts:121-134 | A value without its placeholder is returned unchanged. |
| `HtmlTemplate.ReplacePlaceholdersOnce` | src/server/app/html-template/html-template.service.ts:121-134 | A value holding its placeholder once gets the content recorded under the exact path, or the empty string when none was recorded. |
| `HtmlTemplate.NestedPlaceholderEmptied` | src/server/app/html-template/html-template.service.ts:124-133 | At a nested path a record kept only under the bare name is not found, so the placeholder is emptied. |
| `HtmlTemplate.TitleSegment` | src/server/app/html-template/html-template.service.ts:124-129 | At `parent.title` the placeholder sought is `{{title}}` while the lookup path is not `title`. |
| `HtmlTemplate.WritesFrom` | src/server/app/html-template/html-template.service.ts:69-85 | The assignments the collector makes, in document order: path then bare tag for each element; `LastWriteMeaning`, `WritesCover` and `DuplicateTagLaterWins` state what the record ends up holding. |
| `HtmlTemplate.LastWriteMeaning` | src/server/app/html-template/html-template.service.ts:77-78 | The reference last write to a key is absent exactly when nothing is written to it, and otherwise is a write no later one overrides. |
| `HtmlTemplate.LastWriteWins` | src/server/app/html-template/html-template.service.ts:69-85 | After the collector's writes, each key holds its last written value and unwritten keys keep their old entry. |
| `HtmlTemplate.WritesCover` | src/server/app/html-template/html-template.service.ts:69-85 | Every element of the template is recorded under its dotted lower-case tag path and under its bare tag. |
| `HtmlTemplate.DuplicateTagLaterWins` | src/server/app/html-template/html-template.service.ts:77-78 | Two elements with the same tag: the later one owns the bare-tag entry. |
| `HtmlTemplate.PopulateHtml` | src/server/app/html-template/html-template.service.ts:40-242 | The whole run as a value; `TemplateIdOverridesData`, `UnknownTemplateFails`, `InheritedIdKeepsTemplate`, `MissingInputFails` and `EmptyDataKeepsTemplate` state its cases, and `PopulateHTMLFromJSON` is proved equal to it. |
| `HtmlTemplate.TemplateIdOverridesData` | src/server/app/html-template/html-template.service.ts:46-54 | With a truthy template id the result does not depend on `jsonData`. |
| `HtmlTemplate.UnknownTemplateFails` | src/server/app/html-template/html-template.service.ts:47-49 | An id that is neither registered nor an inherited property name fails with a not-found error before the template is parsed. |
| `HtmlTemplate.InheritedIdKeepsTemplate` | src/server/app/html-template/html-template.service.ts:46-56 | An inherited property name as template id does not fail: the data is `undefined`, preprocessing it gives no keys, and the template comes back parsed and serialised. |
| `HtmlTemplate.MissingInputFails` | src/server/app/html-template/html-template.service.ts:52-54 | Without a truthy id and without data the run fails. |
| `HtmlTemplate.BlueThemeIdUsesItsData` | src/server/app/html-template/html-template.service.ts:47-50 | The id `blue-theme` runs the engine on the blue-theme data. |
| `HtmlTemplate.EmptyDataKeepsTemplate` | src/server/app/html-template/html-template.service.ts:56-241 | With empty data the template comes back parsed and serialised. |
| `HtmlTemplate.PopulateFrom` | src/server/app/html-template/html-template.service.ts:88-118 | The keys of the data applied one after another; `UnmatchedKeysKeepTree`, `OtherValuesIgnored`, `StringValueSplices` and `NestedObjectKeepsContainer` state what each kind of value does, and `PopulationRun.PopulateElement` is proved equal to it. |
| `HtmlTemplate.PopulateKey` | src/server/app/html-template/html-template.service.ts:93-116 | One key of the loop: the first element with that tag is replaced by a string value, populated from an object value, or handed to the summary handling; the same lemmas state each case. |
| `HtmlTemplate.UnmatchedKeysKeepTree` | src/server/app/html-template/html-template.service.ts:93-101 | Keys naming no element leave the tree unchanged. |
| `HtmlTemplate.OtherValuesIgnored` | src/server/app/html-template/html-template.service.ts:99-114 | Numbers, booleans, `null` and keys with no element change nothing. |
| `HtmlTemplate.StringValueSplices` | src/server/app/html-template/html-template.service.ts:102-105 | A string value replaces the first element with that tag by the nodes of its resolved value, in its place; nodes before it are untouched. |
| `HtmlTemplate.FirstMatchIsFirst` | src/server/app/html-template/html-template.service.ts:99 | No element before the one chosen for a key matches the key. |
| `HtmlTemplate.NestedObjectKeepsContainer` | src/server/app/html-template/html-template.service.ts:106-112 | A nested object other than `summary` populates the children of the first matching element, which keeps its tag and attributes. |
| `HtmlTemplate.SummaryResult` | src/server/app/html-template/html-template.service.ts:155-233 | `handleSummary` as a value; `SummaryOuterCases` and `SummaryReplacesElement` state its cases, and `PopulationRun.HandleSummary` is proved equal to it. |
| `HtmlTemplate.SummaryOuterCases` | src/server/app/html-template/html-template.service.ts:162 | A falsy `outer` leaves the summary element in place; a truthy non-string `outer` is an error. |
| `HtmlTemplate.SummaryReplacesElement` | src/server/app/html-template/html-template.service.ts:162-231 | A string `outer` replaces the summary element by its nodes, each text node containing `{{inner}}` having become the populated `<inner>` element. |
| `HtmlTemplate.MoveChildrenBefore` | src/server/app/html-template/html-template.service.ts:226-231 | Moving the container's children before the element and removing it equals splicing them in its place. |
| `HtmlTemplate.CollectMarkedTexts` | src/server/app/html-template/html-template.service.ts:173-185 | The walker pass returns the addresses of the text nodes containing `{{inner}}`, in document order. |
| `HtmlTemplate.PopulationRun.constructor` | src/server/app/html-template/html-template.service.ts:66 | A run starts with the given codec and an empty record of original contents. |
| `HtmlTemplate.PopulationRun.CollectOriginalContents` | src/server/app/html-template/html-template.service.ts:69-85 | The record afterwards is the old one with the collector's writes applied in document order. |
| `HtmlTemplate.PopulationRun.ReplaceElementWithContent` | src/server/app/html-template/html-template.service.ts:137-152 | The element gives way to the parsed nodes of the content. |
| `HtmlTemplate.PopulationRun.PopulateElement` | src/server/app/html-template/html-template.service.ts:88-118 | The result is the keys of the data applied in order, as the reference definition says. |
| `HtmlTemplate.PopulationRun.FillInnerMarkers` | src/server/app/html-template/html-template.service.ts:171-222 | Each text node holding `{{inner}}` is replaced by the populated inner content, or the run fails as the inner population fails. |
| `HtmlTemplate.PopulationRun.ReplaceMarkedText` | src/server/app/html-template/html-template.service.ts:188-191 | A listed node still in place as a text node is replaced; any other is passed over. |
| `HtmlTemplate.PopulationRun.ReplaceTextNode` | src/server/app/html-template/html-template.service.ts:192-219 | The text node gives way to the nodes of the populated `<inner>` element. |
| `HtmlTemplate.PopulationRun.HandleSummary` | src/server/app/html-template/html-template.service.ts:155-233 | The result is the reference summary step for the element. |
| `HtmlTemplate.PopulateHTMLFromJSON` | src/server/app/html-template/html-template.service.ts:40-242 | The whole run equals the reference population: choose the data, decode it, record original contents, populate, serialise. |
| `ImageUrls.UnescapeHtml` | src/server/app/image-filter/image-filter.service.ts:172-186 | The ten replacements of `unescapeHtml` in source order. The lemmas below cover empty input, plain text, one escaped quote and the chained `&amp;lt;`; other escapes and their mixtures are not stated. |
| `ImageUrls.UnescapeQuote` | src/server/app/image-filter/image-filter.service.ts:176 | A backslash-escaped double quote between plain parts becomes `"`, and the parts are kept. |
| `ImageUrls.UnescapeDoubleEncodedLt` | src/server/app/image-filter/image-filter.service.ts:180-181 | Because the replacements are chained, `&amp;lt;` between plain parts ends as `<`, not `&lt;`. |
| `ImageUrls.UnescapeEmpty` | src/server/app/image-filter/image-filter.service.ts:173 | The empty string unescapes to the empty string. |
| `ImageUrls.UnescapePlain` | src/server/app/image-filter/image-filter.service.ts:172-186 | Text without backslash or `&` unescapes to itself. |
| `ImageUrls.AnyEntryInMeaning` | src/server/app/image-filter/image-filter.service.ts:193-195 | The blacklist test holds exactly when some cleaned entry occurs in the cleaned URL. |
| `ImageUrls.IsInBlacklist` | src/server/app/image-filter/image-filter.service.ts:191-196 | Whether some cleaned entry occurs in the cleaned URL; `BlacklistMeaning` states it. |
| `ImageUrls.BlacklistMeaning` | src/server/app/image-filter/image-filter.service.ts:191-196 | A URL is blacklisted exactly when some entry, unescaped and lower-cased, occurs in it; an empty list blocks nothing; an empty entry blocks everything. |
| `ImageUrls.ContainsAnyMeaning` | src/server/app/image-filter/image-filter.service.ts:212-219 | The keyword test holds exactly when some keyword occurs in the text. |
| `ImageUrls.IsGifUrl` | src/server/app/image-filter/image-filter.service.ts:201-223 | The extension, parameter and keyword tests of `isGifUrl`; `GifKeywordsDecide` states what they amount to. |
| `ImageUrls.EndsWithGif` | src/server/app/image-filter/image-filter.service.ts:204-205 | A URL ending in `.gif` contains `gif`. |
| `ImageUrls.ParamsHaveGif` | src/server/app/image-filter/image-filter.service.ts:208-214 | A URL with a gif format parameter contains `gif`. |
| `ImageUrls.GifKeywordsDecide` | src/server/app/image-filter/image-filter.service.ts:201-223 | A URL counts as a GIF exactly when its cleaned form contains one of the keywords, so the extension and parameter tests add nothing. |
| `ImageTags.LastSrc` | src/server/app/image-filter/image-filter.service.ts:298 | The last `src="` position before the tag end, with none after it; `None` when there is none. |
| `ImageTags.MatchAt` | src/server/app/image-filter/image-filter.service.ts:298 | A match anchored at a position starts there and stays within the text. |
| `ImageTags.CloseTag` | src/server/app/image-filter/image-filter.service.ts:298 | A match found when closing the tag at a position ends after it. |
| `ImageTags.CloseTagAtFirst` | src/server/app/image-filter/image-filter.service.ts:298 | Closing the tag is decided at the first `>` from the position; there is no match when there is none. |
| `ImageTags.MatchAtShape` | src/server/app/image-filter/image-filter.service.ts:298 | A match is `<img`, a run without `>`, `src="`, a non-empty value without `"` or `>`, a quote, a run without `>`, and `>`. |
| `ImageTags.TagMatchDetermined` | src/server/app/image-filter/image-filter.service.ts:298 | Any match of the declarative description ends at the first `>` after `<img`, and its group closes at the first `"` or `>` after `src="`. |
| `ImageTags.ChosenSrcMatches` | src/server/app/image-filter/image-filter.service.ts:298 | The last `src` before the first `>` gives a match. |
| `ImageTags.MatchAtIsTagMatch` | src/server/app/image-filter/image-filter.service.ts:298 | The anchored matcher fails exactly when the declarative description of the expression has no match at that position; otherwise it returns the span and group of a match whose `src="` is the last possible one, as greedy backtracking picks. |
| `ImageTags.Exec` | src/server/app/image-filter/image-filter.service.ts:301 | A match found from a position lies at or after it, within the text. |
| `ImageTags.ExecIsLeftmost` | src/server/app/image-filter/image-filter.service.ts:301 | `exec` returns the leftmost anchored match from the search position, or none when no position matches. |
| `ImageTags.ExtractFrom` | src/server/app/image-filter/image-filter.service.ts:301-307 | The matches `exec` returns one after another; `ExtractImgTags` is proved equal to it, and `ExtractedTagsMatch`, `ExtractedTagsDisjoint`, `ExtractedTagsComplete` and `ExtractedTagsAreSubstrings` state what it yields. |
| `ImageTags.ExtractImgTags` | src/server/app/image-filter/image-filter.service.ts:295-311 | The loop collects exactly the matches of the reference extraction. |
| `ImageTags.ExtractedTagsMatch` | src/server/app/image-filter/image-filter.service.ts:295-311 | Each extracted tag lies in the text at or after the start, and is the anchored match at its own index. |
| `ImageTags.ExtractedTagsDisjoint` | src/server/app/image-filter/image-filter.service.ts:295-311 | Extracted tags are in increasing order and do not overlap. |
| `ImageTags.ExtractedTagsComplete` | src/server/app/image-filter/image-filter.service.ts:295-311 | No position outside an extracted tag starts a match. |
| `ImageTags.ExtractedTagsAreSubstrings` | src/server/app/image-filter/image-filter.service.ts:295-311 | Each extracted tag is the text at its index and its `src` is part of it. |
| `ImageFilter.ReasonName` | src/server/app/image-filter/image-filter.service.ts:72-131 | Reasons are reported as `blacklist`, `gif`, `size` or `error`. |
| `ImageFilter.ProbeImage` | src/server/app/image-filter/image-filter.service.ts:228-240 | A URL not starting with `http` after unescaping fails without a fetch; otherwise the fetch result is returned. |
| `ImageFilter.Classify` | src/server/app/image-filter/image-filter.service.ts:58-135 | Blacklist first, then GIF, then the size probe; `ClassificationOrder` states it and `ClassifyOne` is proved equal to it. |
| `ImageFilter.ClassificationOrder` | src/server/app/image-filter/image-filter.service.ts:58-135 | Blacklist wins over GIF, GIF over the probe, and the probe is not consulted for a blacklisted or GIF URL; a failed probe removes with `error`, a small one with `size`. |
| `ImageFilter.Outcomes` | src/server/app/image-filter/image-filter.service.ts:58-135 | One outcome per extracted tag. |
| `ImageFilter.OutcomesAt` | src/server/app/image-filter/image-filter.service.ts:58-135 | The outcome of each tag is its own classification. |
| `ImageFilter.PendingOps` | src/server/app/image-filter/image-filter.service.ts:62-126 | One pending operation per tag. |
| `ImageFilter.PendingOpsAt` | src/server/app/image-filter/image-filter.service.ts:62-126 | The operation recorded for each tag covers that tag, with an empty replacement, and is flagged kept exactly when its outcome is kept. |
| `ImageFilter.Operations` | src/server/app/image-filter/image-filter.service.ts:138-148 | One operation per tag: removed tags keep the empty replacement, the n-th kept tag (in document order) gets `<imgn/>`. |
| `ImageFilter.OperationsOrdered` | src/server/app/image-filter/image-filter.service.ts:151-159 | The operations of the extracted tags are ordered and disjoint within the text. |
| `ImageFilter.CountsAddUp` | src/server/app/image-filter/image-filter.service.ts:58-135 | Removed and kept add up to the total, and the removed count is the sum over the four reasons. |
| `ImageFilter.TallyRecords` | src/server/app/image-filter/image-filter.service.ts:72-131 | The reasons map records each reason's count, and holds a reason exactly when it occurred. |
| `ImageFilter.RemovedListLength` | src/server/app/image-filter/image-filter.service.ts:62-131 | One removed entry per removed tag. |
| `ImageFilter.KeptListLength` | src/server/app/image-filter/image-filter.service.ts:138-148 | One kept entry per kept tag. |
| `ImageFilter.RemovedInOrder` | src/server/app/image-filter/image-filter.service.ts:62-131 | The removed entry of a tag sits at its rank among removed tags and carries its `src` and reason. |
| `ImageFilter.KeptNumbering` | src/server/app/image-filter/image-filter.service.ts:138-148 | The kept entries are numbered `<img1/>`, `<img2/>`, … in order. |
| `ImageFilter.KeptInOrder` | src/server/app/image-filter/image-filter.service.ts:138-148 | The kept entry of a tag sits at its rank among kept tags and carries its `src`. |
| `ImageFilter.StatsAgree` | src/server/app/image-filter/image-filter.service.ts:45-135 | The total is the number of tags and removed plus kept; removed equals the reasons sum and the removed list length; kept equals the kept list length. |
| `ImageFilter.Rebuild` | src/server/app/image-filter/image-filter.service.ts:154-159 | The text with the operations' spans replaced, read front to back; `RebuildIdentity`, `RebuildLength` and `SpliceAll` state what it is. |
| `ImageFilter.RebuildIdentity` | src/server/app/image-filter/image-filter.service.ts:154-159 | Operations whose replacements equal the text they cover leave the text unchanged. |
| `ImageFilter.RebuildLength` | src/server/app/image-filter/image-filter.service.ts:154-159 | The result length is the text length plus each operation's growth. |
| `ImageFilter.FilterSpec` | src/server/app/image-filter/image-filter.service.ts:16-167 | What `filterImages` returns; `FilterDefaults`, `FilterStats`, `StatsAgree` and `NoTagsKeepsHtml` state it, and `FilterImages` is proved equal to it. |
| `ImageFilter.FilterDefaults` | src/server/app/image-filter/image-filter.service.ts:19-28 | Empty content gives the empty result; missing options behave as 15 KB and an empty blacklist. |
| `ImageFilter.FilterStats` | src/server/app/image-filter/image-filter.service.ts:45-135 | Removed plus kept is the total; removed equals the sum over the reasons map and the length of `removedImages`; kept equals the length of `keptImages`, numbered `<img1/>`, `<img2/>`, … in order; the total is the number of extracted tags. |
| `ImageFilter.NoTagsKeepsHtml` | src/server/app/image-filter/image-filter.service.ts:42-159 | Content with no image tag comes back unescaped with zero statistics. |
| `ImageFilter.SortByIndexDescending` | src/server/app/image-filter/image-filter.service.ts:151 | Operations come out in strictly decreasing index order. |
| `ImageFilter.SortByIndexDescendingPermutes` | src/server/app/image-filter/image-filter.service.ts:151 | Sorting keeps the same operations. |
| `ImageFilter.OrderedIncreasing` | src/server/app/image-filter/image-filter.service.ts:151 | Ordered operations of positive length have strictly increasing indices. |
| `ImageFilter.SpliceStep` | src/server/app/image-filter/image-filter.service.ts:154-159 | Splicing the next operation from the back keeps the text equal to the reference rebuild with one more operation applied. |
| `ImageFilter.SpliceAll` | src/server/app/image-filter/image-filter.service.ts:154-159 | After all splices the text is the reference rebuild. |
| `ImageFilter.ClassifyOne` | src/server/app/image-filter/image-filter.service.ts:58-135 | The loop body's classification equals the reference classification. |
| `ImageFilter.ClassifyNext` | src/server/app/image-filter/image-filter.service.ts:58-135 | One iteration keeps outcomes, operations, statistics and removed list in step with the reference. |
| `ImageFilter.ClassifyTags` | src/server/app/image-filter/image-filter.service.ts:58-135 | The loop produces the reference outcomes, pending operations, statistics and removed list. |
| `ImageFilter.NumberKept` | src/server/app/image-filter/image-filter.service.ts:138-148 | The numbering pass produces the reference operations and kept list. |
| `ImageFilter.SpliceBackToFront` | src/server/app/image-filter/image-filter.service.ts:151-159 | Sorting and splicing back to front gives the reference rebuild. |
| `ImageFilter.FilterImages` | src/server/app/image-filter/image-filter.service.ts:16-167 | The whole filter equals the reference filter result. |
| `TextExtraction.SkipSpaceMeaning` | src/server/app/text-extraction/text-extraction.service.ts:17 | `\s*` skips exactly the white space at the position. |
| `TextExtraction.TokenEndMeaning` | src/server/app/text-extraction/text-extraction.service.ts:17 | `[^>\s]+` stops at the first `>` or white space. |
| `TextExtraction.CloseAt` | src/server/app/text-extraction/text-extraction.service.ts:17 | The closing `[^>]*>` ends right after a `>`. |
| `TextExtraction.QuotedAt` | src/server/app/text-extraction/text-extraction.service.ts:17 | A quoted value and its closing end after the opening quote. |
| `TextExtraction.BareAt` | src/server/app/text-extraction/text-extraction.service.ts:17 | An unquoted value and its closing end after its start. |
| `TextExtraction.ValueAt` | src/server/app/text-extraction/text-extraction.service.ts:17 | A value of any of the three forms ends after its start. |
| `TextExtraction.SrcAt` | src/server/app/text-extraction/text-extraction.service.ts:17 | A `src` attribute match ends within the text after its start. |
| `TextExtraction.SrcAttempts` | src/server/app/text-extraction/text-extraction.service.ts:17 | One attempt per position; every success ends after its position within the text. |
| `TextExtraction.SrcAttemptsAt` | src/server/app/text-extraction/text-extraction.service.ts:17 | The table entry at a position is the `src` attempt there. |
| `TextExtraction.LastSrc` | src/server/app/text-extraction/text-extraction.service.ts:17 | The last successful `src` attempt in the range. |
| `TextExtraction.LastSrcMeaning` | src/server/app/text-extraction/text-extraction.service.ts:17 | No attempt after the one found succeeds; none succeeds when nothing is found. |
| `TextExtraction.MatchAt` | src/server/app/text-extraction/text-extraction.service.ts:17 | A match anchored at a position starts there and ends within the text. |
| `TextExtraction.OpensImg` | src/server/app/text-extraction/text-extraction.service.ts:17 | `<img src=` opens a tag with a `src` boundary at the expected place and no `>` or other `src` in between. |
| `TextExtraction.QuotedValueAt` | src/server/app/text-extraction/text-extraction.service.ts:17 | A quoted value followed by a tag end gives its contents and the end. |
| `TextExtraction.SrcValue` | src/server/app/text-extraction/text-extraction.service.ts:17 | A `src=` at a word boundary yields the value that follows. |
| `TextExtraction.NoSrcBetween` | src/server/app/text-extraction/text-extraction.service.ts:17 | Positions with no `src` have no attempt. |
| `TextExtraction.LastSrcIs` | src/server/app/text-extraction/text-extraction.service.ts:17 | A success with none after it is the last one. |
| `TextExtraction.MatchAtFound` | src/server/app/text-extraction/text-extraction.service.ts:17 | The last `src` before the first `>` decides the anchored match. |
| `TextExtraction.QuotedSrc` | src/server/app/text-extraction/text-extraction.service.spec.ts:19-38 | A double- or single-quoted `src` yields the text between the quotes, and the match ends at the first `>` after the closing quote. |
| `TextExtraction.UnquotedSrc` | src/server/app/text-extraction/text-extraction.service.spec.ts:19-38 | An unquoted `src` yields the run up to white space or `>`. |
| `TextExtraction.EmptyQuotedSrcSkipped` | src/server/app/text-extraction/text-extraction.service.ts:24-27 | `src=""` matches but pushes no URL. |
| `TextExtraction.Attempts` | src/server/app/text-extraction/text-extraction.service.ts:17 | One anchored attempt per position. |
| `TextExtraction.Exec` | src/server/app/text-extraction/text-extraction.service.ts:23 | A match found from a position lies at or after it. |
| `TextExtraction.ExecIsLeftmost` | src/server/app/text-extraction/text-extraction.service.ts:23 | `exec` returns the leftmost anchored match, or none when no later position matches. |
| `TextExtraction.AsText` | src/server/app/text-extraction/text-extraction.service.ts:12-14 | The text the service works on; `EmptyInput` states the `null` and `undefined` case. |
| `TextExtraction.Images` | src/server/app/text-extraction/text-extraction.service.ts:23-28 | The `src` values pushed in order; `ImagesNonEmpty`, `MatchesAreMatches`, `MatchesInOrder` and `MatchesComplete` state what they are, and `ExtractDataFromText` is proved to return them. |
| `TextExtraction.ExtractDataFromText` | src/server/app/text-extraction/text-extraction.service.ts:10-37 | The images are the reference list of URLs and the content is the input with image tags stripped, trimmed. |
| `TextExtraction.SrcsNonEmpty` | src/server/app/text-extraction/text-extraction.service.ts:24-27 | Every pushed URL is non-empty and there are no more URLs than matches. |
| `TextExtraction.ImagesNonEmpty` | src/server/app/text-extraction/text-extraction.service.ts:24-27 | Every extracted image URL is non-empty. |
| `TextExtraction.MatchesAreMatches` | src/server/app/text-extraction/text-extraction.service.ts:23-28 | Each listed match is the anchored match at its own index. |
| `TextExtraction.MatchesInOrder` | src/server/app/text-extraction/text-extraction.service.ts:23-28 | Listed matches are in increasing order and do not overlap. |
| `TextExtraction.MatchesComplete` | src/server/app/text-extraction/text-extraction.service.ts:23-28 | No position outside a listed match starts a match. |
| `TextExtraction.TagEnd` | src/server/app/text-extraction/text-extraction.service.ts:31 | A stripped tag ends after its `<img`. |
| `TextExtraction.Strip` | src/server/app/text-extraction/text-extraction.service.ts:31 | Stripping never lengthens the text. |
| `TextExtraction.StripNoImg` | src/server/app/text-extraction/text-extraction.service.ts:31 | Text with no `<img` (in any case) is not changed by stripping. |
| `TextExtraction.NoImgTag` | src/server/app/text-extraction/text-extraction.service.spec.ts:40-47 | Text without image tags has no images and its content is the trimmed text. |
| `TextExtraction.EmptyInput` | src/server/app/text-extraction/text-extraction.service.spec.ts:49-61 | An empty or null input gives no images and empty content. |
| `TextExtraction.StripTag` | src/server/app/text-extraction/text-extraction.service.ts:31 | A whole image tag is removed. |
| `TextExtraction.StripAroundTag` | src/server/app/text-extraction/text-extraction.service.ts:31 | Text around one tag is kept, the tag removed. |
| `TextExtraction.StripIsOnePass` | src/server/app/text-extraction/text-extraction.service.ts:31 | Stripping is one pass: `<<img>img>` leaves `<img>`. |

## Left out

- Network probe: `getImageInfo` is a parameter `fetch` from URL to size or failure. It stands for the HTTP(S) request, the redirects it follows, the status check, the `content-length` parse and the 10-second timeout. Only the `http` prefix test before any request is modelled.
- Asynchrony: `async`/`await`, promises and the `try`/`catch` around each tag are folded into the `ProbeResult` the oracle returns.
- Logging: `console.log` is not modelled.
- Controllers, DTOs and validation: these are not part of this model; the services take their arguments as values. The gateway proxy and view services are not part of this model.
- `Dom.HtmlCodec`: JSDOM parsing and serialisation (`innerHTML`) are a pair of function-typed fields that are never given a body. Tag-name case comes from the parsed tree as it stands.
- `Dom.FindFirst`: `querySelector(key)` is modelled as a search for an element whose tag equals the key without regard to ASCII case. Keys that are not simple type selectors are treated as plain tag names, including keys that JSDOM would reject with a syntax error.
- `HtmlEscapes.DecodeEntities`: the textarea round trip decodes a fixed table of entities (`&amp;`, `&lt;`, `&gt;`, `&quot;`, `&apos;`, `&#39;`, `&nbsp;`). It does not cover the full HTML named-entity table, other numeric references, or the parser's newline and NUL normalisation.
- `HtmlEscapes.DecodeIsEntityDecodingThenUnescape`: this is proved only for decoded text without two underscores in a row. Next to an underscore, the source's `___DOUBLE_BACKSLASH___` sentinel can be formed or broken by accident.
- `HtmlEscapes.DecodeEscapedPlaceholder`: this is stated for names in which every underscore is followed by another character that is not an underscore. Names holding `__` or ending in `_` are not covered, because the `___DOUBLE_BACKSLASH___` sentinel can then be formed across the braces.
- `HtmlEscapes.PreprocessJsonData` (and through it `HtmlTemplate.PopulateHtml`): keys named `hasOwnProperty` or `__proto__` are treated as ordinary keys. In the source, an own key `hasOwnProperty` at any depth (`{"a":{"hasOwnProperty":1}}`) shadows the method, so the `data.hasOwnProperty(key)` call throws a TypeError and `populateHTMLFromJSON` throws (html-template.service.ts:252-253). A `__proto__` key is not copied but becomes the prototype of the result (html-template.service.ts:258, 261). Its fields can then still be read through the prototype, as `summaryData.outer` is at html-template.service.ts:162. The model gives neither the error nor the prototype lookup.
- Objects: `JsonData.Value` holds an object as a sequence of fields, so it can hold a key twice, which a JavaScript object cannot. The model does not exclude such input; reads take the first field with the key (`JsonData.Get`), while the population loop visits every field.
- Reason order: the `reasons` record of the filter statistics is a map from reason to count. The source's object also has an order, the order in which each reason was first counted, and that order is not modelled.
- `HtmlTemplate.ReplacePlaceholders`: the key is spliced into a regular expression and the recorded content is used as a replacement string.
  - The model treats both literally. Regular-expression metacharacters in a key and `$` patterns in recorded content are not modelled.
  - The record lookup ignores keys inherited from `Object.prototype` (such as `constructor`).
- `Strings.Lower`: only ASCII letters are lower-cased. `toLowerCase` also folds other scripts, so blacklist and GIF tests on non-ASCII URLs can differ. For the `i` flag of the text-extraction expression, which is not in Unicode mode, ASCII folding is exact.
- Strings are sequences of characters. JavaScript indices count UTF-16 code units, so tag `index` and `length` differ from the source for text outside the Basic Multilingual Plane.
- Numbers: `minSizeKB` is a real and sizes are integers. NaN, infinities and non-numeric values are not modelled.
- `TextExtraction.AsText`: for a value other than a string, `null` or `undefined`, its `String()` form is taken as given (`NonString`). `String()` itself is not modelled.
- `ImageFilter.SortByIndexDescending`: this is the comparator sort applied to the operations the filter builds, whose indices strictly increase. It is stated for such input only, and is not a general sort.
- `ImageFilter.FilterImages`: the body of `filterImages` is split into methods for classification, numbering and splicing. The function's local variables become their parameters and results.
- `TextExtraction.Attempts`: the expression's attempts at every position are a precomputed table (`Attempts`, `SrcAttempts`) rather than computed lazily by `exec`. The results are the same, but the cost is not.
- `TextExtraction.QuotedSrc`: this lemma and `UnquotedSrc` give sufficient conditions for a quote style to be captured: no other `src` appears before the closing `>`. Backtracking to an earlier `src` is covered by `TextExtraction.MatchAtFound` and `LastSrc`.
