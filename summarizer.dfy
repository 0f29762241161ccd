/** The summary of a documented file (`src/summarizer.rs`): which items
    appear in which section of the page, under which titles and link ids,
    the doc-comment text taken from `# !doc` blocks, and the heading rule
    applied to rendered doc comments. */
module Summarizer {
  import opened Wrappers
  import opened Text
  import opened Seqs
  import opened Extractor

  datatype Title = Title(title: string, linkId: string)

  datatype ContentItems = ContentItems(title: Title, items: seq<ItemContent>)

  datatype RenderingContent =
    | RenderedDocumentation(html: string)
    | Items(contentItems: ContentItems)

  datatype ItemLink = ItemLink(title: string, url: string)

  datatype RenderingItem = RenderingItem(links: seq<ItemLink>, content: RenderingContent)

  datatype SectionType = Documentation | Modules | Bindings

  datatype DocumentationSection = DocumentationSection(title: string, sectionType: SectionType, content: seq<RenderingItem>)

  datatype DocumentationSummary = DocumentationSummary(title: string, sections: seq<DocumentationSection>)

  /** A titled group of items, the unit of the bindings section. */
  function Group(title: string, linkId: string, items: seq<ItemContent>): RenderingItem {
    RenderingItem([], Items(ContentItems(Title(title, linkId), items)))
  }

  // ---------------------------------------------------------------------
  // Which items belong to which group
  // ---------------------------------------------------------------------

  predicate IsPublicConstant(item: ItemContent) {
    item.Binding? && item.bindingDef.kind.Const? && item.bindingDef.public
  }

  predicate IsPublicCodeMacro(item: ItemContent) {
    item.Binding? && item.bindingDef.kind.CodeMacro? && item.bindingDef.public
  }

  predicate IsPublicIndexMacro(item: ItemContent) {
    item.Binding? && item.bindingDef.kind.IndexMacro? && item.bindingDef.public
  }

  predicate IsPublicFunctionOf(item: ItemContent, inputs: nat) {
    && item.Binding? && item.bindingDef.kind.Function? && item.bindingDef.public
    && item.bindingDef.kind.definition.Signature().inputs == inputs
  }

  function FunctionOfArity(inputs: nat): ItemContent -> bool {
    item => IsPublicFunctionOf(item, inputs)
  }

  predicate IsDataOrVariant(item: ItemContent) {
    item.Data? || item.Variant?
  }

  predicate IsModuleWithPublicItems(item: ItemContent) {
    item.Module? && HasPublicItems(item.moduleDef)
  }

  // ---------------------------------------------------------------------
  // The filters
  // ---------------------------------------------------------------------

  /** `summarize_constants`: the "Constants" group of the public constants,
      in order, or nothing when there are none. */
  function SummarizeConstants(items: seq<ItemContent>): Option<RenderingItem> {
    var constants := Filter(IsPublicConstant, items);
    if constants == [] then None else Some(Group("Constants", "__constants", constants))
  }

  /** `summarize_functions`: the public functions taking exactly `inputs`
      values, in order, or nothing when there are none. */
  function SummarizeFunctions(items: seq<ItemContent>, inputs: nat): Option<seq<ItemContent>> {
    var functions := Filter(FunctionOfArity(inputs), items);
    if functions == [] then None else Some(functions)
  }

  /** `summarize_index_macros`: the public index macros, in order. */
  function SummarizeIndexMacros(items: seq<ItemContent>): Option<seq<ItemContent>> {
    var macros := Filter(IsPublicIndexMacro, items);
    if macros == [] then None else Some(macros)
  }

  /** `summarize_code_macros`: the public code macros, in order. */
  function SummarizeCodeMacros(items: seq<ItemContent>): Option<seq<ItemContent>> {
    var macros := Filter(IsPublicCodeMacro, items);
    if macros == [] then None else Some(macros)
  }

  /** `summarize_data`: every data and variant item, public or not. */
  function SummarizeData(items: seq<ItemContent>): Option<seq<ItemContent>> {
    var data := Filter(IsDataOrVariant, items);
    if data == [] then None else Some(data)
  }

  /** A module cut down to its public direct items. */
  function PublicPart(m: ModuleDefinition): ModuleDefinition {
    ModuleDefinition(m.name, m.comment, Filter(IsPublicItem, m.items))
  }

  /** `summarize_modules`: the modules with public items, in order, each
      keeping only its public direct items. */
  function SummarizeModules(items: seq<ItemContent>): (r: Option<seq<ItemContent>>)
    ensures r.None? <==> forall k :: 0 <= k < |items| ==> !IsModuleWithPublicItems(items[k])
    ensures r.Some? ==> forall k :: 0 <= k < |r.value| ==> r.value[k].Module?
  {
    var modules := Filter(IsModuleWithPublicItems, items);
    FilterEmpty(IsModuleWithPublicItems, items);
    if modules == [] then None else Some(PublicModules(modules))
  }

  /** Each module cut down to its public direct items. */
  function PublicModules(modules: seq<ItemContent>): (r: seq<ItemContent>)
    requires forall k :: 0 <= k < |modules| ==> modules[k].Module?
    ensures |r| == |modules|
    ensures forall k :: 0 <= k < |r| ==> r[k] == Module(PublicPart(modules[k].moduleDef))
  {
    seq(|modules|, k requires 0 <= k < |modules| => Module(PublicPart(modules[k].moduleDef)))
  }

  // ---------------------------------------------------------------------
  // The bindings section
  // ---------------------------------------------------------------------

  /** The bindings section's candidate groups, in page order: 0 constants,
      1 data types, 2 code macros, 3 index macros, then 4 + n the functions
      taking n values, for n from 0 to 6. */
  const GroupCount: nat := 11

  function GroupTitle(k: nat): string
    requires k < GroupCount
  {
    if k == 0 then "Constants"
    else if k == 1 then "Data types"
    else if k == 2 then "Code macros"
    else if k == 3 then "Index macros"
    else if k == 4 then "Noadic functions"
    else if k == 5 then "Monadic functions"
    else if k == 6 then "Dyadic functions"
    else if k == 7 then "Triadic functions"
    else if k == 8 then "Tetradic functions"
    else if k == 9 then "Pentadic functions"
    else "Hexadic functions"
  }

  function GroupLinkId(k: nat): string
    requires k < GroupCount
  {
    if k == 0 then "__constants"
    else if k == 1 then "__data"
    else if k == 2 then "__code_macros"
    else if k == 3 then "__index_macros"
    else if k == 4 then "__noadic_functions"
    else if k == 5 then "__monadic_functions"
    else if k == 6 then "__dyadic_functions"
    else if k == 7 then "__triadic_functions"
    else if k == 8 then "__tetradic_functions"
    else if k == 9 then "__pentadic_functions"
    else "__hexadic_functions"
  }

  function GroupMember(k: nat): ItemContent -> bool
    requires k < GroupCount
  {
    if k == 0 then IsPublicConstant
    else if k == 1 then IsDataOrVariant
    else if k == 2 then IsPublicCodeMacro
    else if k == 3 then IsPublicIndexMacro
    else FunctionOfArity(k - 4)
  }

  /** The members of candidate group `k`, when there are any. */
  function GroupContent(items: seq<ItemContent>, k: nat): Option<seq<ItemContent>>
    requires k < GroupCount
  {
    var members := Filter(GroupMember(k), items);
    if members == [] then None else Some(members)
  }

  /** Candidate group `k`, titled, when it has members. */
  function CandidateGroup(items: seq<ItemContent>, k: nat): Option<RenderingItem>
    requires k < GroupCount
  {
    var members := GroupContent(items, k);
    if members.Some? then Some(Group(GroupTitle(k), GroupLinkId(k), members.value)) else None
  }

  function Candidates(items: seq<ItemContent>): (r: seq<Option<RenderingItem>>)
    ensures |r| == GroupCount
  {
    seq(GroupCount, k requires 0 <= k < GroupCount => CandidateGroup(items, k))
  }

  /** The values present among `os`, in order. */
  function Present<T>(os: seq<Option<T>>): seq<T>
    decreases |os|
  {
    if os == [] then []
    else Present(os[..|os| - 1]) + (if os[|os| - 1].Some? then [os[|os| - 1].value] else [])
  }

  /** Every non-empty group, in page order. */
  function BindingGroups(items: seq<ItemContent>): seq<RenderingItem> {
    Present(Candidates(items))
  }

  /** `summarize_functions` for `n` inputs computes candidate group `4 + n`. */
  lemma FunctionsAreGroup(items: seq<ItemContent>, n: nat)
    requires n <= 6
    ensures SummarizeFunctions(items, n) == GroupContent(items, n + 4)
  {
  }

  /** `groups` followed by the titled group of `members`, if any. */
  function Push(groups: seq<RenderingItem>, title: string, linkId: string, members: Option<seq<ItemContent>>): seq<RenderingItem> {
    if members.Some? then groups + [Group(title, linkId, members.value)] else groups
  }

  /** One more candidate group, with its title and link id as written:
      pushing it extends the groups present among the first `k` candidates
      to those among the first `k + 1`. */
  lemma CandidatesNext(items: seq<ItemContent>, k: nat, title: string, linkId: string, members: Option<seq<ItemContent>>,
                       before: seq<RenderingItem>, after: seq<RenderingItem>)
    requires k < GroupCount && title == GroupTitle(k) && linkId == GroupLinkId(k)
    requires members == GroupContent(items, k) && before == Present(Candidates(items)[..k])
    requires after == Push(before, title, linkId, members)
    ensures after == Present(Candidates(items)[..k + 1])
  {
    assert Candidates(items)[..k + 1][..k] == Candidates(items)[..k];
  }

  /** The same step for the group of functions taking `n` values. */
  lemma FunctionsNext(items: seq<ItemContent>, n: nat, title: string, linkId: string, before: seq<RenderingItem>, after: seq<RenderingItem>)
    requires n <= 6 && title == GroupTitle(n + 4) && linkId == GroupLinkId(n + 4)
    requires before == Present(Candidates(items)[..n + 4])
    requires after == Push(before, title, linkId, SummarizeFunctions(items, n))
    ensures after == Present(Candidates(items)[..n + 5])
  {
    FunctionsAreGroup(items, n);
    CandidatesNext(items, n + 4, title, linkId, SummarizeFunctions(items, n), before, after);
  }

  /** The data and code-macro groups follow the constants. */
  lemma PushedDataAndCodeMacros(items: seq<ItemContent>, g1: seq<RenderingItem>, g2: seq<RenderingItem>, g3: seq<RenderingItem>)
    requires g1 == Present(Candidates(items)[..1])
    requires g2 == Push(g1, "Data types", "__data", SummarizeData(items))
    requires g3 == Push(g2, "Code macros", "__code_macros", SummarizeCodeMacros(items))
    ensures g3 == Present(Candidates(items)[..3])
  {
    CandidatesNext(items, 1, "Data types", "__data", SummarizeData(items), g1, g2);
    CandidatesNext(items, 2, "Code macros", "__code_macros", SummarizeCodeMacros(items), g2, g3);
  }

  /** The index-macro and noadic-function groups come next. */
  lemma PushedIndexMacrosAndNoadic(items: seq<ItemContent>, g3: seq<RenderingItem>, g4: seq<RenderingItem>, g5: seq<RenderingItem>)
    requires g3 == Present(Candidates(items)[..3])
    requires g4 == Push(g3, "Index macros", "__index_macros", SummarizeIndexMacros(items))
    requires g5 == Push(g4, "Noadic functions", "__noadic_functions", SummarizeFunctions(items, 0))
    ensures g5 == Present(Candidates(items)[..5])
  {
    CandidatesNext(items, 3, "Index macros", "__index_macros", SummarizeIndexMacros(items), g3, g4);
    FunctionsNext(items, 0, "Noadic functions", "__noadic_functions", g4, g5);
  }

  /** Then the monadic and dyadic function groups. */
  lemma PushedMonadicAndDyadic(items: seq<ItemContent>, g5: seq<RenderingItem>, g6: seq<RenderingItem>, g7: seq<RenderingItem>)
    requires g5 == Present(Candidates(items)[..5])
    requires g6 == Push(g5, "Monadic functions", "__monadic_functions", SummarizeFunctions(items, 1))
    requires g7 == Push(g6, "Dyadic functions", "__dyadic_functions", SummarizeFunctions(items, 2))
    ensures g7 == Present(Candidates(items)[..7])
  {
    FunctionsNext(items, 1, "Monadic functions", "__monadic_functions", g5, g6);
    FunctionsNext(items, 2, "Dyadic functions", "__dyadic_functions", g6, g7);
  }

  /** Then the triadic and tetradic function groups. */
  lemma PushedTriadicAndTetradic(items: seq<ItemContent>, g7: seq<RenderingItem>, g8: seq<RenderingItem>, g9: seq<RenderingItem>)
    requires g7 == Present(Candidates(items)[..7])
    requires g8 == Push(g7, "Triadic functions", "__triadic_functions", SummarizeFunctions(items, 3))
    requires g9 == Push(g8, "Tetradic functions", "__tetradic_functions", SummarizeFunctions(items, 4))
    ensures g9 == Present(Candidates(items)[..9])
  {
    FunctionsNext(items, 3, "Triadic functions", "__triadic_functions", g7, g8);
    FunctionsNext(items, 4, "Tetradic functions", "__tetradic_functions", g8, g9);
  }

  /** Then the pentadic and hexadic function groups, the last candidates. */
  lemma PushedPentadicAndHexadic(items: seq<ItemContent>, g9: seq<RenderingItem>, g10: seq<RenderingItem>, g11: seq<RenderingItem>)
    requires g9 == Present(Candidates(items)[..9])
    requires g10 == Push(g9, "Pentadic functions", "__pentadic_functions", SummarizeFunctions(items, 5))
    requires g11 == Push(g10, "Hexadic functions", "__hexadic_functions", SummarizeFunctions(items, 6))
    ensures g11 == Present(Candidates(items)[..11])
  {
    FunctionsNext(items, 5, "Pentadic functions", "__pentadic_functions", g9, g10);
    FunctionsNext(items, 6, "Hexadic functions", "__hexadic_functions", g10, g11);
  }

  /** The constants group, when there is one, comes first. */
  lemma ConstantsFirst(items: seq<ItemContent>, g1: seq<RenderingItem>)
    requires g1 == if SummarizeConstants(items).Some? then [SummarizeConstants(items).value] else []
    ensures g1 == Present(Candidates(items)[..1])
  {
    assert Candidates(items)[..1] == [CandidateGroup(items, 0)];
    assert [CandidateGroup(items, 0)][..0] == [];
  }

  /** Pushing the candidate groups one after the other, as
      `summarize_bindings` does, yields the groups in page order. */
  lemma PushedGroups(items: seq<ItemContent>,
                     g1: seq<RenderingItem>, g2: seq<RenderingItem>, g3: seq<RenderingItem>, g4: seq<RenderingItem>, g5: seq<RenderingItem>, g6: seq<RenderingItem>, g7: seq<RenderingItem>, g8: seq<RenderingItem>, g9: seq<RenderingItem>, g10: seq<RenderingItem>, g11: seq<RenderingItem>)
    requires g1 == if SummarizeConstants(items).Some? then [SummarizeConstants(items).value] else []
    requires g2 == Push(g1, "Data types", "__data", SummarizeData(items))
    requires g3 == Push(g2, "Code macros", "__code_macros", SummarizeCodeMacros(items))
    requires g4 == Push(g3, "Index macros", "__index_macros", SummarizeIndexMacros(items))
    requires g5 == Push(g4, "Noadic functions", "__noadic_functions", SummarizeFunctions(items, 0))
    requires g6 == Push(g5, "Monadic functions", "__monadic_functions", SummarizeFunctions(items, 1))
    requires g7 == Push(g6, "Dyadic functions", "__dyadic_functions", SummarizeFunctions(items, 2))
    requires g8 == Push(g7, "Triadic functions", "__triadic_functions", SummarizeFunctions(items, 3))
    requires g9 == Push(g8, "Tetradic functions", "__tetradic_functions", SummarizeFunctions(items, 4))
    requires g10 == Push(g9, "Pentadic functions", "__pentadic_functions", SummarizeFunctions(items, 5))
    requires g11 == Push(g10, "Hexadic functions", "__hexadic_functions", SummarizeFunctions(items, 6))
    ensures g11 == BindingGroups(items)
  {
    ConstantsFirst(items, g1);
    PushedDataAndCodeMacros(items, g1, g2, g3);
    PushedIndexMacrosAndNoadic(items, g3, g4, g5);
    PushedMonadicAndDyadic(items, g5, g6, g7);
    PushedTriadicAndTetradic(items, g7, g8, g9);
    PushedPentadicAndHexadic(items, g9, g10, g11);
    assert Candidates(items)[..GroupCount] == Candidates(items);
  }

  /** `summarize_bindings`: pushes each non-empty group in turn. */
  method SummarizeBindings(items: seq<ItemContent>) returns (r: Option<seq<RenderingItem>>)
    ensures r == Some(BindingGroups(items))
  {
    var results: seq<RenderingItem> := [];
    var constants := SummarizeConstants(items);
    if constants.Some? {
      results := results + [constants.value];
    }
    ghost var g1 := results;
    var data := SummarizeData(items);
    results := Push(results, "Data types", "__data", data);
    ghost var g2 := results;
    var codeMacros := SummarizeCodeMacros(items);
    results := Push(results, "Code macros", "__code_macros", codeMacros);
    ghost var g3 := results;
    var indexMacros := SummarizeIndexMacros(items);
    results := Push(results, "Index macros", "__index_macros", indexMacros);
    ghost var g4 := results;
    var noadic := SummarizeFunctions(items, 0);
    results := Push(results, "Noadic functions", "__noadic_functions", noadic);
    ghost var g5 := results;
    var monadic := SummarizeFunctions(items, 1);
    results := Push(results, "Monadic functions", "__monadic_functions", monadic);
    ghost var g6 := results;
    var dyadic := SummarizeFunctions(items, 2);
    results := Push(results, "Dyadic functions", "__dyadic_functions", dyadic);
    ghost var g7 := results;
    var triadic := SummarizeFunctions(items, 3);
    results := Push(results, "Triadic functions", "__triadic_functions", triadic);
    ghost var g8 := results;
    var tetradic := SummarizeFunctions(items, 4);
    results := Push(results, "Tetradic functions", "__tetradic_functions", tetradic);
    ghost var g9 := results;
    var pentadic := SummarizeFunctions(items, 5);
    results := Push(results, "Pentadic functions", "__pentadic_functions", pentadic);
    ghost var g10 := results;
    var hexadic := SummarizeFunctions(items, 6);
    results := Push(results, "Hexadic functions", "__hexadic_functions", hexadic);
    ghost var g11 := results;
    PushedGroups(items, g1, g2, g3, g4, g5, g6, g7, g8, g9, g10, g11);
    return Some(results);
  }

  // ---------------------------------------------------------------------
  // Doc comments
  // ---------------------------------------------------------------------

  predicate IsDocWords(item: ItemContent) {
    item.Words? && StartsWith(item.code, "# !doc")
  }

  /** One line of a doc block without its `# !doc` markers, its leading
      `#` characters and its surrounding whitespace. */
  function CleanDocLine(line: string): (r: string)
    ensures Trimmed(r)
  {
    Trim(TrimStartMatches(TrimStartMatches(line, "# !doc"), "#"))
  }

  /** A line made of `# !doc` markers, then `#` characters, then whitespace,
      then text `t` cleans to `t`, provided the markers are all there are and
      `t` is trimmed and does not start with `#`. */
  lemma CleanDocLineOfMarkedLine(markers: string, hashes: string, w: string, t: string)
    requires IsRepeatOf(markers, "# !doc") && IsRepeatOf(hashes, "#")
    requires !StartsWith(hashes + w + t, "# !doc")
    requires AllWhitespace(w) && Trimmed(t) && (t == [] || t[0] != '#')
    ensures CleanDocLine(markers + hashes + w + t) == t
  {
    assert PaddedBy(w, t, '#');
    PaddedText(w, t, '#');
    AppendAssoc(markers, hashes, w, t);
    StripMarkers(markers, hashes, w + t, "# !doc", '#');
  }

  function CleanDocLines(lines: seq<string>): (r: seq<string>)
    ensures |r| == |lines| && forall k :: 0 <= k < |lines| ==> r[k] == CleanDocLine(lines[k])
  {
    seq(|lines|, k requires 0 <= k < |lines| => CleanDocLine(lines[k]))
  }

  /** The text of a doc block: its cleaned lines joined with newlines, and
      the whole trimmed. */
  function DocText(code: string): (r: string)
    ensures Trimmed(r)
  {
    Trim(Join(CleanDocLines(Lines(code)), "\n"))
  }

  /** `extract_doc_comments`: the text of each top-level words item that
      starts with `# !doc`, in order. */
  function ExtractDocComments(items: seq<ItemContent>): (r: seq<string>)
    ensures |r| == |Filter(IsDocWords, items)|
    ensures forall k :: 0 <= k < |r| ==> r[k] == DocText(Filter(IsDocWords, items)[k].code)
  {
    var docs := Filter(IsDocWords, items);
    seq(|docs|, k requires 0 <= k < |docs| => DocText(docs[k].code))
  }

  /** There are no doc texts exactly when no item is a `# !doc` block, and
      every doc text is trimmed at both ends. */
  lemma ExtractDocCommentsShape(items: seq<ItemContent>)
    ensures ExtractDocComments(items) == [] <==> forall k :: 0 <= k < |items| ==> !IsDocWords(items[k])
    ensures forall k :: 0 <= k < |ExtractDocComments(items)| ==> Trimmed(ExtractDocComments(items)[k])
  {
    FilterEmpty(IsDocWords, items);
  }

  // ---------------------------------------------------------------------
  // Headings of rendered doc comments
  // ---------------------------------------------------------------------

  /** The level a heading tag is rewritten to: one level deeper, and `h6`
      for everything from `h5` on. */
  function PromoteHeading(tag: string): string {
    if tag == "h1" then "h2"
    else if tag == "h2" then "h3"
    else if tag == "h3" then "h4"
    else if tag == "h4" then "h5"
    else "h6"
  }

  function HeadingTag(level: nat): string
    requires 1 <= level <= 6
  {
    ['h', ('0' as int + level) as char]
  }

  /** Heading `k` becomes heading `min(k + 1, 6)`. */
  lemma PromoteHeadingLevel(level: nat)
    requires 1 <= level <= 6
    ensures PromoteHeading(HeadingTag(level)) == HeadingTag(if level < 6 then level + 1 else 6)
  {
  }

  /** The anchor of a heading: its text lower-cased with spaces as dashes. */
  function Slug(text: string): (r: string)
    ensures |r| == |text|
    ensures forall i :: 0 <= i < |r| ==> r[i] != ' ' && !('A' <= r[i] <= 'Z')
    ensures forall i :: 0 <= i < |r| ==> (text[i] == ' ' <==> r[i] == '-') || text[i] == '-'
    ensures forall i :: 0 <= i < |r| ==>
              r[i] == (if text[i] == ' ' then '-' else if 'A' <= text[i] <= 'Z' then (text[i] as int + 32) as char else text[i])
  {
    ReplaceChar(ToLowerAscii(text), ' ', '-')
  }

  datatype Heading = Heading(tag: string, text: string)

  /** The rewritten heading's id and its table-of-contents link: only a
      heading that becomes `h2` gets one. */
  function HeadingLink(h: Heading): (r: Option<ItemLink>)
    ensures r.Some? <==> h.tag == "h1"
    ensures r.Some? ==> r.value == ItemLink(h.text, "#" + Slug(h.text))
  {
    if PromoteHeading(h.tag) == "h2" then Some(ItemLink(h.text, "#" + Slug(h.text))) else None
  }

  predicate IsTopHeading(h: Heading) {
    h.tag == "h1"
  }

  /** The links of a rendered doc comment, one per heading in document
      order that gets an id. */
  function HeadingLinks(hs: seq<Heading>): seq<ItemLink>
    decreases |hs|
  {
    if hs == [] then []
    else
      var l := HeadingLink(hs[|hs| - 1]);
      HeadingLinks(hs[..|hs| - 1]) + (if l.Some? then [l.value] else [])
  }

  /** The links are those of the top-level headings, in order. */
  lemma {:induction false} HeadingLinksOfTopHeadings(hs: seq<Heading>)
    ensures var tops := Filter(IsTopHeading, hs);
      |HeadingLinks(hs)| == |tops|
      && forall k :: 0 <= k < |tops| ==> HeadingLinks(hs)[k] == ItemLink(tops[k].text, "#" + Slug(tops[k].text))
    decreases |hs|
  {
    if hs != [] {
      HeadingLinksOfTopHeadings(hs[..|hs| - 1]);
    }
  }

  // ---------------------------------------------------------------------
  // The page
  // ---------------------------------------------------------------------

  /** What the Markdown renderer and the HTML parser give for one doc
      comment: its headings in document order, and the whole document
      serialized after each heading was rewritten. */
  datatype RenderedComment = RenderedComment(headings: seq<Heading>, document: string)

  const DocumentOpen: string := "<html><head></head><body>"
  const DocumentClose: string := "</body></html>"

  /** The serialized document without the wrapper the parser adds. */
  function StripDocumentWrapper(document: string): string {
    Replace(Replace(document, DocumentOpen, ""), DocumentClose, "")
  }

  /** A document that holds neither half of the wrapper is kept as it is. */
  lemma StripDocumentWrapperAbsent(document: string)
    requires !ContainsSub(document, DocumentOpen) && !ContainsSub(document, DocumentClose)
    ensures StripDocumentWrapper(document) == document
  {
    ReplaceAbsent(document, DocumentOpen, "");
    ReplaceAbsent(document, DocumentClose, "");
  }

  /** `summarize_doc_comment`: the links of the rewritten headings and the
      cleaned document. */
  function SummarizeDocComment(rendered: RenderedComment): RenderingItem {
    RenderingItem(HeadingLinks(rendered.headings), RenderedDocumentation(StripDocumentWrapper(rendered.document)))
  }

  /** `summarize_doc_comments`, with the rendering of one doc comment given
      as `render`. */
  function SummarizeDocComments(items: seq<ItemContent>, render: string -> RenderedComment): (r: Option<DocumentationSection>)
    ensures r.None? <==> ExtractDocComments(items) == []
    ensures r.Some? ==> r.value.title == "Documentation" && r.value.sectionType == Documentation
    ensures r.Some? ==> |r.value.content| == |ExtractDocComments(items)|
    ensures r.Some? ==> forall k :: 0 <= k < |r.value.content| ==>
              r.value.content[k] == SummarizeDocComment(render(ExtractDocComments(items)[k]))
  {
    var docs := ExtractDocComments(items);
    if docs == [] then None
    else Some(DocumentationSection("Documentation", Documentation,
                                   seq(|docs|, k requires 0 <= k < |docs| => SummarizeDocComment(render(docs[k])))))
  }

  /** The sections of a page, in order: documentation when there is any,
      modules when some module has public items, and always bindings. */
  function PageSections(items: seq<ItemContent>, render: string -> RenderedComment): seq<DocumentationSection> {
    var modules := SummarizeModules(items);
    Page(SummarizeDocComments(items, render),
         if modules.Some? then Some(DocumentationSection("Modules", Modules, ModuleEntries(modules.value))) else None,
         DocumentationSection("Bindings", Bindings, BindingGroups(items)))
  }

  /** The optional documentation and modules sections followed by the
      bindings section. */
  function Page(docs: Option<DocumentationSection>, modules: Option<DocumentationSection>, bindings: DocumentationSection): seq<DocumentationSection> {
    (if docs.Some? then [docs.value] else []) + (if modules.Some? then [modules.value] else []) + [bindings]
  }

  /** One entry per module, titled and anchored by the module's name. */
  function ModuleEntries(modules: seq<ItemContent>): (r: seq<RenderingItem>)
    requires forall k :: 0 <= k < |modules| ==> modules[k].Module?
    ensures |r| == |modules|
  {
    seq(|modules|, k requires 0 <= k < |modules| =>
      var name := modules[k].moduleDef.name;
      RenderingItem([], Items(ContentItems(Title(name, name), [modules[k]]))))
  }

  /** `summarize_content`: pushes the sections in turn. */
  method SummarizeContent(items: seq<ItemContent>, title: string, render: string -> RenderedComment)
    returns (summary: DocumentationSummary)
    ensures summary == DocumentationSummary(title, PageSections(items, render))
  {
    var sections: seq<DocumentationSection> := [];
    var documentation := SummarizeDocComments(items, render);
    if documentation.Some? {
      sections := sections + [documentation.value];
      assert sections == [documentation.value];
    }
    var modules := SummarizeModules(items);
    if modules.Some? {
      sections := sections + [DocumentationSection("Modules", Modules, ModuleEntries(modules.value))];
    }
    var bindings := SummarizeBindings(items);
    if bindings.Some? {
      sections := sections + [DocumentationSection("Bindings", Bindings, bindings.value)];
    }
    return DocumentationSummary(title, sections);
  }
}
