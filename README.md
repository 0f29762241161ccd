# Documentation model of uiua-doc-gen, in Dafny

uiua-doc-gen turns a Uiua library into a static documentation site. This
project models the part between the Uiua compiler and the HTML templates:

- **extraction** (`Extractor`, `ExtractorProofs`). The parsed items of a file
  and the compiler's binding registry become documented items. This covers:
  - constants,
  - functions with their inputs and outputs reconciled from the arity, the
    doc comment and the constructor fields,
  - index and code macros,
  - modules, data types, variants and imports,
  - runs of code words.
- **summary** (`Summarizer`, `SummarizerProofs`). The documented items are
  grouped into the sections and titled groups of a page. The model also
  covers:
  - the `# !doc` blocks,
  - how rendered doc-comment headings are promoted and anchored.
- **code-line layout** (`Formatter`). A `CodeLines` object is laid out as
  lines of fragments from the graphemes of the source and the spans the
  compiler classifies. The module also holds the highlight class rules.
- **the JSON extractor binary** (`JsonExtractor`, `JsonExtractorProofs`). An
  older walk over the syntax tree of an earlier compiler release, which writes
  JSON objects. It is kept apart from `Extractor` because it behaves
  differently:
  - it cuts words at blank lines;
  - it emits bindings of every kind;
  - its `get_words_as_code_2` takes lines of words.

The shared modules are:

- `Wrappers`: `Option`, and `Outcome`, which models a panic.
- `Text`: Rust's string operations, including `split`, `lines`, `replace` and
  `trim`.
- `Seqs`: filtering and flattening.
- `Frontend`: what the compiler hands over; all of it is plain input here.

The form follows the source:

- `CodeLines` is a class whose methods update its `frags` field.
- The loops of `handle_ast_items`, `push_unspanned`, the span walk, the
  cleanup, `get_binding_info` and `signature_comment_to_object` are
  methods with loops.
- `summarize_bindings` and `summarize_content` have no loop. They push one
  section at a time, and so do `Summarizer.SummarizeBindings` and
  `Summarizer.SummarizeContent`.
- Most of those methods are proved equal to a specification function, and
  the source's promises are then proved about that function. Two are not:
  `Formatter.PushUnspanned` and `Formatter.LayOutSpans` state the text
  shown and the number of lines added, not the new `frags` themselves.
  For the span walk these are `Formatter.RenderedCode` and
  `Formatter.RenderedCodeBreaks`.
- The filters, the reconciler and the class maps are functions.

The two indexes for a modifier's class disagree at zero operands:

- `modifier_class` (src/formatter.rs:41-47) calls it monadic;
- `IndexMacroDefinition::color_class` (src/extractor.rs:213-221) calls it
  triadic.

`Formatter.ModifierClassAgrees` states both the agreement from one operand up
and the disagreement at zero.

## Model

| member | source | states |
|---|---|---|
| Extractor.ShowSignatureRoundTrip | src/extractor.rs:27-35 | the `Display` form of an arity, `\|n` for one output and `\|n.m` otherwise, reads back as that arity, so it determines the arity |
| Extractor.CoerceVectorLength | src/extractor.rs:316-320 | the result has exactly the requested length; it holds the input's elements as `Some` where they exist and `None` past the input's end |
| Extractor.ReconcileFunctionDefinition | src/extractor.rs:295-399 | there are exactly as many required inputs as the arity's inputs and as many outputs as its outputs, however many names are given |
| Extractor.DefaultInputsNamed | src/extractor.rs:300-326 | there is one made-up input per arity slot, all inferred: `Input` for arity 1 and `Input1`..`InputN` otherwise |
| Extractor.DefaultOutputsNamed | src/extractor.rs:309-332 | there is one made-up output per arity slot: `Output` for arity 1 and `Output1`..`OutputN` otherwise |
| Extractor.DefaultNamesDistinct | src/extractor.rs:322-332 | the made-up names of two different slots differ |
| Extractor.ReconcileRequiredInputs | src/extractor.rs:348-367 | with neither a field name nor a comment name, a required slot keeps its default. Otherwise it takes the field name, else the comment name, and is neither optional nor inferred. It keeps the comment name aside exactly when that name differs from the chosen one |
| Extractor.ReconcileOptionalInputs | src/extractor.rs:342-376 | the optional inputs are exactly the non-required named arguments, in order, optional and not inferred; they take no arity slot |
| Extractor.ReconcileOutputs | src/extractor.rs:378-392 | output i takes the comment's output name at i when there is one, not inferred; otherwise it keeps the made-up output |
| Extractor.ReconcileSignature | src/extractor.rs:188-193 | `signature()` of the reconciled definition is the arity it was built from |
| Extractor.ReconcileInputs | src/extractor.rs:195-199 | `inputs()` has the required slots first, none of them optional, then the optional inputs, all optional |
| Extractor.FindBinding | src/extractor.rs:278-280 | gives nothing exactly when no registry entry has the span; otherwise the first entry with the span |
| Extractor.GetWordsAsCode2 | src/extractor.rs:282-293 | gives nothing exactly when there are no words. Otherwise the lines are where the first and last words end, and the text is the source from the first word to the last with every CRLF replaced by LF (a text without CRLF is kept as it is) |
| Extractor.BindingTypeOf | src/extractor.rs:448-476 | a registry kind has no documented kind exactly when it is a module, an import, a scope or an error |
| Extractor.ConstructorArguments | src/extractor.rs:536-545 | there is one named argument per field, with the field's source name, required exactly when the field has no initializer |
| Extractor.DataDefToItem | src/extractor.rs:508-584 | a converted data definition is never a words item |
| Extractor.DataDefsToItems | src/extractor.rs:488-492 | when no definition panics, there is one item per definition and none is a words item |
| Extractor.DataDefsPanicPrefix | src/extractor.rs:488-492 | once a prefix of the definitions panics, the whole loop panics the same way |
| Extractor.AnyPublicExists | src/extractor.rs:106-114 | a module has public items exactly when one of its items is a public binding, a data item, a variant, or a module that has public items |
| Extractor.ItemOutput | src/extractor.rs:433-499 | whatever an item other than words contributes holds no words item |
| Extractor.FoldPanicPrefix | src/extractor.rs:412-499 | once a prefix of the items panics, the whole walk panics the same way |
| Extractor.HandleAstItems | src/extractor.rs:412-506 | the loop with its `results`, `word_lines` and `last_line` state computes `Extract`, the fold that the `ExtractorProofs` lemmas describe |
| Extractor.HandleItem | src/extractor.rs:418-499 | one turn of the loop computes one step of the fold, for every kind of item |
| Extractor.HandleDataDefs | src/extractor.rs:488-492 | the loop over a data item's definitions computes their items in order, or the first panic |
| ExtractorProofs.Groups | src/extractor.rs:418-431 | runs of chunks exist exactly when chunks do, and no run is empty |
| ExtractorProofs.GroupsFlatten | src/extractor.rs:418-431 | the runs hold all the chunks, in order, and nothing else |
| ExtractorProofs.GroupsLast | src/extractor.rs:418-431 | the last run ends with the last chunk |
| ExtractorProofs.GroupsContiguousWithin | src/extractor.rs:419-421 | within a run, each chunk starts on the line after the one the previous chunk ends on |
| ExtractorProofs.GroupsBreakBetween | src/extractor.rs:423-428 | each run after the first starts with a chunk that does not follow on from the end of the previous run |
| ExtractorProofs.GroupsSnoc | src/extractor.rs:419-429 | one more chunk either extends the last run, when it is contiguous, or starts a new one |
| ExtractorProofs.AddChunkDescribed | src/extractor.rs:419-429 | adding a chunk keeps the invariant: finished runs are emitted as words, the last run is in the buffer, and the other items are unchanged |
| ExtractorProofs.ChunkStartsRuns | src/extractor.rs:419-422 | the first chunk starts the buffer |
| ExtractorProofs.ChunkExtendsRun | src/extractor.rs:419-422 | a contiguous chunk joins the buffer |
| ExtractorProofs.ChunkStartsRun | src/extractor.rs:423-428 | a non-contiguous chunk emits the buffer joined with newlines and restarts it |
| ExtractorProofs.OutputDescribed | src/extractor.rs:433-499 | another item's output keeps the words invariant and is appended to the other items |
| ExtractorProofs.FoldDescribed | src/extractor.rs:412-503 | the fold panics exactly when some item panics; otherwise its state holds every item's own output in order and the runs of the chunks |
| ExtractorProofs.ExtractDecomposition | src/extractor.rs:412-506 | with the words left aside, the walk's result is each item's own output in item order. The words items are the runs of contiguous chunks, each joined with newlines. It panics exactly when an item does |
| ExtractorProofs.ItemOutputCases | src/extractor.rs:432-498 | these give nothing: test modules; bindings and modules missing from the registry; bindings of module, import, scope or error kind. A documentable binding gives one binding with its name and visibility. An import gives one import. A data item gives one item per definition |
| ExtractorProofs.DataDefPanics | src/extractor.rs:508-573 | a data definition aborts the run exactly in these cases: a named one is missing from the registry; a constructor lacks metadata, a module binding, a `Call` function or fields; or it is an anonymous variant |
| ExtractorProofs.DataDefShape | src/extractor.rs:537-583 | with a constructor it becomes a function binding with the definition's visibility. Otherwise it becomes a variant or a data item, as its flag says, with a field definition exactly when it has fields |
| ExtractorProofs.ConstructorArgumentsOptional | src/extractor.rs:542-545 | the optional arguments are the fields with an initializer, in order |
| ExtractorProofs.ConstructorArgumentsRequired | src/extractor.rs:542-545 | the required arguments are the fields without one, in order |
| ExtractorProofs.ConstructorInputs | src/extractor.rs:536-555 | a constructor's optional inputs are its initialized fields, in order, and its required inputs draw their names from the other fields |
| ExtractorProofs.WordsAfterLaterBinding | src/extractor.rs:418-503 | words on line 1, then a binding on line 2, then words on line 5: the first words are emitted after the binding |
| Summarizer.SummarizeModules | src/summarizer.rs:436-484 | gives nothing exactly when no item is a module with public items; otherwise it gives modules only. Which modules, and in what order, is proved in `SummarizerProofs.AllModulesListed` and `SummarizerProofs.ModulesInItemOrder` |
| Summarizer.PublicModules | src/summarizer.rs:452-483 | each module keeps its name and comment and only its public direct items |
| Summarizer.Candidates | src/summarizer.rs:200-338 | there are eleven candidate groups |
| Summarizer.FunctionsAreGroup | src/summarizer.rs:369-389 | `summarize_functions(n)` for n up to 6 is candidate group 4 + n |
| Summarizer.CandidatesNext | src/summarizer.rs:200-335 | pushing candidate group k, with its title and link id as written, extends the groups present among the first k candidates to the first k + 1 |
| Summarizer.FunctionsNext | src/summarizer.rs:246-335 | the same step for the group of functions taking n values |
| Summarizer.ConstantsFirst | src/summarizer.rs:203-205 | the constants group, when there is one, comes first |
| Summarizer.PushedDataAndCodeMacros | src/summarizer.rs:207-231 | data types, then code macros, follow the constants |
| Summarizer.PushedIndexMacrosAndNoadic | src/summarizer.rs:233-257 | index macros, then noadic functions, come next |
| Summarizer.PushedMonadicAndDyadic | src/summarizer.rs:259-283 | then monadic and dyadic functions |
| Summarizer.PushedTriadicAndTetradic | src/summarizer.rs:285-309 | then triadic and tetradic functions |
| Summarizer.PushedPentadicAndHexadic | src/summarizer.rs:311-335 | then pentadic and hexadic functions, the last groups |
| Summarizer.PushedGroups | src/summarizer.rs:200-338 | the eleven pushes in `summarize_bindings`' order give exactly the non-empty groups in page order |
| Summarizer.SummarizeBindings | src/summarizer.rs:200-338 | the method always gives `Some`, holding the non-empty groups in page order |
| Summarizer.CleanDocLines | src/summarizer.rs:185-188 | each line of a doc block is cleaned on its own, into the same number of lines |
| Summarizer.CleanDocLine | src/summarizer.rs:187 | a cleaned line has no whitespace at either end |
| Summarizer.CleanDocLineOfMarkedLine | src/summarizer.rs:187 | a line made of `# !doc` markers, then `#` characters, then whitespace, then text cleans to exactly that text, when the text is trimmed and does not start with `#` and no further marker follows the first ones |
| Summarizer.DocText | src/summarizer.rs:185-191 | the text of a doc block has no whitespace at either end |
| Summarizer.ExtractDocCommentsShape | src/summarizer.rs:179-198 | there are no doc texts exactly when no item is a words item starting with `# !doc`, and every doc text is trimmed at both ends |
| Summarizer.ExtractDocComments | src/summarizer.rs:179-198 | there is one text per top-level words item starting with `# !doc`, in order. Each text is the item's lines with the markers, the leading `#`s and the whitespace stripped, joined with newlines, then trimmed |
| Summarizer.PromoteHeadingLevel | src/summarizer.rs:141-147 | heading k becomes heading k + 1, and h6 stays h6 |
| Summarizer.Slug | src/summarizer.rs:153-154 | the id has the heading text's length and holds no space and no upper-case letter. Character by character, a space becomes a dash, an ASCII capital becomes its lower-case letter, and anything else is kept |
| Summarizer.HeadingLink | src/summarizer.rs:153-161 | a heading gets an id and a link exactly when it becomes h2, that is, when it was h1; the link is `#` followed by the id |
| Summarizer.HeadingLinksOfTopHeadings | src/summarizer.rs:135-165 | the links of a doc comment are those of its h1 headings, in document order |
| Summarizer.StripDocumentWrapperAbsent | src/summarizer.rs:171 | a document holding neither half of the wrapper is kept as it is |
| Summarizer.SummarizeDocComments | src/summarizer.rs:108-126 | the documentation section is missing exactly when there are no `# !doc` blocks; otherwise it is titled "Documentation" and its k-th entry is the rendering of the k-th block |
| Summarizer.ModuleEntries | src/summarizer.rs:68-91 | there is one entry per listed module |
| Summarizer.SummarizeContent | src/summarizer.rs:61-106 | the method pushes the sections in page order under the given title |
| SummarizerProofs.PresentMembers | src/summarizer.rs:200-338 | a value is present exactly when some candidate holds it |
| SummarizerProofs.PresentSubsequence | src/summarizer.rs:200-338 | the present values keep the candidates' order |
| SummarizerProofs.FilterSummaryHolds | src/summarizer.rs:340-498 | a filter gives nothing exactly when no item qualifies; otherwise it gives the qualifying items as a subsequence of the items. Each qualifying item appears as many times as it occurs among the items, and nothing else appears |
| SummarizerProofs.SummarizeConstantsContents | src/summarizer.rs:340-367 | the constants group exists exactly when some public constant does. It is titled "Constants" with link id `__constants` and holds the public constants as a subsequence of the items. Each qualifying item appears as many times as it occurs among the items, and nothing else appears |
| SummarizerProofs.SummarizeFunctionsContents | src/summarizer.rs:369-389 | the functions for n inputs are exactly the public functions whose `signature().inputs` is n, as a subsequence of the items. Each qualifying item appears as many times as it occurs among the items, and nothing else appears |
| SummarizerProofs.SummarizeIndexMacrosContents | src/summarizer.rs:391-409 | the public index macros as a subsequence of the items. Each qualifying item appears as many times as it occurs among the items, and nothing else appears |
| SummarizerProofs.SummarizeCodeMacrosContents | src/summarizer.rs:411-434 | the public code macros as a subsequence of the items. Each qualifying item appears as many times as it occurs among the items, and nothing else appears |
| SummarizerProofs.SummarizeDataContents | src/summarizer.rs:486-498 | the data and variant items, public or not, as a subsequence of the items. Each qualifying item appears as many times as it occurs among the items, and nothing else appears |
| SummarizerProofs.GroupMemberIff | src/summarizer.rs:200-434 | candidate group k holds an item exactly when the by-kind reference rule `GroupOf` assigns it group k |
| SummarizerProofs.GroupsDisjoint | src/summarizer.rs:200-434 | no item belongs to two groups |
| SummarizerProofs.AllGroups | src/summarizer.rs:200-338 | there are eleven groups in the full page order |
| SummarizerProofs.BindingGroupsAreNonEmptyCandidates | src/summarizer.rs:200-338 | a group appears in the bindings section exactly when it is a candidate with members |
| SummarizerProofs.BindingGroupsInPageOrder | src/summarizer.rs:200-338 | the groups follow the page order constants, data types, code macros, index macros, then functions by inputs; each appears at most once and none is empty |
| SummarizerProofs.ListedBindings | src/summarizer.rs:200-338 | an item is listed in some group exactly when it is one of the file's items and has a group |
| SummarizerProofs.UnlistedBindings | src/summarizer.rs:369-389 | private bindings, and public functions with more than six inputs, are listed nowhere |
| SummarizerProofs.PublicPartPublic | src/summarizer.rs:461-473 | cutting a module with public items down keeps its name and comment, keeps it non-empty, and leaves only public items |
| SummarizerProofs.ListedModules | src/summarizer.rs:436-484 | each listed module is some module of the file that has public items, cut down to its public direct items, of which it keeps at least one |
| SummarizerProofs.AllModulesListed | src/summarizer.rs:436-484 | every module of the file that has public items is listed, cut down to its public direct items |
| SummarizerProofs.ModulesInItemOrder | src/summarizer.rs:436-484 | entry k is the module at the k-th position that holds a module with public items. These positions increase, and every such position is one of them |
| SummarizerProofs.PublicPartIdempotent | src/summarizer.rs:461-473 | cutting a module down twice is cutting it once |
| SummarizerProofs.PublicModulesIdempotent | src/summarizer.rs:452-483 | the same for a list of modules |
| SummarizerProofs.SummarizeModulesIdempotent | src/summarizer.rs:436-484 | summarizing the listed modules again changes nothing |
| SummarizerProofs.SectionTypes | src/summarizer.rs:61-106 | there is one section type per section |
| SummarizerProofs.PageSectionsOrder | src/summarizer.rs:61-106 | the sections are Documentation when there are `# !doc` blocks, then Modules when some module has public items, then always Bindings |
| SummarizerProofs.PageEndsWithBindings | src/summarizer.rs:94-100 | the last section is the Bindings section, holding the binding groups |
| SummarizerProofs.ModuleEntriesShape | src/summarizer.rs:68-91 | each module entry is titled and anchored by the module's name and holds that module alone |
| SummarizerProofs.DocCommentLinks | src/summarizer.rs:128-177 | a doc comment's links are those of its h1 headings, in order, each pointing at the slug of its text |
| Formatter.LineTexts | src/formatter.rs:16-19 | there is one text per line |
| Formatter.ShownReplaceLast | src/formatter.rs:21-32 | replacing the last line by one that shows s more makes the lines show s more |
| Formatter.ShownNewLine | src/formatter.rs:33-38 | a new empty line adds one line break to the text shown |
| Formatter.WithFragment | src/formatter.rs:21-23 | pushing a fragment keeps the earlier lines, appends the fragment to the current line and adds that fragment's text |
| Formatter.WithText | src/formatter.rs:24-32 | `push_str(s)` keeps the earlier lines. A trailing plain fragment is extended by s; after any other fragment a new plain fragment s is pushed. Exactly s is added to the text shown |
| Formatter.Marked | src/formatter.rs:33-36 | an empty last line becomes `[Br]` and a non-empty one is kept; the earlier lines and the text shown are unchanged |
| Formatter.WithNewLine | src/formatter.rs:33-38 | `new_line` leaves the earlier lines untouched, turns an empty current line into `[Br]`, adds exactly one empty line and adds one line break to the text shown |
| Formatter.CodeLines.constructor | src/formatter.rs:86 | the lines start as one empty line |
| Formatter.CodeLines.PushToLine | src/formatter.rs:21-23 | pushing onto `line()` is `WithFragment` |
| Formatter.CodeLines.PushStr | src/formatter.rs:27-32 | `push_str` needs a fragment on the current line and is `WithText` |
| Formatter.CodeLines.NewLine | src/formatter.rs:33-38 | `new_line` is `WithNewLine` |
| Formatter.Consumed | src/formatter.rs:99-116 | consuming one more grapheme adds its text, and adds one to the line-feed count when it is a line feed |
| Formatter.PushNewlines | src/formatter.rs:105-111 | the line-feed branch adds one new line per line feed it consumes and shows what it consumed |
| Formatter.BreakLines | src/formatter.rs:105-110 | one new line for the line feed at the position and for each line feed directly after it, stopping at the target or at the first other grapheme; the lines then show exactly what was consumed |
| Formatter.FlushAndBreak | src/formatter.rs:100-112 | pending plain text is written out before the new lines |
| Formatter.UnspannedStep | src/formatter.rs:99-116 | one turn of the loop keeps the layout invariant and advances |
| Formatter.PushUnspanned | src/formatter.rs:92-121 | the target is clamped to the code's length. When the position is already at or past the target, nothing changes. Otherwise the walk ends exactly at the target, adds one line per line feed consumed, and shows exactly the graphemes consumed. Either way the lines added are the line breaks of the gap |
| Formatter.NewlineCountAppend | src/formatter.rs:99-116 | line feeds are counted additively across a concatenation |
| Formatter.NewlineCountSlices | src/formatter.rs:99-116 | the same for adjacent slices |
| Formatter.PushNewlineSpan | src/formatter.rs:133-137 | a span made only of line feeds calls `new_line` once per character and adds exactly those line feeds |
| Formatter.PushSpanLines | src/formatter.rs:138-145 | any other span's lines are shown joined by line breaks, with one new line between consecutive lines |
| Formatter.PushSpan | src/formatter.rs:133-145 | a span adds its shown text and its line breaks |
| Formatter.Cleaned | src/formatter.rs:152-154 | the cleanup keeps the line count, filters each line, and leaves no empty plain fragment |
| Formatter.Cleanup | src/formatter.rs:152-154 | the retain loop is `Cleaned` of the old lines |
| Formatter.LastLines | src/formatter.rs:156-160 | truncation keeps the last n lines, or all of them when there are fewer |
| Formatter.Truncate | src/formatter.rs:156-160 | the method is `LastLines` of the old lines |
| Formatter.LayOutSpan | src/formatter.rs:126-147 | one turn of the span loop: after span `i` and the gap before it, the text shown is the rendered code of the first `i + 1` spans, and the lines are one more than their line breaks |
| Formatter.LayOutSpans | src/formatter.rs:123-150 | starting from one empty line, the span walk and the final plain text show exactly the rendered code. The number of lines is one more than the rendered line breaks: one per line feed in each gap, plus each span's breaks |
| Formatter.BuildCodeLines | src/formatter.rs:85-163 | the layout shows the rendered code and has one line more than its rendered line breaks. The result is that layout truncated to the code's line count, holds no empty plain fragment, and has at most `code.lines().count()` lines |
| Formatter.KeptLineText | src/formatter.rs:152-154 | dropping empty plain fragments leaves a line's text unchanged |
| Formatter.CleanSuffix | src/formatter.rs:152-160 | the last lines of clean lines are clean |
| Formatter.CleanedShown | src/formatter.rs:152-154 | the cleanup changes no text |
| Formatter.SpanShownAsIs | src/formatter.rs:133-145 | a span of line feeds only, or one without CRLF that does not end with a line feed, is shown as it is |
| Formatter.GapIsSlice | src/formatter.rs:92-96 | in range, the gap is exactly the graphemes between the two positions |
| Formatter.ConcatSplit | src/formatter.rs:123-150 | the graphemes before a position and those from it make up the whole |
| Formatter.RenderedPrefix | src/formatter.rs:123-148 | with ordered spans shown as they are, the spans and their gaps show exactly the code up to the last span's end |
| Formatter.RenderedCodeIsCode | src/formatter.rs:85-150 | under those conditions the layout shows the whole code unchanged: the lines round-trip to the code |
| Formatter.BreaksWithoutSpans | src/formatter.rs:92-121 | with no spans, the walk adds exactly one line per line-feed grapheme of the code |
| Formatter.ModifierClassAgrees | src/formatter.rs:41-47 | from one operand up, `modifier_class` is `binding ` followed by `IndexMacroDefinition::color_class` (src/extractor.rs:213-221). At zero operands the formatter says monadic and the extractor says triadic |
| Formatter.SigClassAgrees | src/formatter.rs:49-58 | up to four arguments, `sig_class` is `binding ` followed by the extractor's `SignatureInfo::color_class` (src/extractor.rs:37-48). Beyond four it is plain `binding`, where the extractor gives no class |
| Formatter.BindingClass | src/formatter.rs:75-83 | an error gives `output-error` and nothing else does. A constant gives `binding constant`, a module `binding module`, a function its signature's class and a modifier its modifier class |
| JsonExtractor.StringArray | extractor/src/main.rs:47-48 | there is one JSON string per name, in order |
| JsonExtractor.ArrayStringsOfStringArray | extractor/src/main.rs:47-48 | the array reads back as the names |
| JsonExtractor.FormatSignatureRoundTrip | extractor/src/main.rs:53-58 | `format_signature` has exactly the keys `inputs` and `outputs`, and reads back as the signature |
| JsonExtractor.SignatureObjectNames | extractor/src/main.rs:33-51 | the named signature has exactly the keys `inputs` and `outputs`. `inputs` lists the argument names and `outputs` lists the output names, or nothing when there are none |
| JsonExtractor.SignatureCommentToObject | extractor/src/main.rs:33-51 | the method with its loops builds `SignatureObject` |
| JsonExtractor.FirstBinding | extractor/src/main.rs:22-31 | gives nothing exactly when no entry has the span; otherwise the first entry with the span |
| JsonExtractor.GetBindingInfo | extractor/src/main.rs:22-31 | the early-return loop gives the first entry with the span |
| JsonExtractor.FirstBindingAt | extractor/src/main.rs:23-28 | the first match found by the loop is the first entry with the span |
| JsonExtractor.WordsAsCodeLines | extractor/src/main.rs:60-84 | `get_words_as_code_2` panics exactly when there are no lines. It gives `""` when the first or last line is empty. Otherwise it gives the text from the first line's first word to the last line's last word, and for a single line it gives what `get_words_as_code` gives |
| JsonExtractor.WordsObjects | extractor/src/main.rs:95-99 | there is one words object per piece, in order |
| JsonExtractor.FieldObjects | extractor/src/main.rs:164-177 | there is one field object per field, in order |
| JsonExtractor.ItemsJsonPanicPrefix | extractor/src/main.rs:86-199 | once a prefix of the items panics, the whole walk panics the same way |
| JsonExtractor.HandleAstItems | extractor/src/main.rs:86-199 | the loop computes `ItemsJson` of the items |
| JsonExtractor.HandleItem | extractor/src/main.rs:90-195 | one turn of the loop, with its map insertions, computes `ItemJson` for every kind of item |
| JsonExtractorProofs.WordsItemPieces | extractor/src/main.rs:91-101 | a words item panics exactly when it has no lines. Otherwise it gives one words object per piece of its code, with CRLF turned into LF and cut at every blank line, in order, empty pieces included. Each object has exactly the keys `type` and `code`, and the pieces joined with a blank line give back the code |
| JsonExtractorProofs.BindingObjectBase | extractor/src/main.rs:108-115 | every binding object carries type `binding`, its name, its code, its visibility, and its comment, which is null exactly when there is none |
| JsonExtractorProofs.ConstObjectShape | extractor/src/main.rs:117-121 | a constant adds `kind` `const` and a `value` that is null exactly when there is no value |
| JsonExtractorProofs.FuncObjectShape | extractor/src/main.rs:122-128 | a function adds `kind` `func` and a `signature` that reads back as its signature. It also adds a `named_signature` that is null exactly when the comment gives no names |
| JsonExtractorProofs.OtherObjectShape | extractor/src/main.rs:129-132 | a binding of any other kind is still emitted, with only the shared keys |
| JsonExtractorProofs.BindingItemShape | extractor/src/main.rs:102-133 | a binding missing from the registry gives nothing; any other gives exactly its one object |
| JsonExtractorProofs.ModuleItemShape | extractor/src/main.rs:134-157 | a test module gives nothing, and so does a named module missing from the registry. Any other gives one object of type `module` with its name, and its `items` are the recursive walk, whose panic it shares |
| JsonExtractorProofs.DataItemShape | extractor/src/main.rs:158-188 | a data item gives one object. Its `type` is `variant` or `data`, as its flag says. Its name is null exactly when it is anonymous. Its `definition` is null exactly when it has no fields; otherwise it carries `boxed` and one entry per field. A named item's name is its text |
| JsonExtractorProofs.DataFieldShape | extractor/src/main.rs:170-176 | field entry k is an object with exactly the keys `name` and `validator`. It holds field k's name, and its validator is null exactly when the field has none; otherwise it is the validator's code |
| JsonExtractorProofs.ImportItemShape | extractor/src/main.rs:189-194 | an import gives one object with its type and path |
| JsonExtractorProofs.ItemsJsonAppend | extractor/src/main.rs:86-199 | the walk of two runs of items is the walk of the first then the second: the first's objects followed by the second's, ended by the first panic met |
| JsonExtractorProofs.ItemsJsonSingle | extractor/src/main.rs:88-196 | the walk of one item is that item's objects |

## Left out

- The compiler itself is not part of this model: parsing, binding resolution, `CodeSpan::as_str` and `Value::show`. Its results are plain inputs: the item tree, the registry as a sequence, and the source text of a span as a function.
- Grapheme segmentation (`graphemes(true)`) is not modelled. The graphemes of the code are an input of `Formatter.BuildCodeLines`, and so are the classified spans, which the compiler's `Spans::with_backend` produces.
- `markdown_to_html` and the kuchiki tree edits in `summarize_doc_comment` are left out; they are a foreign HTML library. The rendering is a parameter that gives the headings and the serialized document. Only the level map, the slug rule and the removal of the wrapper are modelled.
- `prim_sig_class` (src/formatter.rs:60-73) depends on the compiler's primitive tables, and `format_source_code` builds leptos views. Both are left out.
- `extract_uiua_definitions` and both `main` functions are left out. They invoke the compiler, traverse the file system and print. The `uiua-modules` path filter is left out with them.
- The lookup of the `Call` member of a constructor's module (src/extractor.rs:528-534) is given as an input: `ModuleBindingKind.call` holds what it resolves to.
- `src/generator.rs` and `src/main.rs` are left out: file output, templates and the command line.
- Extractor.HandleAstItems: line numbers are unbounded `nat`s. The source's `u16` lines and the `last_line + 1` overflow on line 65535 are not modelled.
- Summarizer.Slug: lower-cases ASCII letters only. The source's `to_lowercase` is Unicode-aware.
- Formatter.BuildCodeLines: requires every span to lie within the code, with `start <= end <= |chars|` (the same holds for `Formatter.LayOutSpans`). The slice at src/formatter.rs:131 panics on a reversed or out-of-range span, and that panic is not modelled: the compiler's spans are taken to be in range.
- Formatter.PushSpan: states the text a span adds and how many lines it adds, not which fragments carry the kind.
- JsonExtractor.HandleItem: a JSON object is a map, so key order, which serde_json keeps sorted, is not modelled.
