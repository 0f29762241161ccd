/** What the summary promises: which items are listed under the bindings
    section and in which order, what the modules section keeps, and the
    order of a page's sections. */
module SummarizerProofs {
  import opened Wrappers
  import opened Text
  import opened Seqs
  import opened Extractor
  import opened Summarizer

  // ---------------------------------------------------------------------
  // Values present among options
  // ---------------------------------------------------------------------

  lemma {:induction false} PresentMembers<T>(os: seq<Option<T>>, x: T)
    ensures x in Present(os) <==> exists k :: 0 <= k < |os| && os[k] == Some(x)
    decreases |os|
  {
    if os != [] {
      var init := os[..|os| - 1];
      PresentMembers(init, x);
      if exists k :: 0 <= k < |init| && init[k] == Some(x) {
        var k :| 0 <= k < |init| && init[k] == Some(x);
        assert os[k] == Some(x);
      }
      if exists k :: 0 <= k < |os| && os[k] == Some(x) {
        var k :| 0 <= k < |os| && os[k] == Some(x);
        if k < |init| {
          assert init[k] == Some(x);
        }
      }
    }
  }

  /** The present values keep the order of the options they come from. */
  lemma {:induction false} PresentSubsequence<T>(os: seq<Option<T>>, vs: seq<T>)
    requires |os| == |vs|
    requires forall k :: 0 <= k < |os| && os[k].Some? ==> os[k].value == vs[k]
    ensures IsSubsequence(Present(os), vs)
    decreases |os|
  {
    if os != [] {
      var n := |os|;
      var p := Present(os[..n - 1]);
      PresentSubsequence(os[..n - 1], vs[..n - 1]);
      assert vs[..n - 1] + [vs[n - 1]] == vs;
      if os[n - 1].Some? {
        assert Present(os) == p + [vs[n - 1]];
        assert (p + [vs[n - 1]])[..|p|] == p;
      } else {
        assert Present(os) == p;
        SubsequenceExtend(p, vs[..n - 1], vs[n - 1]);
      }
    }
  }

  // ---------------------------------------------------------------------
  // The filters
  // ---------------------------------------------------------------------

  /** What a filter of the summary gives: nothing when no item qualifies,
      otherwise the qualifying items, each as often as it occurs. */
  ghost predicate FilterSummary(p: ItemContent -> bool, items: seq<ItemContent>, r: Option<seq<ItemContent>>) {
    && (r.None? <==> forall k :: 0 <= k < |items| ==> !p(items[k]))
    && (r.Some? ==> forall x :: x in r.value <==> x in items && p(x))
    && (r.Some? ==> forall x :: multiset(r.value)[x] == if p(x) then multiset(items)[x] else 0)
  }

  lemma FilterSummaryHolds(p: ItemContent -> bool, items: seq<ItemContent>)
    ensures var f := Filter(p, items);
      FilterSummary(p, items, if f == [] then None else Some(f)) && IsSubsequence(f, items)
  {
    FilterEmpty(p, items);
    FilterIsSubsequence(p, items);
    FilterCount(p, items);
  }

  lemma SummarizeConstantsContents(items: seq<ItemContent>)
    ensures var r := SummarizeConstants(items);
      && (r.None? <==> forall k :: 0 <= k < |items| ==> !IsPublicConstant(items[k]))
      && (r.Some? ==> r.value.links == [] && r.value.content.Items?
                      && r.value.content.contentItems.title == Title("Constants", "__constants")
                      && IsSubsequence(r.value.content.contentItems.items, items)
                      && (forall x :: x in r.value.content.contentItems.items <==> x in items && IsPublicConstant(x))
                      && forall x :: multiset(r.value.content.contentItems.items)[x] ==
                                      if IsPublicConstant(x) then multiset(items)[x] else 0)
  {
    FilterSummaryHolds(IsPublicConstant, items);
  }

  lemma SummarizeFunctionsContents(items: seq<ItemContent>, inputs: nat)
    ensures var r := SummarizeFunctions(items, inputs);
      && FilterSummary(FunctionOfArity(inputs), items, r)
      && (r.Some? ==> IsSubsequence(r.value, items) && forall x :: x in r.value ==> IsPublicFunctionOf(x, inputs))
  {
    FilterSummaryHolds(FunctionOfArity(inputs), items);
  }

  lemma SummarizeIndexMacrosContents(items: seq<ItemContent>)
    ensures var r := SummarizeIndexMacros(items);
      FilterSummary(IsPublicIndexMacro, items, r) && (r.Some? ==> IsSubsequence(r.value, items))
  {
    FilterSummaryHolds(IsPublicIndexMacro, items);
  }

  lemma SummarizeCodeMacrosContents(items: seq<ItemContent>)
    ensures var r := SummarizeCodeMacros(items);
      FilterSummary(IsPublicCodeMacro, items, r) && (r.Some? ==> IsSubsequence(r.value, items))
  {
    FilterSummaryHolds(IsPublicCodeMacro, items);
  }

  lemma SummarizeDataContents(items: seq<ItemContent>)
    ensures var r := SummarizeData(items);
      FilterSummary(IsDataOrVariant, items, r) && (r.Some? ==> IsSubsequence(r.value, items))
  {
    FilterSummaryHolds(IsDataOrVariant, items);
  }

  // ---------------------------------------------------------------------
  // The bindings section
  // ---------------------------------------------------------------------

  /** The items listed in a group. */
  function GroupItems(g: RenderingItem): seq<ItemContent> {
    if g.content.Items? then g.content.contentItems.items else []
  }

  /** The group an item is listed under, when it is listed: the reference
      rule, by what the item is. */
  function GroupOf(item: ItemContent): Option<nat> {
    match item
    case Binding(b) =>
      if !b.public then None
      else (match b.kind
        case Const(_) => Some(0)
        case CodeMacro(_) => Some(2)
        case IndexMacro(_, _) => Some(3)
        case Function(d) => if d.Signature().inputs <= 6 then Some(4 + d.Signature().inputs) else None)
    case Data(_) => Some(1)
    case Variant(_) => Some(1)
    case _ => None
  }

  /** Candidate group `k` holds exactly the items whose group is `k`. */
  lemma GroupMemberIff(item: ItemContent, k: nat)
    requires k < GroupCount
    ensures GroupMember(k)(item) <==> GroupOf(item) == Some(k)
  {
    if k >= 4 {
      assert GroupMember(k) == FunctionOfArity(k - 4);
    }
  }

  /** No item belongs to two groups. */
  lemma GroupsDisjoint(item: ItemContent, j: nat, k: nat)
    requires j < GroupCount && k < GroupCount
    requires GroupMember(j)(item) && GroupMember(k)(item)
    ensures j == k
  {
    GroupMemberIff(item, j);
    GroupMemberIff(item, k);
  }

  /** Every candidate group, empty or not, in page order. */
  function AllGroups(items: seq<ItemContent>): (r: seq<RenderingItem>)
    ensures |r| == GroupCount
  {
    seq(GroupCount, k requires 0 <= k < GroupCount => Group(GroupTitle(k), GroupLinkId(k), Filter(GroupMember(k), items)))
  }

  /** The groups of the bindings section are exactly the non-empty
      candidates. */
  lemma BindingGroupsAreNonEmptyCandidates(items: seq<ItemContent>, g: RenderingItem)
    ensures g in BindingGroups(items) <==>
      exists k :: 0 <= k < GroupCount && Filter(GroupMember(k), items) != [] && g == AllGroups(items)[k]
  {
    PresentMembers(Candidates(items), g);
    if g in BindingGroups(items) {
      var k :| 0 <= k < |Candidates(items)| && Candidates(items)[k] == Some(g);
      CandidateAt(items, k);
    }
    if exists k :: 0 <= k < GroupCount && Filter(GroupMember(k), items) != [] && g == AllGroups(items)[k] {
      var k :| 0 <= k < GroupCount && Filter(GroupMember(k), items) != [] && g == AllGroups(items)[k];
      CandidateAt(items, k);
    }
  }

  /** Candidate `k` is group `k` when that group has members. */
  lemma CandidateAt(items: seq<ItemContent>, k: nat)
    requires k < GroupCount
    ensures Candidates(items)[k] == if Filter(GroupMember(k), items) != [] then Some(AllGroups(items)[k]) else None
  {
  }

  /** They appear in page order, each at most once: constants, data types,
      code macros, index macros, then functions by number of inputs. */
  lemma BindingGroupsInPageOrder(items: seq<ItemContent>)
    ensures IsSubsequence(BindingGroups(items), AllGroups(items))
    ensures forall g :: g in BindingGroups(items) ==> GroupItems(g) != []
  {
    PresentSubsequence(Candidates(items), AllGroups(items));
    forall g | g in BindingGroups(items) ensures GroupItems(g) != [] {
      BindingGroupsAreNonEmptyCandidates(items, g);
    }
  }

  /** An item is listed in the bindings section exactly when it is one of
      the file's items and has a group. */
  lemma ListedBindings(items: seq<ItemContent>, x: ItemContent)
    ensures (exists g :: g in BindingGroups(items) && x in GroupItems(g)) <==> x in items && GroupOf(x).Some?
  {
    if exists g :: g in BindingGroups(items) && x in GroupItems(g) {
      var g :| g in BindingGroups(items) && x in GroupItems(g);
      ListedOnlyIfGrouped(items, x, g);
    }
    if x in items && GroupOf(x).Some? {
      ListedIfGrouped(items, x);
    }
  }

  lemma ListedOnlyIfGrouped(items: seq<ItemContent>, x: ItemContent, g: RenderingItem)
    requires g in BindingGroups(items) && x in GroupItems(g)
    ensures x in items && GroupOf(x).Some?
  {
    BindingGroupsAreNonEmptyCandidates(items, g);
    var k :| 0 <= k < GroupCount && Filter(GroupMember(k), items) != [] && g == AllGroups(items)[k];
    assert x in Filter(GroupMember(k), items);
    GroupMemberIff(x, k);
  }

  lemma ListedIfGrouped(items: seq<ItemContent>, x: ItemContent)
    requires x in items && GroupOf(x).Some?
    ensures exists g :: g in BindingGroups(items) && x in GroupItems(g)
  {
    var k := GroupOf(x).value;
    GroupMemberIff(x, k);
    var g := AllGroups(items)[k];
    assert x in Filter(GroupMember(k), items);
    assert x in GroupItems(g);
    BindingGroupsAreNonEmptyCandidates(items, g);
  }

  /** Private bindings, and public functions taking more than six values,
      are listed nowhere in the bindings section. */
  lemma UnlistedBindings(items: seq<ItemContent>, x: ItemContent)
    requires x.Binding?
    requires !x.bindingDef.public || (x.bindingDef.kind.Function? && x.bindingDef.kind.definition.Signature().inputs > 6)
    ensures forall g :: g in BindingGroups(items) ==> x !in GroupItems(g)
  {
    ListedBindings(items, x);
  }

  // ---------------------------------------------------------------------
  // The modules section
  // ---------------------------------------------------------------------

  lemma PublicPartPublic(m: ModuleDefinition)
    requires HasPublicItems(m)
    ensures HasPublicItems(PublicPart(m))
    ensures forall k :: 0 <= k < |PublicPart(m).items| ==> IsPublicItem(PublicPart(m).items[k])
    ensures PublicPart(m).name == m.name && PublicPart(m).comment == m.comment
  {
    AnyPublicExists(m.items);
    var k :| 0 <= k < |m.items| && IsPublicItem(m.items[k]);
    var kept := Filter(IsPublicItem, m.items);
    assert m.items[k] in kept;
    var j :| 0 <= j < |kept| && kept[j] == m.items[k];
    AnyPublicExists(kept);
  }

  /** Each listed module is a module of the file that has public items,
      with its name and comment, cut down to its public items, of which it
      keeps at least one. */
  lemma ListedModules(items: seq<ItemContent>)
    ensures var r := SummarizeModules(items);
      r.Some? ==> forall k :: 0 <= k < |r.value| ==>
        && HasPublicItems(r.value[k].moduleDef)
        && (forall i :: 0 <= i < |r.value[k].moduleDef.items| ==> IsPublicItem(r.value[k].moduleDef.items[i]))
        && exists j :: 0 <= j < |items| && IsModuleWithPublicItems(items[j]) && r.value[k] == Module(PublicPart(items[j].moduleDef))
  {
    var r := SummarizeModules(items);
    if r.Some? {
      var modules := Filter(IsModuleWithPublicItems, items);
      forall k | 0 <= k < |r.value|
        ensures HasPublicItems(r.value[k].moduleDef)
        ensures forall i :: 0 <= i < |r.value[k].moduleDef.items| ==> IsPublicItem(r.value[k].moduleDef.items[i])
        ensures exists j :: 0 <= j < |items| && IsModuleWithPublicItems(items[j]) && r.value[k] == Module(PublicPart(items[j].moduleDef))
      {
        assert r.value[k] == Module(PublicPart(modules[k].moduleDef));
        PublicPartPublic(modules[k].moduleDef);
        assert modules[k] in items;
      }
    }
  }

  /** Every module of the file that has public items is listed, cut down
      to its public items. */
  lemma AllModulesListed(items: seq<ItemContent>)
    ensures var r := SummarizeModules(items);
      r.Some? ==> forall j :: 0 <= j < |items| && IsModuleWithPublicItems(items[j]) ==>
                    Module(PublicPart(items[j].moduleDef)) in r.value
  {
    var r := SummarizeModules(items);
    if r.Some? {
      ModulesInItemOrder(items);
      var idx := FilterIndices(IsModuleWithPublicItems, items);
      forall j | 0 <= j < |items| && IsModuleWithPublicItems(items[j])
        ensures Module(PublicPart(items[j].moduleDef)) in r.value
      {
        var k :| 0 <= k < |idx| && idx[k] == j;
        assert r.value[k] == Module(PublicPart(items[j].moduleDef));
      }
    }
  }

  /** The listing follows item order: entry `k` is the module at position
      `idx[k]`, the positions increase, and they are exactly the positions
      of the modules with public items. */
  lemma ModulesInItemOrder(items: seq<ItemContent>)
    ensures var r := SummarizeModules(items);
      var idx := FilterIndices(IsModuleWithPublicItems, items);
      r.Some? ==>
        && |idx| == |r.value|
        && (forall k :: 0 <= k < |idx| ==>
              idx[k] < |items| && IsModuleWithPublicItems(items[idx[k]])
              && r.value[k] == Module(PublicPart(items[idx[k]].moduleDef)))
        && (forall k, l :: 0 <= k < l < |idx| ==> idx[k] < idx[l])
        && (forall j :: 0 <= j < |items| && IsModuleWithPublicItems(items[j]) ==> j in idx)
  {
    FilterIndicesAt(IsModuleWithPublicItems, items);
    FilterIndicesIncreasing(IsModuleWithPublicItems, items);
    FilterIndicesComplete(IsModuleWithPublicItems, items);
    var modules := Filter(IsModuleWithPublicItems, items);
    var r := SummarizeModules(items);
    if r.Some? {
      assert r.value == PublicModules(modules);
    }
  }

  lemma PublicPartIdempotent(m: ModuleDefinition)
    ensures PublicPart(PublicPart(m)) == PublicPart(m)
  {
    FilterIdempotent(IsPublicItem, m.items);
  }

  lemma PublicModulesIdempotent(modules: seq<ItemContent>)
    requires forall k :: 0 <= k < |modules| ==> modules[k].Module?
    ensures PublicModules(PublicModules(modules)) == PublicModules(modules)
  {
    var r := PublicModules(modules);
    forall k | 0 <= k < |r| ensures PublicModules(r)[k] == r[k] {
      PublicPartIdempotent(modules[k].moduleDef);
    }
  }

  /** Summarizing the modules a second time changes nothing. */
  lemma SummarizeModulesIdempotent(items: seq<ItemContent>)
    requires SummarizeModules(items).Some?
    ensures SummarizeModules(SummarizeModules(items).value) == SummarizeModules(items)
  {
    var modules := Filter(IsModuleWithPublicItems, items);
    var r := PublicModules(modules);
    forall k | 0 <= k < |r| ensures IsModuleWithPublicItems(r[k]) {
      PublicPartPublic(modules[k].moduleDef);
    }
    FilterAllKept(IsModuleWithPublicItems, r);
    PublicModulesIdempotent(modules);
  }

  // ---------------------------------------------------------------------
  // The page
  // ---------------------------------------------------------------------

  function SectionTypes(sections: seq<DocumentationSection>): (r: seq<SectionType>)
    ensures |r| == |sections|
  {
    seq(|sections|, k requires 0 <= k < |sections| => sections[k].sectionType)
  }

  /** A page lists documentation when the file has `# !doc` blocks, then
      modules when one of its modules has public items, and always ends
      with the bindings section. */
  lemma PageSectionsOrder(items: seq<ItemContent>, render: string -> RenderedComment)
    ensures SectionTypes(PageSections(items, render)) ==
              (if ExtractDocComments(items) != [] then [Documentation] else [])
              + (if exists k :: 0 <= k < |items| && IsModuleWithPublicItems(items[k]) then [Modules] else [])
              + [Bindings]
  {
    DocumentationPresent(items, render);
    ModulesPresent(items);
    var modules := SummarizeModules(items);
    PageTypes(SummarizeDocComments(items, render),
              if modules.Some? then Some(DocumentationSection("Modules", Modules, ModuleEntries(modules.value))) else None,
              DocumentationSection("Bindings", Bindings, BindingGroups(items)));
  }

  lemma PageTypes(docs: Option<DocumentationSection>, modules: Option<DocumentationSection>, bindings: DocumentationSection)
    ensures SectionTypes(Page(docs, modules, bindings)) ==
              (if docs.Some? then [docs.value.sectionType] else [])
              + (if modules.Some? then [modules.value.sectionType] else [])
              + [bindings.sectionType]
  {
    var documented := if docs.Some? then [docs.value] else [];
    var listed := documented + (if modules.Some? then [modules.value] else []);
    SectionTypesAppend(listed, [bindings]);
    SectionTypesAppend(documented, if modules.Some? then [modules.value] else []);
  }

  /** The last section of a page holds the binding groups. */
  lemma PageEndsWithBindings(items: seq<ItemContent>, render: string -> RenderedComment)
    ensures var ps := PageSections(items, render);
      ps != [] && ps[|ps| - 1] == DocumentationSection("Bindings", Bindings, BindingGroups(items))
  {
  }

  lemma DocumentationPresent(items: seq<ItemContent>, render: string -> RenderedComment)
    ensures var docs := SummarizeDocComments(items, render);
      && (docs.Some? <==> ExtractDocComments(items) != [])
      && (docs.Some? ==> docs.value.sectionType == Documentation)
  {
  }

  lemma ModulesPresent(items: seq<ItemContent>)
    ensures SummarizeModules(items).Some? <==> exists k :: 0 <= k < |items| && IsModuleWithPublicItems(items[k])
  {
  }

  lemma SectionTypesAppend(a: seq<DocumentationSection>, b: seq<DocumentationSection>)
    ensures SectionTypes(a + b) == SectionTypes(a) + SectionTypes(b)
  {
    forall k | 0 <= k < |a + b|
      ensures SectionTypes(a + b)[k] == (SectionTypes(a) + SectionTypes(b))[k]
    {
      if k < |a| {
        assert (a + b)[k] == a[k];
      } else {
        assert (a + b)[k] == b[k - |a|];
      }
    }
  }

  /** The modules section has one entry per listed module, titled and
      anchored by the module's name and holding that module alone. */
  lemma ModuleEntriesShape(modules: seq<ItemContent>, k: nat)
    requires forall i :: 0 <= i < |modules| ==> modules[i].Module?
    requires k < |modules|
    ensures ModuleEntries(modules)[k].links == []
    ensures ModuleEntries(modules)[k].content ==
      Items(ContentItems(Title(modules[k].moduleDef.name, modules[k].moduleDef.name), [modules[k]]))
  {
  }

  // ---------------------------------------------------------------------
  // Doc comments and headings
  // ---------------------------------------------------------------------

  /** Only the rewritten top-level headings give links, in order. */
  lemma DocCommentLinks(rendered: RenderedComment)
    ensures var tops := Filter(IsTopHeading, rendered.headings);
      var links := SummarizeDocComment(rendered).links;
      |links| == |tops| && forall k :: 0 <= k < |tops| ==> links[k] == ItemLink(tops[k].text, "#" + Slug(tops[k].text))
  {
    HeadingLinksOfTopHeadings(rendered.headings);
  }
}
