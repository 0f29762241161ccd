/** What `handle_ast_items` and `data_def_to_item` promise, proved about
    the walk defined in `Extractor`. */
module ExtractorProofs {
  import opened Wrappers
  import opened Text
  import opened Seqs
  import F = Frontend
  import opened Extractor

  // ---------------------------------------------------------------------
  // Independent descriptions of the walk's two outputs
  // ---------------------------------------------------------------------

  /** The words chunks of the top-level items, in order; an empty `Words`
      item has none. */
  function Chunks(items: seq<F.Item>, asm: F.Assembly): seq<WordsChunk>
    decreases |items|
  {
    if items == [] then []
    else
      var last := items[|items| - 1];
      var chunk := if last.WordsItem? then GetWordsAsCode2(last.words, asm) else None;
      Chunks(items[..|items| - 1], asm) + (if chunk.None? then [] else [chunk.value])
  }

  /** `next` starts on the line after the one `prev` ends on. */
  predicate Contiguous(prev: WordsChunk, next: WordsChunk) {
    next.lineFrom == prev.lineTo + 1
  }

  /** The chunks cut into runs, starting a new run at each chunk that is not
      contiguous with the one before it. */
  function Groups(chunks: seq<WordsChunk>): (g: seq<seq<WordsChunk>>)
    ensures chunks == [] <==> g == []
    ensures forall k :: 0 <= k < |g| ==> g[k] != []
    decreases |chunks|
  {
    if chunks == [] then []
    else
      var init := Groups(chunks[..|chunks| - 1]);
      var c := chunks[|chunks| - 1];
      if init == [] || !Contiguous(chunks[|chunks| - 2], c) then init + [[c]]
      else init[..|init| - 1] + [init[|init| - 1] + [c]]
  }

  function Texts(g: seq<WordsChunk>): (r: seq<string>)
    ensures |r| == |g| && forall k :: 0 <= k < |g| ==> r[k] == g[k].text
  {
    seq(|g|, k requires 0 <= k < |g| => g[k].text)
  }

  /** The code of one `Words` item made from a run of chunks. */
  function GroupCode(g: seq<WordsChunk>): string {
    Join(Texts(g), "\n")
  }

  function GroupCodes(gs: seq<seq<WordsChunk>>): (r: seq<string>)
    ensures |r| == |gs| && forall k :: 0 <= k < |gs| ==> r[k] == GroupCode(gs[k])
  {
    seq(|gs|, k requires 0 <= k < |gs| => GroupCode(gs[k]))
  }

  /** The code of the `Words` items among `items`, in order. */
  function WordsCodes(items: seq<ItemContent>): seq<string>
    decreases |items|
  {
    if items == [] then []
    else
      var last := items[|items| - 1];
      WordsCodes(items[..|items| - 1]) + (if last.Words? then [last.code] else [])
  }

  /** The other items' outputs one after another, stopping at a panic. */
  function Outputs(items: seq<F.Item>, asm: F.Assembly): Outcome<seq<ItemContent>>
    decreases |items|
  {
    if items == [] then Done([])
    else match Outputs(items[..|items| - 1], asm)
      case Panic(m) => Panic(m)
      case Done(a) =>
        match ItemOutput(items[|items| - 1], asm)
        case Panic(m) => Panic(m)
        case Done(b) => Done(a + b)
  }

  // ---------------------------------------------------------------------
  // The runs
  // ---------------------------------------------------------------------

  lemma FlattenSnoc<T>(ss: seq<seq<T>>, x: seq<T>)
    ensures Flatten(ss + [x]) == Flatten(ss) + x
  {
    assert (ss + [x])[..|ss|] == ss;
  }

  /** Extending the last run by one element extends the flattening by it. */
  lemma FlattenExtendLast<T>(ss: seq<seq<T>>, c: T)
    requires ss != []
    ensures Flatten(ss[..|ss| - 1] + [ss[|ss| - 1] + [c]]) == Flatten(ss) + [c]
  {
    var init, last := ss[..|ss| - 1], ss[|ss| - 1];
    assert Flatten(ss) == Flatten(init) + last;
    FlattenSnoc(init, last + [c]);
    assert Flatten(init) + (last + [c]) == (Flatten(init) + last) + [c];
  }

  /** The runs hold the chunks, in order, and nothing else. */
  lemma {:induction false} GroupsFlatten(chunks: seq<WordsChunk>)
    ensures Flatten(Groups(chunks)) == chunks
    decreases |chunks|
  {
    if chunks != [] {
      var init := Groups(chunks[..|chunks| - 1]);
      var c := chunks[|chunks| - 1];
      GroupsFlatten(chunks[..|chunks| - 1]);
      if init == [] || !Contiguous(chunks[|chunks| - 2], c) {
        FlattenSnoc(init, [c]);
      } else {
        FlattenExtendLast(init, c);
      }
      assert chunks == chunks[..|chunks| - 1] + [c];
    }
  }

  /** The last run ends with the last chunk. */
  lemma {:induction false} GroupsLast(chunks: seq<WordsChunk>)
    requires chunks != []
    ensures var g := Groups(chunks); g[|g| - 1][|g[|g| - 1]| - 1] == chunks[|chunks| - 1]
  {
  }

  /** Within a run each chunk is contiguous with the one before it. */
  lemma {:induction false} GroupsContiguousWithin(chunks: seq<WordsChunk>)
    ensures forall k, j :: 0 <= k < |Groups(chunks)| && 0 < j < |Groups(chunks)[k]| ==>
              Contiguous(Groups(chunks)[k][j - 1], Groups(chunks)[k][j])
    decreases |chunks|
  {
    if chunks != [] {
      var init := Groups(chunks[..|chunks| - 1]);
      var c := chunks[|chunks| - 1];
      GroupsContiguousWithin(chunks[..|chunks| - 1]);
      if init != [] && Contiguous(chunks[|chunks| - 2], c) {
        GroupsLast(chunks[..|chunks| - 1]);
      }
    }
  }

  /** A run other than the first starts with a chunk that is not contiguous
      with the end of the run before it. */
  lemma {:induction false} GroupsBreakBetween(chunks: seq<WordsChunk>)
    ensures forall k :: 0 < k < |Groups(chunks)| ==>
              !Contiguous(Groups(chunks)[k - 1][|Groups(chunks)[k - 1]| - 1], Groups(chunks)[k][0])
    decreases |chunks|
  {
    if chunks != [] {
      var init := Groups(chunks[..|chunks| - 1]);
      var c := chunks[|chunks| - 1];
      GroupsBreakBetween(chunks[..|chunks| - 1]);
      if init != [] {
        GroupsLast(chunks[..|chunks| - 1]);
      }
    }
  }

  // ---------------------------------------------------------------------
  // The walk
  // ---------------------------------------------------------------------

  lemma {:induction false} WordsCodesAppend(a: seq<ItemContent>, b: seq<ItemContent>)
    ensures WordsCodes(a + b) == WordsCodes(a) + WordsCodes(b)
    decreases |b|
  {
    if b == [] {
      assert a + b == a;
    } else {
      assert (a + b)[..|a + b| - 1] == a + b[..|b| - 1];
      WordsCodesAppend(a, b[..|b| - 1]);
    }
  }

  lemma {:induction false} WordsCodesNone(b: seq<ItemContent>)
    requires forall k :: 0 <= k < |b| ==> !b[k].Words?
    ensures WordsCodes(b) == []
    decreases |b|
  {
    if b != [] {
      WordsCodesNone(b[..|b| - 1]);
    }
  }

  /** Appending an item list without words keeps the words' codes and adds
      the list to the other items. */
  lemma AppendNonWords(results: seq<ItemContent>, out: seq<ItemContent>)
    requires forall k :: 0 <= k < |out| ==> !out[k].Words?
    ensures WordsCodes(results + out) == WordsCodes(results)
    ensures Filter(IsNotWords, results + out) == Filter(IsNotWords, results) + out
  {
    WordsCodesAppend(results, out);
    WordsCodesNone(out);
    FilterAppend(IsNotWords, results, out);
    FilterAllKept(IsNotWords, out);
  }

  /** Emitting a words item adds its code and leaves the other items. */
  lemma AppendWords(results: seq<ItemContent>, code: string)
    ensures WordsCodes(results + [Words(code)]) == WordsCodes(results) + [code]
    ensures Filter(IsNotWords, results + [Words(code)]) == Filter(IsNotWords, results)
  {
    WordsCodesAppend(results, [Words(code)]);
    assert WordsCodes([Words(code)]) == [code] by {
      assert [Words(code)][..0] == [];
    }
    FilterAppend(IsNotWords, results, [Words(code)]);
    assert Filter(IsNotWords, [Words(code)]) == [] by {
      assert [Words(code)][..0] == [];
    }
  }

  /** The words part of the walk's state after the chunks `cs`: every
      finished run has been emitted as a words item and the last run is
      pending in the buffer. */
  ghost predicate RunsDescribed(st: ExtractState, cs: seq<WordsChunk>) {
    var g := Groups(cs);
    && (g == [] ==> st.wordLines == [] && WordsCodes(st.results) == [])
    && (g != [] ==>
          && st.wordLines == Texts(g[|g| - 1])
          && st.lastLine == g[|g| - 1][|g[|g| - 1]| - 1].lineTo
          && WordsCodes(st.results) == GroupCodes(g[..|g| - 1]))
  }

  /** The state after a prefix of the items: the other items' outputs so
      far, and the runs of its chunks. */
  ghost predicate Describes(st: ExtractState, items: seq<F.Item>, asm: F.Assembly)
    requires Outputs(items, asm).Done?
  {
    && Filter(IsNotWords, st.results) == Outputs(items, asm).value
    && RunsDescribed(st, Chunks(items, asm))
  }

  lemma GroupsSnoc(cs: seq<WordsChunk>, c: WordsChunk)
    ensures var g := Groups(cs);
      Groups(cs + [c]) == if cs == [] || !Contiguous(cs[|cs| - 1], c) then g + [[c]]
                          else g[..|g| - 1] + [g[|g| - 1] + [c]]
  {
    var cs' := cs + [c];
    assert cs'[..|cs'| - 1] == cs;
  }

  lemma AddChunkDescribed(st: ExtractState, cs: seq<WordsChunk>, c: WordsChunk)
    requires RunsDescribed(st, cs)
    ensures RunsDescribed(AddChunk(st, c), cs + [c])
    ensures Filter(IsNotWords, AddChunk(st, c).results) == Filter(IsNotWords, st.results)
  {
    GroupsSnoc(cs, c);
    if cs != [] {
      GroupsLast(cs);
    }
    if st.wordLines == [] {
      ChunkStartsRuns(st, c);
    } else if c.lineFrom == st.lastLine + 1 {
      ChunkExtendsRun(st, cs, c);
    } else {
      ChunkStartsRun(st, cs, c);
    }
  }

  lemma ChunkStartsRuns(st: ExtractState, c: WordsChunk)
    requires RunsDescribed(st, []) && st.wordLines == []
    ensures RunsDescribed(AddChunk(st, c), [c])
    ensures Filter(IsNotWords, AddChunk(st, c).results) == Filter(IsNotWords, st.results)
  {
    assert [] + [c] == [c];
    GroupsSnoc([], c);
    assert Groups([c])[..0] == [];
  }

  lemma ChunkExtendsRun(st: ExtractState, cs: seq<WordsChunk>, c: WordsChunk)
    requires RunsDescribed(st, cs) && st.wordLines != [] && c.lineFrom == st.lastLine + 1
    ensures RunsDescribed(AddChunk(st, c), cs + [c])
    ensures Filter(IsNotWords, AddChunk(st, c).results) == Filter(IsNotWords, st.results)
  {
    var g := Groups(cs);
    var last := g[|g| - 1];
    var g' := g[..|g| - 1] + [last + [c]];
    assert Groups(cs + [c]) == g' by {
      assert cs != [];
      GroupsLast(cs);
      assert Contiguous(cs[|cs| - 1], c);
      GroupsSnoc(cs, c);
    }
    var st' := AddChunk(st, c);
    assert st' == ExtractState(st.results, st.wordLines + [c.text], c.lineTo);
    assert st'.wordLines == Texts(g'[|g'| - 1]) by {
      assert g'[|g'| - 1] == last + [c];
      assert Texts(last + [c]) == Texts(last) + [c.text];
    }
    assert st'.lastLine == g'[|g'| - 1][|g'[|g'| - 1]| - 1].lineTo by {
      assert g'[|g'| - 1] == last + [c];
    }
    assert WordsCodes(st'.results) == GroupCodes(g'[..|g'| - 1]) by {
      assert g'[..|g'| - 1] == g[..|g| - 1];
    }
  }

  lemma ChunkStartsRun(st: ExtractState, cs: seq<WordsChunk>, c: WordsChunk)
    requires RunsDescribed(st, cs) && st.wordLines != [] && c.lineFrom != st.lastLine + 1
    ensures RunsDescribed(AddChunk(st, c), cs + [c])
    ensures Filter(IsNotWords, AddChunk(st, c).results) == Filter(IsNotWords, st.results)
  {
    var g := Groups(cs);
    var g' := g + [[c]];
    assert Groups(cs + [c]) == g' by {
      GroupsSnoc(cs, c);
      GroupsLast(cs);
    }
    var code := Join(st.wordLines, "\n");
    var st' := AddChunk(st, c);
    assert st' == ExtractState(st.results + [Words(code)], [c.text], c.lineTo);
    assert g'[|g'| - 1] == [c];
    assert WordsCodes(st'.results) == GroupCodes(g'[..|g'| - 1]) by {
      assert g'[..|g'| - 1] == g;
      AppendWords(st.results, code);
      GroupCodesLast(g);
    }
    assert Filter(IsNotWords, st'.results) == Filter(IsNotWords, st.results) by {
      AppendWords(st.results, code);
    }
  }

  lemma GroupCodesLast(g: seq<seq<WordsChunk>>)
    requires g != []
    ensures GroupCodes(g) == GroupCodes(g[..|g| - 1]) + [GroupCode(g[|g| - 1])]
  {
  }

  lemma OutputDescribed(st: ExtractState, cs: seq<WordsChunk>, out: seq<ItemContent>)
    requires RunsDescribed(st, cs)
    requires forall k :: 0 <= k < |out| ==> !out[k].Words?
    ensures RunsDescribed(ExtractState(st.results + out, st.wordLines, st.lastLine), cs)
    ensures Filter(IsNotWords, st.results + out) == Filter(IsNotWords, st.results) + out
  {
    AppendNonWords(st.results, out);
  }

  lemma {:induction false} FoldDescribed(items: seq<F.Item>, asm: F.Assembly)
    ensures Fold(items, asm).Done? <==> Outputs(items, asm).Done?
    ensures Fold(items, asm).Done? ==> Describes(Fold(items, asm).value, items, asm)
    decreases |items|
  {
    if items != [] {
      var init, x := items[..|items| - 1], items[|items| - 1];
      FoldDescribed(init, asm);
      if Fold(init, asm).Done? {
        var st := Fold(init, asm).value;
        var cs := Chunks(init, asm);
        if x.WordsItem? {
          assert ItemOutput(x, asm) == Done([]);
          assert Outputs(items, asm).value == Outputs(init, asm).value + [];
          var chunk := GetWordsAsCode2(x.words, asm);
          if chunk.Some? {
            assert Chunks(items, asm) == cs + [chunk.value];
            AddChunkDescribed(st, cs, chunk.value);
          } else {
            assert Chunks(items, asm) == cs + [];
            assert cs + [] == cs;
          }
        } else {
          assert Chunks(items, asm) == cs + [];
          assert cs + [] == cs;
          if ItemOutput(x, asm).Done? {
            OutputDescribed(st, cs, ItemOutput(x, asm).value);
          }
        }
      }
    }
  }

  /** Decomposition of `handle_ast_items`: the walk panics exactly when one
      of the items panics; otherwise, leaving the words items aside, its
      result is each item's own output in item order, and the words items
      are the runs of contiguous chunks, each joined with newlines. Words
      are emitted only when a later non-contiguous chunk or the end of the
      list is reached, so they can come after items that followed them. */
  lemma ExtractDecomposition(items: seq<F.Item>, asm: F.Assembly)
    ensures Extract(items, asm).Done? <==> Outputs(items, asm).Done?
    ensures Extract(items, asm).Done? ==>
              && Filter(IsNotWords, Extract(items, asm).value) == Outputs(items, asm).value
              && WordsCodes(Extract(items, asm).value) == GroupCodes(Groups(Chunks(items, asm)))
  {
    FoldDescribed(items, asm);
    if Fold(items, asm).Done? {
      var st := Fold(items, asm).value;
      assert Extract(items, asm) == Done(Flush(st));
      FlushRuns(st, Chunks(items, asm));
    }
  }

  /** Flushing the buffer emits the last run. */
  lemma FlushRuns(st: ExtractState, cs: seq<WordsChunk>)
    requires RunsDescribed(st, cs)
    ensures WordsCodes(Flush(st)) == GroupCodes(Groups(cs))
    ensures Filter(IsNotWords, Flush(st)) == Filter(IsNotWords, st.results)
  {
    var g := Groups(cs);
    if g != [] {
      assert st.wordLines != [];
      AppendWords(st.results, Join(st.wordLines, "\n"));
      GroupCodesLast(g);
    } else {
      assert GroupCodes(g) == [];
    }
  }

  /** What each kind of item contributes. Test modules, bindings and modules
      missing from the registry, and bindings of a module, import, scope or
      erroneous kind give nothing; an import gives exactly one import; a
      data item gives exactly one item per definition; a documentable
      binding gives exactly one binding with its name and visibility. */
  lemma ItemOutputCases(item: F.Item, asm: F.Assembly)
    ensures item.ModuleItem? && item.kind.Test? ==> ItemOutput(item, asm) == Done([])
    ensures item.ModuleItem? && item.kind.Named? && GetBindingInfo(asm, item.kind.name.span).None? ==>
              ItemOutput(item, asm) == Done([])
    ensures item.BindingItem? && GetBindingInfo(asm, item.name.span).None? ==> ItemOutput(item, asm) == Done([])
    ensures item.BindingItem? && GetBindingInfo(asm, item.name.span).Some? ==>
              var k := GetBindingInfo(asm, item.name.span).value.kind;
              (k.ModuleBindingKind? || k.ImportKind? || k.ScopeKind? || k.ErrorKind?) <==> ItemOutput(item, asm) == Done([])
    ensures item.BindingItem? && ItemOutput(item, asm) != Done([]) ==>
              && |ItemOutput(item, asm).value| == 1
              && ItemOutput(item, asm).value[0].Binding?
              && ItemOutput(item, asm).value[0].bindingDef.name == item.name.value
              && ItemOutput(item, asm).value[0].bindingDef.public == GetBindingInfo(asm, item.name.span).value.public
    ensures item.ImportItem? ==> ItemOutput(item, asm) == Done([Import(item.path)])
    ensures item.DataItem? && ItemOutput(item, asm).Done? ==> |ItemOutput(item, asm).value| == |item.defs|
  {
  }

  // ---------------------------------------------------------------------
  // Data definitions
  // ---------------------------------------------------------------------

  /** When a data definition aborts the run: a named definition missing
      from the registry; a constructor without registry metadata, without a
      module binding, without a `Call` function or without fields; or an
      anonymous variant. */
  lemma DataDefPanics(def: F.DataDef, asm: F.Assembly)
    ensures
      var info := if def.name.None? then None else GetBindingInfo(asm, def.name.value.span);
      DataDefToItem(def, asm).Panic? <==>
        || (def.name.Some? && info.None?)
        || (def.hasFunc && (info.None? || !info.value.kind.ModuleBindingKind? || info.value.kind.call.None? || def.fields.None?))
        || (!def.hasFunc && def.variant && def.name.None?)
  {
  }

  /** A converted data definition is a function binding when it has a
      constructor, otherwise a variant or a data item as its flag says; its
      field definition is present exactly when it has fields. */
  lemma DataDefShape(def: F.DataDef, asm: F.Assembly)
    requires DataDefToItem(def, asm).Done?
    ensures var item := DataDefToItem(def, asm).value;
      && (def.hasFunc ==> item.Binding? && item.bindingDef.kind.Function? && item.bindingDef.public == def.public)
      && (!def.hasFunc && def.variant ==> item.Variant? && (item.variantDef.definition.None? <==> def.fields.None?))
      && (!def.hasFunc && !def.variant ==> item.Data? && (item.dataDef.definition.None? <==> def.fields.None?))
  {
  }

  predicate HasInit(field: F.DataField) {
    field.hasInit
  }

  predicate NoInit(field: F.DataField) {
    !field.hasInit
  }

  function FieldTexts(fields: seq<F.DataField>, asm: F.Assembly): (r: seq<string>)
    ensures |r| == |fields| && forall k :: 0 <= k < |fields| ==> r[k] == asm.asStr(fields[k].name.span)
  {
    seq(|fields|, k requires 0 <= k < |fields| => asm.asStr(fields[k].name.span))
  }

  lemma NamesSnoc(args: seq<NamedArgument>, a: NamedArgument)
    ensures Names(args + [a]) == Names(args) + [a.name]
  {
  }

  lemma FieldTextsSnoc(fields: seq<F.DataField>, f: F.DataField, asm: F.Assembly)
    ensures FieldTexts(fields + [f], asm) == FieldTexts(fields, asm) + [asm.asStr(f.name.span)]
  {
  }

  lemma {:induction false} ConstructorArgumentsOptional(fields: seq<F.DataField>, asm: F.Assembly)
    ensures Names(Filter(IsOptional, ConstructorArguments(fields, asm))) == FieldTexts(Filter(HasInit, fields), asm)
    decreases |fields|
  {
    if fields != [] {
      var init, f := fields[..|fields| - 1], fields[|fields| - 1];
      var args := ConstructorArguments(fields, asm);
      var a := args[|args| - 1];
      var pre := Filter(IsOptional, ConstructorArguments(init, asm));
      assert args[..|args| - 1] == ConstructorArguments(init, asm);
      assert a == NamedArgument(asm.asStr(f.name.span), !f.hasInit);
      assert Filter(IsOptional, args) == pre + (if IsOptional(a) then [a] else []);
      assert Filter(HasInit, fields) == Filter(HasInit, init) + (if HasInit(f) then [f] else []);
      ConstructorArgumentsOptional(init, asm);
      if f.hasInit {
        NamesSnoc(pre, a);
        FieldTextsSnoc(Filter(HasInit, init), f, asm);
      } else {
        assert Filter(IsOptional, args) == pre;
        assert Filter(HasInit, fields) == Filter(HasInit, init);
      }
    }
  }

  lemma {:induction false} ConstructorArgumentsRequired(fields: seq<F.DataField>, asm: F.Assembly)
    ensures Names(Filter(IsRequired, ConstructorArguments(fields, asm))) == FieldTexts(Filter(NoInit, fields), asm)
    decreases |fields|
  {
    if fields != [] {
      var init, f := fields[..|fields| - 1], fields[|fields| - 1];
      var args := ConstructorArguments(fields, asm);
      var a := args[|args| - 1];
      var pre := Filter(IsRequired, ConstructorArguments(init, asm));
      assert args[..|args| - 1] == ConstructorArguments(init, asm);
      assert a == NamedArgument(asm.asStr(f.name.span), !f.hasInit);
      assert Filter(IsRequired, args) == pre + (if IsRequired(a) then [a] else []);
      assert Filter(NoInit, fields) == Filter(NoInit, init) + (if NoInit(f) then [f] else []);
      ConstructorArgumentsRequired(init, asm);
      if !f.hasInit {
        NamesSnoc(pre, a);
        FieldTextsSnoc(Filter(NoInit, init), f, asm);
      } else {
        assert Filter(IsRequired, args) == pre;
        assert Filter(NoInit, fields) == Filter(NoInit, init);
      }
    }
  }

  /** A constructor's optional inputs are its fields with a default value,
      in field order, and its required inputs draw their names from the
      other fields. */
  lemma ConstructorInputs(def: F.DataDef, asm: F.Assembly)
    requires def.hasFunc && DataDefToItem(def, asm).Done?
    ensures def.fields.Some?
    ensures var f := DataDefToItem(def, asm).value.bindingDef.kind.definition;
      && |f.optionalInputs| == |Filter(HasInit, def.fields.value.fields)|
      && (forall k :: 0 <= k < |f.optionalInputs| ==>
            f.optionalInputs[k].name == FieldTexts(Filter(HasInit, def.fields.value.fields), asm)[k]
            && f.optionalInputs[k].optional)
      && RequiredArgumentNames(Some(ConstructorArguments(def.fields.value.fields, asm)))
           == FieldTexts(Filter(NoInit, def.fields.value.fields), asm)
  {
    var args := ConstructorArguments(def.fields.value.fields, asm);
    ConstructorArgumentsOptional(def.fields.value.fields, asm);
    ConstructorArgumentsRequired(def.fields.value.fields, asm);
    var info := GetBindingInfo(asm, def.name.value.span).value;
    ReconcileOptionalInputs(SignatureInfoOf(info.kind.call.value), CommentSignature(info), Some(args));
  }

  // ---------------------------------------------------------------------
  // A concrete walk
  // ---------------------------------------------------------------------

  function Span(line: nat): F.CodeSpan {
    F.CodeSpan(0, F.Loc(line, 0), F.Loc(line, 1))
  }

  /** Words on line 1, a binding on line 2, words on line 5: the first words
      are emitted only when the second chunk arrives, after the binding. */
  lemma WordsAfterLaterBinding()
    ensures
      var asm := F.Assembly([F.BindingInfo(Span(2), true, None, F.ConstKind(None))],
                            (s: F.CodeSpan) => if s.start.line == 1 then "a" else "b");
      var items := [F.WordsItem([F.Word(Span(1))]),
                    F.BindingItem(F.Ident("f", Span(2)), Span(2)),
                    F.WordsItem([F.Word(Span(5))])];
      Extract(items, asm) == Done([Binding(BindingDefinition("f", "b", true, None, Const(None))), Words("a"), Words("b")])
  {
    var asm := F.Assembly([F.BindingInfo(Span(2), true, None, F.ConstKind(None))],
                          (s: F.CodeSpan) => if s.start.line == 1 then "a" else "b");
    var items := [F.WordsItem([F.Word(Span(1))]),
                  F.BindingItem(F.Ident("f", Span(2)), Span(2)),
                  F.WordsItem([F.Word(Span(5))])];
    assert Replace("a", "\r\n", "\n") == "a";
    assert Replace("b", "\r\n", "\n") == "b";
    assert asm.asStr(F.Merge(Span(1), Span(1))) == "a";
    assert asm.asStr(F.Merge(Span(5), Span(5))) == "b";
    assert GetWordsAsCode2([F.Word(Span(1))], asm) == Some(WordsChunk("a", 1, 1));
    assert GetWordsAsCode2([F.Word(Span(5))], asm) == Some(WordsChunk("b", 5, 5));
    assert items[..2][..1] == items[..1];
    assert items[..1][..0] == [];
    assert items[..3] == items;
    assert Fold([], asm) == Done(ExtractState([], [], 0));
    var s0 := ExtractState([], [], 0);
    assert AddChunk(s0, WordsChunk("a", 1, 1)) == ExtractState([], ["a"], 1);
    assert Step(items[0], s0, asm) == Done(ExtractState([], ["a"], 1));
    assert Fold(items[..1], asm) == Done(ExtractState([], ["a"], 1));
    var b := Binding(BindingDefinition("f", "b", true, None, Const(None)));
    assert GetBindingInfo(asm, Span(2)) == Some(asm.bindings[0]);
    assert ItemOutput(items[1], asm) == Done([b]);
    var s1 := ExtractState([], ["a"], 1);
    assert Step(items[1], s1, asm) == Done(ExtractState([] + [b], ["a"], 1));
    assert [] + [b] == [b];
    assert Fold(items[..2], asm) == Done(ExtractState([b], ["a"], 1));
    var s2 := ExtractState([b], ["a"], 1);
    assert Join(["b"], "\n") == "b";
    assert Join(["a"], "\n") == "a";
    assert AddChunk(s2, WordsChunk("b", 5, 5)) == ExtractState([b, Words("a")], ["b"], 5);
    assert Step(items[2], s2, asm) == Done(ExtractState([b, Words("a")], ["b"], 5));
    assert Fold(items[..3], asm) == Done(ExtractState([b, Words("a")], ["b"], 5));
    assert Flush(ExtractState([b, Words("a")], ["b"], 5)) == [b, Words("a"), Words("b")];
  }
}
