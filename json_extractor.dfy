/** The stand-alone extractor binary: an older walk over the syntax tree of
    an earlier compiler release that writes the documentation model as JSON
    objects instead of the typed items of `Extractor`. */
module JsonExtractor {
  import opened Wrappers
  import opened Text
  import F = Frontend

  // ---------------------------------------------------------------------
  // The earlier compiler's syntax tree and registry
  // ---------------------------------------------------------------------

  /** Signature names of a doc comment: the argument names, and the output
      names when the comment gives any. */
  datatype DocSig = DocSig(args: seq<string>, outputs: Option<seq<string>>)

  datatype DocComment = DocComment(text: string, sig: Option<DocSig>)

  /** What a binding is; the other kinds (macros, modules, imports, scopes,
      errors) are told apart by the compiler but treated alike here. */
  datatype BindingKind = Const(value: Option<string>) | Func(sig: F.Signature) | OtherKind

  datatype BindingInfo = BindingInfo(span: F.CodeSpan, public: bool, comment: Option<DocComment>, kind: BindingKind)

  datatype Assembly = Assembly(bindings: seq<BindingInfo>, asStr: F.CodeSpan -> string)

  /** A data field: its name and its validator's words, if any. */
  datatype Field = Field(name: F.Ident, validator: Option<seq<F.Word>>)

  datatype Fields = Fields(boxed: bool, fields: seq<Field>)

  datatype DataDef = DataDef(name: Option<F.Ident>, variant: bool, fields: Option<Fields>)

  /** A top-level item; a words item holds its words line by line. */
  datatype Item =
    | Words(lines: seq<seq<F.Word>>)
    | Binding(name: F.Ident, span: F.CodeSpan)
    | Module(kind: F.ModuleKind, items: seq<Item>)
    | Data(def: DataDef)
    | Import(path: string)

  /** A JSON value; an object is a map, so its keys are unordered and each
      insertion of a key replaces the earlier value. */
  datatype Json =
    | Null
    | Bool(b: bool)
    | Number(n: nat)
    | Str(s: string)
    | Array(elems: seq<Json>)
    | Object(fields: map<string, Json>)

  // ---------------------------------------------------------------------
  // Small encoders
  // ---------------------------------------------------------------------

  function StringArray(ss: seq<string>): (r: Json)
    ensures r.Array? && |r.elems| == |ss| && forall k :: 0 <= k < |ss| ==> r.elems[k] == Str(ss[k])
  {
    Array(seq(|ss|, k requires 0 <= k < |ss| => Str(ss[k])))
  }

  /** The strings of an array of strings; nothing for any other value. */
  function ArrayStrings(j: Json): Option<seq<string>> {
    if j.Array? && forall k :: 0 <= k < |j.elems| ==> j.elems[k].Str?
    then Some(seq(|j.elems|, k requires 0 <= k < |j.elems| => j.elems[k].s))
    else None
  }

  lemma ArrayStringsOfStringArray(ss: seq<string>)
    ensures ArrayStrings(StringArray(ss)) == Some(ss)
  {
    var j := StringArray(ss);
    assert forall k :: 0 <= k < |j.elems| ==> j.elems[k].Str?;
    var names := seq(|j.elems|, k requires 0 <= k < |j.elems| => j.elems[k].s);
    assert names == ss;
  }

  function OptionalString(s: Option<string>): Json {
    if s.None? then Null else Str(s.value)
  }

  /** `format_signature`: the numbers of inputs and outputs. */
  function FormatSignature(sig: F.Signature): Json {
    Object(map["inputs" := Number(sig.args), "outputs" := Number(sig.outputs)])
  }

  /** Reads a signature back from its object. */
  function ParseSignature(j: Json): Option<F.Signature> {
    if j.Object? && "inputs" in j.fields && "outputs" in j.fields
       && j.fields["inputs"].Number? && j.fields["outputs"].Number?
    then Some(F.Signature(j.fields["inputs"].n, j.fields["outputs"].n))
    else None
  }

  lemma FormatSignatureRoundTrip(sig: F.Signature)
    ensures ParseSignature(FormatSignature(sig)) == Some(sig)
    ensures FormatSignature(sig).fields.Keys == {"inputs", "outputs"}
  {
  }

  /** The output names a doc comment gives, none when it gives no list. */
  function OutputNames(doc: DocSig): seq<string> {
    if doc.outputs.None? then [] else doc.outputs.value
  }

  /** The object `signature_comment_to_object` builds. */
  function SignatureObject(doc: DocSig): Json {
    Object(map["outputs" := StringArray(OutputNames(doc)), "inputs" := StringArray(doc.args)])
  }

  /** The object lists the argument names under `inputs` and the output
      names, or none, under `outputs`, and has no other key. */
  lemma SignatureObjectNames(doc: DocSig)
    ensures var o := SignatureObject(doc);
      && o.fields.Keys == {"inputs", "outputs"}
      && ArrayStrings(o.fields["inputs"]) == Some(doc.args)
      && ArrayStrings(o.fields["outputs"]) == Some(if doc.outputs.Some? then doc.outputs.value else [])
  {
    ArrayStringsOfStringArray(doc.args);
    ArrayStringsOfStringArray(OutputNames(doc));
  }

  /** `signature_comment_to_object`: collects the argument names and the
      output names, then builds the object. */
  method SignatureCommentToObject(doc: DocSig) returns (r: Json)
    ensures r == SignatureObject(doc)
  {
    var inputs: seq<string> := [];
    for i := 0 to |doc.args|
      invariant inputs == doc.args[..i]
    {
      inputs := inputs + [doc.args[i]];
    }
    var outputs: seq<string> := [];
    if doc.outputs.Some? {
      var names := doc.outputs.value;
      for i := 0 to |names|
        invariant outputs == names[..i]
      {
        outputs := outputs + [names[i]];
      }
      assert names[..|names|] == names;
    }
    assert doc.args[..|doc.args|] == doc.args;
    var output: map<string, Json> := map[];
    output := output["outputs" := StringArray(outputs)];
    output := output["inputs" := StringArray(inputs)];
    return Object(output);
  }

  // ---------------------------------------------------------------------
  // Registry lookup and source text
  // ---------------------------------------------------------------------

  /** The first registry entry whose span is `span`, if any. */
  function FirstBinding(bindings: seq<BindingInfo>, span: F.CodeSpan): (r: Option<BindingInfo>)
    ensures r.None? <==> forall i :: 0 <= i < |bindings| ==> bindings[i].span != span
    ensures r.Some? ==> exists i :: 0 <= i < |bindings| && bindings[i] == r.value && r.value.span == span
                                     && forall j :: 0 <= j < i ==> bindings[j].span != span
    decreases |bindings|
  {
    if bindings == [] then None
    else if bindings[|bindings| - 1].span == span && FirstBinding(bindings[..|bindings| - 1], span).None?
    then Some(bindings[|bindings| - 1])
    else FirstBinding(bindings[..|bindings| - 1], span)
  }

  /** `get_binding_info`: scans the registry and returns at the first entry
      with the span. */
  method GetBindingInfo(asm: Assembly, span: F.CodeSpan) returns (r: Option<BindingInfo>)
    ensures r == FirstBinding(asm.bindings, span)
  {
    for i := 0 to |asm.bindings|
      invariant forall j :: 0 <= j < i ==> asm.bindings[j].span != span
    {
      if asm.bindings[i].span == span {
        FirstBindingAt(asm.bindings, span, i);
        return Some(asm.bindings[i]);
      }
    }
    return None;
  }

  lemma FirstBindingAt(bindings: seq<BindingInfo>, span: F.CodeSpan, i: nat)
    requires i < |bindings| && bindings[i].span == span
    requires forall j :: 0 <= j < i ==> bindings[j].span != span
    ensures FirstBinding(bindings, span) == Some(bindings[i])
  {
    var r := FirstBinding(bindings, span);
    if r.Some? {
      var k :| 0 <= k < |bindings| && bindings[k] == r.value && r.value.span == span
               && forall j :: 0 <= j < k ==> bindings[j].span != span;
      assert k == i;
    }
  }

  /** `get_words_as_code_2`: the source text from the first word of the first
      line to the last word of the last line; empty when either of those
      lines has no words. It panics on no lines at all (`unwrap`). */
  function GetWordsAsCode2(lines: seq<seq<F.Word>>, asm: Assembly): Outcome<string> {
    if lines == [] then Panic("called `Option::unwrap()` on a `None` value")
    else if lines[0] == [] || lines[|lines| - 1] == [] then Done("")
    else
      var last := lines[|lines| - 1];
      Done(asm.asStr(F.Merge(lines[0][0].span, last[|last| - 1].span)))
  }

  /** `get_words_as_code`: the source text from the first word to the last;
      empty for no words. */
  function GetWordsAsCode(words: seq<F.Word>, asm: Assembly): string {
    if words == [] then "" else asm.asStr(F.Merge(words[0].span, words[|words| - 1].span))
  }

  /** Over several lines the code runs from the first line's first word to
      the last line's last word, as for those two words on one line; a
      single line gives what `get_words_as_code` gives for it. */
  lemma WordsAsCodeLines(lines: seq<seq<F.Word>>, asm: Assembly)
    ensures GetWordsAsCode2(lines, asm).Panic? <==> lines == []
    ensures |lines| == 1 ==> GetWordsAsCode2(lines, asm) == Done(GetWordsAsCode(lines[0], asm))
    ensures lines != [] && lines[0] != [] && lines[|lines| - 1] != [] ==>
              var last := lines[|lines| - 1];
              GetWordsAsCode2(lines, asm) == Done(GetWordsAsCode([lines[0][0], last[|last| - 1]], asm))
    ensures lines != [] && (lines[0] == [] || lines[|lines| - 1] == []) ==> GetWordsAsCode2(lines, asm) == Done("")
  {
  }

  // ---------------------------------------------------------------------
  // The objects of the items
  // ---------------------------------------------------------------------

  /** A words object. */
  function WordsObject(code: string): Json {
    Object(map["type" := Str("words"), "code" := Str(code)])
  }

  /** The text of a words item cut at blank lines: CRLF turned into LF, then
      split at every `"\n\n"`. */
  function WordsPieces(code: string): seq<string> {
    Split(Replace(code, "\r\n", "\n"), "\n\n")
  }

  function WordsObjects(pieces: seq<string>): (r: seq<Json>)
    ensures |r| == |pieces| && forall k :: 0 <= k < |pieces| ==> r[k] == WordsObject(pieces[k])
  {
    seq(|pieces|, k requires 0 <= k < |pieces| => WordsObject(pieces[k]))
  }

  function CommentJson(info: BindingInfo): Json {
    if info.comment.None? then Null else Str(info.comment.value.text)
  }

  /** The keys every binding object has, from the syntax tree and the
      registry entry. */
  function BindingBase(name: F.Ident, code: string, info: BindingInfo): map<string, Json> {
    map["type" := Str("binding"), "name" := Str(name.value), "code" := Str(code),
        "public" := Bool(info.public), "comment" := CommentJson(info)]
  }

  /** The keys that depend on the binding's kind: a constant's value, a
      function's signature and its named signature; none for other kinds. */
  function KindFields(info: BindingInfo): map<string, Json> {
    match info.kind
    case Const(value) => map["kind" := Str("const"), "value" := OptionalString(value)]
    case Func(sig) =>
      var named := if info.comment.Some? && info.comment.value.sig.Some?
                   then SignatureObject(info.comment.value.sig.value) else Null;
      map["kind" := Str("func"), "signature" := FormatSignature(sig), "named_signature" := named]
    case OtherKind => map[]
  }

  function BindingObject(name: F.Ident, code: string, info: BindingInfo): Json {
    Object(BindingBase(name, code, info) + KindFields(info))
  }

  function FieldObject(field: Field, asm: Assembly): Json {
    Object(map["name" := Str(field.name.value),
               "validator" := if field.validator.None? then Null else Str(GetWordsAsCode(field.validator.value, asm))])
  }

  function FieldObjects(fields: seq<Field>, asm: Assembly): (r: seq<Json>)
    ensures |r| == |fields| && forall k :: 0 <= k < |fields| ==> r[k] == FieldObject(fields[k], asm)
  {
    seq(|fields|, k requires 0 <= k < |fields| => FieldObject(fields[k], asm))
  }

  /** The object of a data definition. */
  function DataObject(def: DataDef, asm: Assembly): Json {
    Object(map[
      "name" := if def.name.None? then Null else Str(def.name.value.value),
      "type" := Str(if def.variant then "variant" else "data"),
      "definition" := if def.fields.None? then Null
                      else Object(map["boxed" := Bool(def.fields.value.boxed),
                                      "fields" := Array(FieldObjects(def.fields.value.fields, asm))])])
  }

  /** The objects one item contributes. */
  function ItemJson(item: Item, asm: Assembly): Outcome<seq<Json>>
    decreases item, 1
  {
    match item
    case Words(lines) =>
      (match GetWordsAsCode2(lines, asm)
       case Panic(m) => Panic(m)
       case Done(code) => Done(WordsObjects(WordsPieces(code))))
    case Binding(name, span) =>
      var info := FirstBinding(asm.bindings, name.span);
      if info.None? then Done([]) else Done([BindingObject(name, asm.asStr(span), info.value)])
    case Module(kind, items) =>
      if kind.Test? then Done([])
      else
        var info := FirstBinding(asm.bindings, kind.name.span);
        if info.None? then Done([])
        else
          (match ItemsJson(items, asm)
           case Panic(m) => Panic(m)
           case Done(objs) => Done([Object(map["type" := Str("module"), "name" := Str(kind.name.value),
                                               "comment" := CommentJson(info.value), "items" := Array(objs)])]))
    case Data(def) => Done([DataObject(def, asm)])
    case Import(path) => Done([Object(map["type" := Str("import"), "path" := Str(path)])])
  }

  /** The objects of the items one after another, stopping at a panic. */
  function ItemsJson(items: seq<Item>, asm: Assembly): Outcome<seq<Json>>
    decreases items, 2
  {
    if items == [] then Done([])
    else AndThen(ItemsJson(items[..|items| - 1], asm), ItemJson(items[|items| - 1], asm))
  }

  /** The objects of one part of the walk followed by those of the next;
      the first panic met ends the walk. */
  function AndThen(x: Outcome<seq<Json>>, y: Outcome<seq<Json>>): (r: Outcome<seq<Json>>)
    ensures r.Panic? <==> x.Panic? || y.Panic?
    ensures x.Panic? ==> r == x
    ensures x.Done? && y.Done? ==> r.Done? && r.value == x.value + y.value
  {
    match x
    case Panic(m) => Panic(m)
    case Done(a) =>
      match y
      case Panic(m) => Panic(m)
      case Done(b) => Done(a + b)
  }

  // ---------------------------------------------------------------------
  // The walk
  // ---------------------------------------------------------------------

  lemma {:induction false} ItemsJsonPanicPrefix(items: seq<Item>, k: nat, asm: Assembly)
    requires k <= |items| && ItemsJson(items[..k], asm).Panic?
    ensures ItemsJson(items, asm) == ItemsJson(items[..k], asm)
    decreases |items| - k
  {
    if k < |items| {
      assert items[..k + 1][..k] == items[..k];
      ItemsJsonPanicPrefix(items, k + 1, asm);
    } else {
      assert items[..k] == items;
    }
  }

  /** `handle_ast_items`: the objects of the items, in order. */
  method HandleAstItems(items: seq<Item>, asm: Assembly) returns (r: Outcome<seq<Json>>)
    ensures r == ItemsJson(items, asm)
    decreases items, 2
  {
    var results: seq<Json> := [];
    for i := 0 to |items|
      invariant ItemsJson(items[..i], asm) == Done(results)
    {
      assert items[..i + 1][..i] == items[..i];
      var out := HandleItem(items[i], asm);
      if out.Panic? {
        ItemsJsonPanicPrefix(items, i + 1, asm);
        return Panic(out.message);
      }
      results := results + out.value;
    }
    assert items[..|items|] == items;
    return Done(results);
  }

  /** The body of the loop of `handle_ast_items`, for one item. */
  method HandleItem(item: Item, asm: Assembly) returns (r: Outcome<seq<Json>>)
    ensures r == ItemJson(item, asm)
    decreases item, 1
  {
    match item {
      case Words(lines) =>
        var code := GetWordsAsCode2(lines, asm);
        if code.Panic? {
          return Panic(code.message);
        }
        var pieces := WordsPieces(code.value);
        var results: seq<Json> := [];
        for k := 0 to |pieces|
          invariant results == WordsObjects(pieces[..k])
        {
          var output: map<string, Json> := map[];
          output := output["type" := Str("words")];
          output := output["code" := Str(pieces[k])];
          results := results + [Object(output)];
        }
        assert pieces[..|pieces|] == pieces;
        return Done(results);
      case Binding(name, span) =>
        var info := GetBindingInfo(asm, name.span);
        if info.None? {
          return Done([]);
        }
        var output := BindingBase(name, asm.asStr(span), info.value);
        match info.value.kind {
          case Const(value) =>
            output := output["kind" := Str("const")];
            output := output["value" := OptionalString(value)];
          case Func(sig) =>
            var named := Null;
            if info.value.comment.Some? && info.value.comment.value.sig.Some? {
              named := SignatureCommentToObject(info.value.comment.value.sig.value);
            }
            output := output["kind" := Str("func")];
            output := output["signature" := FormatSignature(sig)];
            output := output["named_signature" := named];
          case OtherKind =>
        }
        assert output == BindingBase(name, asm.asStr(span), info.value) + KindFields(info.value);
        return Done([Object(output)]);
      case Module(kind, sub) =>
        if kind.Test? {
          return Done([]);
        }
        var info := GetBindingInfo(asm, kind.name.span);
        if info.None? {
          return Done([]);
        }
        var processed := HandleAstItems(sub, asm);
        if processed.Panic? {
          return Panic(processed.message);
        }
        var output: map<string, Json> := map[];
        output := output["type" := Str("module")];
        output := output["name" := Str(kind.name.value)];
        output := output["comment" := CommentJson(info.value)];
        output := output["items" := Array(processed.value)];
        return Done([Object(output)]);
      case Data(def) =>
        return Done([DataObject(def, asm)]);
      case Import(path) =>
        var output: map<string, Json> := map[];
        output := output["type" := Str("import")];
        output := output["path" := Str(path)];
        return Done([Object(output)]);
    }
  }
}

/** What the JSON walk promises about each kind of item. */
module JsonExtractorProofs {
  import opened Wrappers
  import opened Text
  import F = Frontend
  import opened JsonExtractor

  /** A words item the first or last line of which has words gives one words
      object per blank-line-separated piece of its code, and the pieces
      joined with a blank line give back the code with CRLF turned into LF.
      Without any line the walk panics. */
  lemma WordsItemPieces(lines: seq<seq<F.Word>>, asm: Assembly)
    ensures ItemJson(Words(lines), asm).Panic? <==> lines == []
    ensures lines != [] ==>
      var code := GetWordsAsCode2(lines, asm).value;
      var objs := ItemJson(Words(lines), asm).value;
      && |objs| == |WordsPieces(code)|
      && (forall k :: 0 <= k < |objs| ==>
            objs[k].Object? && objs[k].fields.Keys == {"type", "code"}
            && objs[k].fields["type"] == Str("words") && objs[k].fields["code"] == Str(WordsPieces(code)[k]))
      && Join(WordsPieces(code), "\n\n") == Replace(code, "\r\n", "\n")
  {
    WordsAsCodeLines(lines, asm);
    if lines != [] {
      SplitJoin(Replace(GetWordsAsCode2(lines, asm).value, "\r\n", "\n"), "\n\n");
    }
  }

  /** Every binding object carries its kind, name, code, visibility and
      comment. */
  lemma BindingObjectBase(name: F.Ident, code: string, info: BindingInfo)
    ensures var o := BindingObject(name, code, info).fields;
      && o["type"] == Str("binding") && o["name"] == Str(name.value) && o["code"] == Str(code)
      && o["public"] == Bool(info.public)
      && (o["comment"] == Null <==> info.comment.None?)
  {
    var b, k := BindingBase(name, code, info), KindFields(info);
    assert BindingObject(name, code, info).fields == b + k;
    assert "type" !in k && "name" !in k && "code" !in k && "public" !in k && "comment" !in k by {
      assert k.Keys <= {"kind", "value", "signature", "named_signature"};
    }
  }

  /** A constant's object adds its kind and its value. */
  lemma ConstObjectShape(name: F.Ident, code: string, info: BindingInfo)
    requires info.kind.Const?
    ensures var o := BindingObject(name, code, info).fields;
      && o.Keys == {"type", "name", "code", "public", "comment", "kind", "value"}
      && o["kind"] == Str("const")
      && (o["value"] == Null <==> info.kind.value.None?)
  {
    var b, k := BindingBase(name, code, info), KindFields(info);
    assert b.Keys == {"type", "name", "code", "public", "comment"};
    assert k.Keys == {"kind", "value"};
    assert BindingObject(name, code, info).fields == b + k;
  }

  /** A function's object adds its kind, its signature, which reads back as
      the function's signature, and its named signature, null exactly when
      the doc comment gives no names. */
  lemma FuncObjectShape(name: F.Ident, code: string, info: BindingInfo)
    requires info.kind.Func?
    ensures var o := BindingObject(name, code, info).fields;
      && o.Keys == {"type", "name", "code", "public", "comment", "kind", "signature", "named_signature"}
      && o["kind"] == Str("func")
      && ParseSignature(o["signature"]) == Some(info.kind.sig)
      && (o["named_signature"] == Null <==> info.comment.None? || info.comment.value.sig.None?)
  {
    var b, k := BindingBase(name, code, info), KindFields(info);
    assert b.Keys == {"type", "name", "code", "public", "comment"};
    assert k.Keys == {"kind", "signature", "named_signature"};
    assert BindingObject(name, code, info).fields == b + k;
    FormatSignatureRoundTrip(info.kind.sig);
  }

  /** Any other binding's object has only the shared keys. */
  lemma OtherObjectShape(name: F.Ident, code: string, info: BindingInfo)
    requires info.kind.OtherKind?
    ensures BindingObject(name, code, info).fields.Keys == {"type", "name", "code", "public", "comment"}
  {
    assert KindFields(info) == map[];
    assert BindingObject(name, code, info).fields == BindingBase(name, code, info);
  }

  /** A binding missing from the registry gives nothing; any other gives
      its one object. */
  lemma BindingItemShape(name: F.Ident, span: F.CodeSpan, asm: Assembly)
    ensures var info := FirstBinding(asm.bindings, name.span);
      && (info.None? <==> ItemJson(Binding(name, span), asm) == Done([]))
      && (info.Some? ==> ItemJson(Binding(name, span), asm) == Done([BindingObject(name, asm.asStr(span), info.value)]))
  {
  }

  /** Test modules and modules missing from the registry give nothing; any
      other module gives one object whose items are the walk of its items. */
  lemma ModuleItemShape(kind: F.ModuleKind, items: seq<Item>, asm: Assembly)
    ensures kind.Test? ==> ItemJson(Module(kind, items), asm) == Done([])
    ensures kind.Named? && FirstBinding(asm.bindings, kind.name.span).None? ==> ItemJson(Module(kind, items), asm) == Done([])
    ensures kind.Named? && FirstBinding(asm.bindings, kind.name.span).Some? ==>
      (ItemJson(Module(kind, items), asm).Panic? <==> ItemsJson(items, asm).Panic?)
      && (ItemsJson(items, asm).Done? ==>
            var objs := ItemJson(Module(kind, items), asm).value;
            && |objs| == 1 && objs[0].Object?
            && objs[0].fields.Keys == {"type", "name", "comment", "items"}
            && objs[0].fields["type"] == Str("module") && objs[0].fields["name"] == Str(kind.name.value)
            && objs[0].fields["items"] == Array(ItemsJson(items, asm).value))
  {
  }

  /** A data definition gives one object; its type says record or variant,
      and its definition is null exactly when it has no fields, otherwise
      it lists one object per field. */
  lemma DataItemShape(def: DataDef, asm: Assembly)
    ensures var objs := ItemJson(Data(def), asm);
      && objs.Done? && |objs.value| == 1 && objs.value[0].Object?
      && var o := objs.value[0].fields;
      && o.Keys == {"name", "type", "definition"}
      && o["type"] == Str(if def.variant then "variant" else "data")
      && (o["name"] == Null <==> def.name.None?)
      && (def.name.Some? ==> o["name"] == Str(def.name.value.value))
      && (o["definition"] == Null <==> def.fields.None?)
      && (def.fields.Some? ==>
            o["definition"].Object? && o["definition"].fields["boxed"] == Bool(def.fields.value.boxed)
            && o["definition"].fields["fields"].Array?
            && |o["definition"].fields["fields"].elems| == |def.fields.value.fields|)
  {
  }

  /** Each field of a data definition becomes an object with its name and
      its validator's code, or null when it has no validator. */
  lemma DataFieldShape(def: DataDef, asm: Assembly, k: nat)
    requires def.fields.Some? && k < |def.fields.value.fields|
    ensures var fs := def.fields.value.fields;
      var objs := ItemJson(Data(def), asm);
      && objs.Done? && |objs.value| == 1 && objs.value[0].Object?
      && "definition" in objs.value[0].fields && objs.value[0].fields["definition"].Object?
      && "fields" in objs.value[0].fields["definition"].fields
      && objs.value[0].fields["definition"].fields["fields"].Array?
      && k < |objs.value[0].fields["definition"].fields["fields"].elems|
      && var e := objs.value[0].fields["definition"].fields["fields"].elems[k];
      && e.Object? && e.fields.Keys == {"name", "validator"}
      && e.fields["name"] == Str(fs[k].name.value)
      && (e.fields["validator"] == Null <==> fs[k].validator.None?)
      && (fs[k].validator.Some? ==> e.fields["validator"] == Str(GetWordsAsCode(fs[k].validator.value, asm)))
  {
    DataItemShape(def, asm);
  }

  lemma ImportItemShape(path: string, asm: Assembly)
    ensures ItemJson(Import(path), asm) == Done([Object(map["type" := Str("import"), "path" := Str(path)])])
  {
  }

  /** The walk of two runs of items is the walk of the first followed by the
      walk of the second: the first's objects, then the second's, ended by
      the first panic met. */
  lemma {:induction false} ItemsJsonAppend(a: seq<Item>, b: seq<Item>, asm: Assembly)
    ensures ItemsJson(a + b, asm) == AndThen(ItemsJson(a, asm), ItemsJson(b, asm))
    decreases |b|
  {
    if b == [] {
      assert a + b == a;
      AndThenEmpty(ItemsJson(a, asm));
    } else {
      var init, last := b[..|b| - 1], b[|b| - 1];
      assert (a + b)[..|a + b| - 1] == a + init;
      assert (a + b)[|a + b| - 1] == last;
      ItemsJsonAppend(a, init, asm);
      AndThenAssoc(ItemsJson(a, asm), ItemsJson(init, asm), ItemJson(last, asm));
    }
  }

  lemma AndThenEmpty(x: Outcome<seq<Json>>)
    ensures AndThen(x, Done([])) == x
  {
    if x.Done? {
      assert x.value + [] == x.value;
    }
  }

  lemma AndThenAssoc(x: Outcome<seq<Json>>, y: Outcome<seq<Json>>, z: Outcome<seq<Json>>)
    ensures AndThen(AndThen(x, y), z) == AndThen(x, AndThen(y, z))
  {
    if x.Done? && y.Done? && z.Done? {
      assert (x.value + y.value) + z.value == x.value + (y.value + z.value);
    }
  }

  /** One item walks to the objects of that item. */
  lemma ItemsJsonSingle(item: Item, asm: Assembly)
    ensures ItemsJson([item], asm) == ItemJson(item, asm)
  {
    assert [item][..0] == [];
    if ItemJson(item, asm).Done? {
      assert [] + ItemJson(item, asm).value == ItemJson(item, asm).value;
    }
  }
}
