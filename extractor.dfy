/** The documentation model of a Uiua library (`src/extractor.rs`): the
    item tree built from a parsed file and the compiler's binding registry,
    and the reconciliation of a function's arity with the names given in
    its doc comment and, for a data constructor, in its fields. */
module Extractor {
  import opened Wrappers
  import opened Text
  import opened Seqs
  import F = Frontend

  // ---------------------------------------------------------------------
  // The documentation model
  // ---------------------------------------------------------------------

  /** A function's arity: how many values it takes and how many it leaves. */
  datatype SignatureInfo = SignatureInfo(inputs: nat, outputs: nat)

  /** Argument and output names taken from a doc comment's signature line. */
  datatype NamedSignature = NamedSignature(inputs: seq<string>, outputs: seq<string>)

  datatype Field = Field(name: string, validator: Option<string>)

  datatype Definition = Definition(boxed: bool, fields: seq<Field>)

  /** One input of a documented function. `inferred` marks a name made up
      from the arity alone; `commentName` keeps a doc-comment name that lost
      to a field name. */
  datatype FunctionArgument = FunctionArgument(name: string, optional: bool, commentName: Option<string>, inferred: bool)

  datatype FunctionOutput = FunctionOutput(name: string, inferred: bool)

  datatype FunctionDefinition = FunctionDefinition(
    requiredInputs: seq<FunctionArgument>,
    optionalInputs: seq<FunctionArgument>,
    outputs: seq<FunctionOutput>)
  {
    /** The arity the documented inputs and outputs describe. */
    function Signature(): SignatureInfo {
      SignatureInfo(|requiredInputs|, |outputs|)
    }

    /** All inputs: the required ones, then the optional ones. */
    function Inputs(): seq<FunctionArgument> {
      requiredInputs + optionalInputs
    }
  }

  /** A constructor argument: a data field's name, required unless the field
      has a default value. */
  datatype NamedArgument = NamedArgument(name: string, required: bool)

  datatype BindingType =
    | Const(value: Option<string>)
    | Function(definition: FunctionDefinition)
    | IndexMacro(arguments: nat, indexSignature: Option<NamedSignature>)
    | CodeMacro(codeSignature: Option<NamedSignature>)

  datatype BindingDefinition = BindingDefinition(
    name: string, code: string, public: bool, comment: Option<string>, kind: BindingType)

  datatype ModuleDefinition = ModuleDefinition(name: string, comment: Option<string>, items: seq<ItemContent>)

  datatype DataDefinition = DataDefinition(name: Option<string>, comment: Option<string>, definition: Option<Definition>)

  datatype VariantDefinition = VariantDefinition(name: string, comment: Option<string>, definition: Option<Definition>)

  /** One documented item of a file or module. */
  datatype ItemContent =
    | Words(code: string)
    | Binding(bindingDef: BindingDefinition)
    | Module(moduleDef: ModuleDefinition)
    | Data(dataDef: DataDefinition)
    | Variant(variantDef: VariantDefinition)
    | Import(path: string)

  predicate IsWords(item: ItemContent) {
    item.Words?
  }

  predicate IsNotWords(item: ItemContent) {
    !item.Words?
  }

  // ---------------------------------------------------------------------
  // Signatures: display and highlight class
  // ---------------------------------------------------------------------

  /** The `Display` form of an arity: `|2` for one output, `|2.3` otherwise. */
  function ShowSignature(s: SignatureInfo): string {
    if s.outputs == 1 then "|" + NatToString(s.inputs)
    else "|" + NatToString(s.inputs) + "." + NatToString(s.outputs)
  }

  /** Reads an arity back from its display form. */
  function ParseSignature(t: string): Option<SignatureInfo> {
    if t == [] || t[0] != '|' then None
    else
      var parts := SplitOn(t[1..], '.');
      if |parts| == 1 && parts[0] != [] && AllDigits(parts[0]) then
        Some(SignatureInfo(ParseNat(parts[0]), 1))
      else if |parts| == 2 && parts[0] != [] && parts[1] != [] && AllDigits(parts[0]) && AllDigits(parts[1]) then
        Some(SignatureInfo(ParseNat(parts[0]), ParseNat(parts[1])))
      else None
  }

  /** The display form determines the arity: parsing it gives it back. */
  lemma {:induction false} ShowSignatureRoundTrip(s: SignatureInfo)
    ensures ParseSignature(ShowSignature(s)) == Some(s)
  {
    var a := NatToString(s.inputs);
    ParseNatToString(s.inputs);
    DigitsHaveNoDot(a);
    if s.outputs == 1 {
      assert ShowSignature(s)[1..] == a;
      SplitOnFree(a, '.');
    } else {
      var b := NatToString(s.outputs);
      ParseNatToString(s.outputs);
      DigitsHaveNoDot(b);
      assert ShowSignature(s)[1..] == a + ['.'] + b;
      SplitOnAppend(a, b, '.');
      SplitOnFree(a, '.');
      SplitOnFree(b, '.');
    }
  }

  lemma DigitsHaveNoDot(s: string)
    requires AllDigits(s)
    ensures '.' !in s
  {
    forall i | 0 <= i < |s| ensures s[i] != '.' {
      assert IsDigit(s[i]);
    }
  }

  /** The highlight class of a function of this arity. */
  function SignatureColorClass(s: SignatureInfo): string {
    match s.inputs
    case 0 => "noadic-function"
    case 1 => "monadic-function"
    case 2 => "dyadic-function"
    case 3 => "triadic-function"
    case 4 => "tetradic-function"
    case _ => ""
  }

  /** The highlight class of an index macro taking `arguments` operands. */
  function IndexMacroColorClass(arguments: nat): string {
    match arguments
    case 1 => "monadic-modifier"
    case 2 => "dyadic-modifier"
    case _ => "triadic-modifier"
  }

  // ---------------------------------------------------------------------
  // Registry lookup
  // ---------------------------------------------------------------------

  /** The first registry entry whose span is `span`, if any. */
  function FindBinding(bindings: seq<F.BindingInfo>, span: F.CodeSpan): (r: Option<F.BindingInfo>)
    ensures r.None? <==> forall i :: 0 <= i < |bindings| ==> bindings[i].span != span
    ensures r.Some? ==> exists i :: 0 <= i < |bindings| && bindings[i] == r.value && r.value.span == span
                                     && forall j :: 0 <= j < i ==> bindings[j].span != span
    decreases |bindings|
  {
    if bindings == [] then None
    else if bindings[0].span == span then Some(bindings[0])
    else
      var r := FindBinding(bindings[1..], span);
      assert r.Some? ==> exists i :: 0 < i < |bindings| && bindings[i] == r.value && r.value.span == span
                                      && forall j :: 0 <= j < i ==> bindings[j].span != span by {
        if r.Some? {
          var i :| 0 <= i < |bindings[1..]| && bindings[1..][i] == r.value && r.value.span == span
                   && forall j :: 0 <= j < i ==> bindings[1..][j].span != span;
          assert bindings[i + 1] == r.value;
          forall j | 0 <= j < i + 1 ensures bindings[j].span != span {
            if j > 0 {
              assert bindings[j] == bindings[1..][j - 1];
            }
          }
        }
      }
      r
  }

  function GetBindingInfo(asm: F.Assembly, span: F.CodeSpan): Option<F.BindingInfo> {
    FindBinding(asm.bindings, span)
  }

  // ---------------------------------------------------------------------
  // Reconciling arity with doc-comment and field names
  // ---------------------------------------------------------------------

  function InferredInput(name: string): FunctionArgument {
    FunctionArgument(name, false, None, true)
  }

  function InferredOutput(name: string): FunctionOutput {
    FunctionOutput(name, true)
  }

  /** The made-up name of slot `i` (counting from 0) out of `count`: just
      `base` when there is one slot, `base` followed by `i + 1` otherwise. */
  function DefaultName(base: string, count: nat, i: nat): string {
    if count == 1 then base else base + NatToString(i + 1)
  }

  function DefaultInputs(count: nat): seq<FunctionArgument> {
    match count
    case 0 => []
    case 1 => [InferredInput("Input")]
    case _ => seq(count, i requires 0 <= i < count => InferredInput("Input" + NatToString(i + 1)))
  }

  function DefaultOutputs(count: nat): seq<FunctionOutput> {
    match count
    case 0 => []
    case 1 => [InferredOutput("Output")]
    case _ => seq(count, i requires 0 <= i < count => InferredOutput("Output" + NatToString(i + 1)))
  }

  /** `coerce_vector_length`: `v` wrapped in `Some`, cut or padded with
      `None` to exactly `length` entries. */
  function CoerceVectorLength<T>(v: seq<T>, length: nat): (r: seq<Option<T>>)
    ensures |r| == length
    ensures forall i :: 0 <= i < length ==> r[i] == if i < |v| then Some(v[i]) else None
  {
    var coerced := seq(|v|, i requires 0 <= i < |v| => Some(v[i]));
    if length <= |coerced| then coerced[..length]
    else coerced + seq(length - |coerced|, _ => None)
  }

  /** One required input: the default unless some name is given; a field
      name beats a comment name. */
  function RequiredSlot(default: FunctionArgument, commentName: Option<string>, fieldName: Option<string>): FunctionArgument {
    if commentName.None? && fieldName.None? then default
    else
      var name := if fieldName.Some? then fieldName.value else commentName.value;
      FunctionArgument(name, false, if commentName.Some? && commentName.value != name then commentName else None, false)
  }

  function OutputSlot(default: FunctionOutput, fieldName: Option<string>): FunctionOutput {
    if fieldName.None? then default else FunctionOutput(fieldName.value, false)
  }

  function Names(args: seq<NamedArgument>): (r: seq<string>)
    ensures |r| == |args| && forall k :: 0 <= k < |args| ==> r[k] == args[k].name
  {
    seq(|args|, k requires 0 <= k < |args| => args[k].name)
  }

  predicate IsRequired(arg: NamedArgument) {
    arg.required
  }

  predicate IsOptional(arg: NamedArgument) {
    !arg.required
  }

  /** The names of the required named arguments, in declaration order. */
  function RequiredArgumentNames(named: Option<seq<NamedArgument>>): seq<string> {
    Names(Filter(IsRequired, named.GetOr([])))
  }

  /** The names of the optional named arguments, in declaration order. */
  function OptionalArgumentNames(named: Option<seq<NamedArgument>>): seq<string> {
    Names(Filter(IsOptional, named.GetOr([])))
  }

  function CommentInputNames(ns: Option<NamedSignature>): seq<string> {
    if ns.None? then [] else ns.value.inputs
  }

  function CommentOutputNames(ns: Option<NamedSignature>): seq<string> {
    if ns.None? then [] else ns.value.outputs
  }

  /** `reconsiliate_function_definition`: the documented inputs and outputs
      of a function of arity `signature`, named from its doc comment and,
      for a data constructor, from its fields. */
  function ReconcileFunctionDefinition(
    signature: SignatureInfo,
    namedSignature: Option<NamedSignature>,
    namedArguments: Option<seq<NamedArgument>>): (r: FunctionDefinition)
    ensures |r.requiredInputs| == signature.inputs && |r.outputs| == signature.outputs
  {
    var defaults := DefaultInputs(signature.inputs);
    var defaultOutputs := DefaultOutputs(signature.outputs);
    var sigNames := namedSignature.GetOr(NamedSignature([], []));
    var commentNames := CoerceVectorLength(sigNames.inputs, |defaults|);
    var fieldNames := CoerceVectorLength(RequiredArgumentNames(namedArguments), |defaults|);
    var optionalNames := OptionalArgumentNames(namedArguments);
    var outputNames := CoerceVectorLength(sigNames.outputs, |defaultOutputs|);
    FunctionDefinition(
      seq(|defaults|, i requires 0 <= i < |defaults| => RequiredSlot(defaults[i], commentNames[i], fieldNames[i])),
      seq(|optionalNames|, k requires 0 <= k < |optionalNames| => FunctionArgument(optionalNames[k], true, None, false)),
      seq(|defaultOutputs|, i requires 0 <= i < |defaultOutputs| => OutputSlot(defaultOutputs[i], outputNames[i])))
  }

  /** The made-up inputs are named by `DefaultName`, in slot order. */
  lemma DefaultInputsNamed(count: nat)
    ensures |DefaultInputs(count)| == count
    ensures forall i :: 0 <= i < count ==> DefaultInputs(count)[i] == InferredInput(DefaultName("Input", count, i))
  {
  }

  lemma DefaultOutputsNamed(count: nat)
    ensures |DefaultOutputs(count)| == count
    ensures forall i :: 0 <= i < count ==> DefaultOutputs(count)[i] == InferredOutput(DefaultName("Output", count, i))
  {
  }

  /** Required slot `i`: with neither a comment nor a field name at that
      position it keeps the made-up name; otherwise it takes the field name,
      or failing that the comment name, is neither optional nor inferred,
      and keeps the comment name aside exactly when it differs. */
  lemma ReconcileRequiredInputs(
    signature: SignatureInfo,
    namedSignature: Option<NamedSignature>,
    namedArguments: Option<seq<NamedArgument>>,
    i: nat)
    requires i < signature.inputs
    ensures
      var r := ReconcileFunctionDefinition(signature, namedSignature, namedArguments).requiredInputs[i];
      var c, f := CommentInputNames(namedSignature), RequiredArgumentNames(namedArguments);
      if i >= |c| && i >= |f| then
        r == InferredInput(DefaultName("Input", signature.inputs, i))
      else
        && r.name == (if i < |f| then f[i] else c[i])
        && !r.optional && !r.inferred
        && r.commentName == (if i < |c| && c[i] != r.name then Some(c[i]) else None)
  {
    DefaultInputsNamed(signature.inputs);
    var sigNames := namedSignature.GetOr(NamedSignature([], []));
    assert sigNames.inputs == CommentInputNames(namedSignature);
  }

  /** The optional inputs are exactly the optional named arguments, in
      order, marked optional; they take no arity slot. */
  lemma ReconcileOptionalInputs(
    signature: SignatureInfo,
    namedSignature: Option<NamedSignature>,
    namedArguments: Option<seq<NamedArgument>>)
    ensures
      var r := ReconcileFunctionDefinition(signature, namedSignature, namedArguments).optionalInputs;
      var o := OptionalArgumentNames(namedArguments);
      |r| == |o| && forall k :: 0 <= k < |o| ==> r[k] == FunctionArgument(o[k], true, None, false)
  {
  }

  /** Output `i` takes the doc-comment output name at that position when
      there is one, and the made-up name otherwise. */
  lemma ReconcileOutputs(
    signature: SignatureInfo,
    namedSignature: Option<NamedSignature>,
    namedArguments: Option<seq<NamedArgument>>,
    i: nat)
    requires i < signature.outputs
    ensures
      var r := ReconcileFunctionDefinition(signature, namedSignature, namedArguments).outputs[i];
      var c := CommentOutputNames(namedSignature);
      r == if i < |c| then FunctionOutput(c[i], false) else InferredOutput(DefaultName("Output", signature.outputs, i))
  {
    DefaultOutputsNamed(signature.outputs);
    var sigNames := namedSignature.GetOr(NamedSignature([], []));
    assert sigNames.outputs == CommentOutputNames(namedSignature);
  }

  /** The documented function has exactly the arity it was built from. */
  lemma ReconcileSignature(
    signature: SignatureInfo,
    namedSignature: Option<NamedSignature>,
    namedArguments: Option<seq<NamedArgument>>)
    ensures ReconcileFunctionDefinition(signature, namedSignature, namedArguments).Signature() == signature
  {
  }

  /** All inputs: the arity's required slots first, then the optional ones. */
  lemma ReconcileInputs(
    signature: SignatureInfo,
    namedSignature: Option<NamedSignature>,
    namedArguments: Option<seq<NamedArgument>>)
    ensures
      var d := ReconcileFunctionDefinition(signature, namedSignature, namedArguments);
      && |d.Inputs()| == signature.inputs + |OptionalArgumentNames(namedArguments)|
      && (forall k :: 0 <= k < signature.inputs ==> !d.Inputs()[k].optional)
      && (forall k :: signature.inputs <= k < |d.Inputs()| ==> d.Inputs()[k].optional)
  {
    DefaultInputsNamed(signature.inputs);
  }

  /** Made-up names of different slots differ. */
  lemma DefaultNamesDistinct(base: string, count: nat, i: nat, j: nat)
    requires i < count && j < count && i != j
    ensures DefaultName(base, count, i) != DefaultName(base, count, j)
  {
    var a, b := NatToString(i + 1), NatToString(j + 1);
    ParseNatToString(i + 1);
    ParseNatToString(j + 1);
    assert (base + a)[|base|..] == a;
    assert (base + b)[|base|..] == b;
  }

  /** `From<DocCommentSig>`: absent name lists become empty ones. */
  function NamedSignatureOf(sig: F.DocCommentSig): NamedSignature {
    NamedSignature(sig.args.GetOr([]), sig.outputs.GetOr([]))
  }

  // ---------------------------------------------------------------------
  // Words and registry metadata
  // ---------------------------------------------------------------------

  /** A run of code words: its text with CRLF turned into LF, the line the
      first word ends on, and the line the last word ends on. */
  datatype WordsChunk = WordsChunk(text: string, lineFrom: nat, lineTo: nat)

  /** `get_words_as_code_2`: nothing for no words, otherwise the source text
      from the first word to the last. */
  function GetWordsAsCode2(words: seq<F.Word>, asm: F.Assembly): (r: Option<WordsChunk>)
    ensures r.None? <==> words == []
    ensures r.Some? ==> r.value.lineFrom == words[0].span.end.line && r.value.lineTo == words[|words| - 1].span.end.line
    ensures r.Some? && !ContainsSub(asm.asStr(F.Merge(words[0].span, words[|words| - 1].span)), "\r\n") ==>
              r.value.text == asm.asStr(F.Merge(words[0].span, words[|words| - 1].span))
    ensures r.Some? ==> r.value.text == Replace(asm.asStr(F.Merge(words[0].span, words[|words| - 1].span)), "\r\n", "\n")
  {
    if words == [] then None
    else
      var from, to := words[0].span, words[|words| - 1].span;
      var text := asm.asStr(F.Merge(from, to));
      ReplaceAbsent(text, "\r\n", "\n");
      Some(WordsChunk(Replace(text, "\r\n", "\n"), from.end.line, to.end.line))
  }

  /** `get_words_as_code`: the source text from the first word to the last,
      empty for no words. */
  function GetWordsAsCode(words: seq<F.Word>, asm: F.Assembly): string {
    if words == [] then "" else asm.asStr(F.Merge(words[0].span, words[|words| - 1].span))
  }

  function CommentText(info: F.BindingInfo): Option<string> {
    if info.comment.None? then None else Some(info.comment.value.text)
  }

  function CommentSignature(info: F.BindingInfo): Option<NamedSignature> {
    if info.comment.None? || info.comment.value.sig.None? then None
    else Some(NamedSignatureOf(info.comment.value.sig.value))
  }

  function SignatureInfoOf(sig: F.Signature): SignatureInfo {
    SignatureInfo(sig.args, sig.outputs)
  }

  /** The documented kind of a binding; modules, imports, scopes and
      erroneous bindings have none. */
  function BindingTypeOf(info: F.BindingInfo): (r: Option<BindingType>)
    ensures r.None? <==> !(info.kind.ConstKind? || info.kind.FuncKind? || info.kind.IndexMacroKind? || info.kind.CodeMacroKind?)
  {
    match info.kind
    case ConstKind(value) => Some(Const(value))
    case FuncKind(sig) => Some(Function(ReconcileFunctionDefinition(SignatureInfoOf(sig), CommentSignature(info), None)))
    case IndexMacroKind(args) => Some(IndexMacro(args, CommentSignature(info)))
    case CodeMacroKind => Some(CodeMacro(CommentSignature(info)))
    case _ => None
  }

  // ---------------------------------------------------------------------
  // Data definitions
  // ---------------------------------------------------------------------

  function ConstructorArguments(fields: seq<F.DataField>, asm: F.Assembly): (r: seq<NamedArgument>)
    ensures |r| == |fields|
    ensures forall k :: 0 <= k < |fields| ==> r[k] == NamedArgument(asm.asStr(fields[k].name.span), !fields[k].hasInit)
  {
    seq(|fields|, k requires 0 <= k < |fields| => NamedArgument(asm.asStr(fields[k].name.span), !fields[k].hasInit))
  }

  function FieldOf(field: F.DataField, asm: F.Assembly): Field {
    Field(field.name.value, if field.validator.None? then None else Some(GetWordsAsCode(field.validator.value, asm)))
  }

  function DefinitionOf(fields: F.DataFields, asm: F.Assembly): Definition {
    Definition(fields.boxed, seq(|fields.fields|, k requires 0 <= k < |fields.fields| => FieldOf(fields.fields[k], asm)))
  }

  /** `data_def_to_item`. A data definition with a constructor becomes a
      function binding whose arity comes from the module's `Call` function;
      otherwise it becomes a variant or a data item. Broken compiler
      invariants abort the whole run. */
  function DataDefToItem(def: F.DataDef, asm: F.Assembly): (r: Outcome<ItemContent>)
    ensures r.Done? ==> !r.value.Words?
  {
    var info := if def.name.None? then None else GetBindingInfo(asm, def.name.value.span);
    if def.name.Some? && info.None? then Panic("Data definition without binding info")
    else
      var name := if def.name.None? then None else Some(def.name.value.value);
      var comment := if info.None? then None else CommentText(info.value);
      if def.hasFunc then
        // A constructor: `info` is present exactly when the definition is named.
        if info.None? then Panic("Data Function without info")
        else if !info.value.kind.ModuleBindingKind? then Panic("Data function without module binding")
        else if info.value.kind.call.None? then Panic("Data function without Call binding")
        else if def.fields.None? then Panic("Data Function without fields")
        else
          var arguments := ConstructorArguments(def.fields.value.fields, asm);
          Done(Binding(BindingDefinition(
            def.name.value.value,
            asm.asStr(def.span),
            def.public,
            comment,
            Function(ReconcileFunctionDefinition(
              SignatureInfoOf(info.value.kind.call.value), CommentSignature(info.value), Some(arguments))))))
      else
        var definition := if def.fields.None? then None else Some(DefinitionOf(def.fields.value, asm));
        if def.variant then
          if name.None? then Panic("Variant without a name")
          else Done(Variant(VariantDefinition(name.value, comment, definition)))
        else Done(Data(DataDefinition(name, comment, definition)))
  }

  /** The items of the definitions in turn, stopping at the first panic. */
  function DataDefsToItems(defs: seq<F.DataDef>, asm: F.Assembly): (r: Outcome<seq<ItemContent>>)
    ensures r.Done? ==> |r.value| == |defs|
    ensures r.Done? ==> forall k :: 0 <= k < |r.value| ==> !r.value[k].Words?
    decreases |defs|
  {
    if defs == [] then Done([])
    else match DataDefsToItems(defs[..|defs| - 1], asm)
      case Panic(m) => Panic(m)
      case Done(items) =>
        match DataDefToItem(defs[|defs| - 1], asm)
        case Panic(m) => Panic(m)
        case Done(item) => Done(items + [item])
  }

  lemma {:induction false} DataDefsPanicPrefix(defs: seq<F.DataDef>, k: nat, asm: F.Assembly)
    requires k <= |defs| && DataDefsToItems(defs[..k], asm).Panic?
    ensures DataDefsToItems(defs, asm) == DataDefsToItems(defs[..k], asm)
    decreases |defs| - k
  {
    if k < |defs| {
      assert defs[..k + 1][..k] == defs[..k];
      DataDefsPanicPrefix(defs, k + 1, asm);
    } else {
      assert defs[..k] == defs;
    }
  }

  // ---------------------------------------------------------------------
  // Public content
  // ---------------------------------------------------------------------

  /** An item that makes its module worth listing. */
  predicate IsPublicItem(item: ItemContent) {
    match item
    case Binding(b) => b.public
    case Module(m) => HasPublicItems(m)
    case Data(_) => true
    case Variant(_) => true
    case _ => false
  }

  /** `ModuleDefinition::has_public_items`. */
  predicate HasPublicItems(m: ModuleDefinition) {
    AnyPublic(m.items)
  }

  predicate AnyPublic(items: seq<ItemContent>) {
    items != [] && (IsPublicItem(items[0]) || AnyPublic(items[1..]))
  }

  /** A module has public items exactly when one of its items is public. */
  lemma {:induction false} AnyPublicExists(items: seq<ItemContent>)
    ensures AnyPublic(items) <==> exists k :: 0 <= k < |items| && IsPublicItem(items[k])
    decreases |items|
  {
    if items != [] {
      AnyPublicExists(items[1..]);
      if exists k :: 0 <= k < |items| && IsPublicItem(items[k]) {
        var k :| 0 <= k < |items| && IsPublicItem(items[k]);
        if k > 0 {
          assert items[1..][k - 1] == items[k];
        }
      }
      if AnyPublic(items[1..]) {
        var k :| 0 <= k < |items[1..]| && IsPublicItem(items[1..][k]);
        assert items[k + 1] == items[1..][k];
      }
    }
  }

  // ---------------------------------------------------------------------
  // Walking the items of a file
  // ---------------------------------------------------------------------

  /** What `handle_ast_items` emits for one item other than `Words`, which
      gives nothing here: words are merged across items. */
  function ItemOutput(item: F.Item, asm: F.Assembly): (r: Outcome<seq<ItemContent>>)
    ensures r.Done? ==> forall k :: 0 <= k < |r.value| ==> !r.value[k].Words?
    decreases item, 0
  {
    match item
    case WordsItem(_) => Done([])
    case BindingItem(name, span) =>
      var info := GetBindingInfo(asm, name.span);
      if info.None? then Done([])
      else
        var kind := BindingTypeOf(info.value);
        if kind.None? then Done([])
        else Done([Binding(BindingDefinition(name.value, asm.asStr(span), info.value.public, CommentText(info.value), kind.value))])
    case ModuleItem(kind, items) =>
      if kind.Test? then Done([])
      else
        var info := GetBindingInfo(asm, kind.name.span);
        if info.None? then Done([])
        else (match Extract(items, asm)
          case Panic(m) => Panic(m)
          case Done(processed) => Done([Module(ModuleDefinition(kind.name.value, CommentText(info.value), processed))]))
    case DataItem(defs) =>
      DataDefsToItems(defs, asm)
    case ImportItem(path) =>
      Done([Import(path)])
  }

  /** The walk's state: items emitted so far, the pending words buffer and
      the line the last buffered chunk ended on. */
  datatype ExtractState = ExtractState(results: seq<ItemContent>, wordLines: seq<string>, lastLine: nat)

  /** A chunk joins the buffer when the buffer is empty or the chunk starts
      on the line after the last chunk; otherwise the buffer is emitted and
      restarted with the chunk. */
  function AddChunk(st: ExtractState, chunk: WordsChunk): ExtractState {
    if st.wordLines == [] || chunk.lineFrom == st.lastLine + 1 then
      ExtractState(st.results, st.wordLines + [chunk.text], chunk.lineTo)
    else
      ExtractState(st.results + [Words(Join(st.wordLines, "\n"))], [chunk.text], chunk.lineTo)
  }

  function Step(item: F.Item, st: ExtractState, asm: F.Assembly): Outcome<ExtractState>
    decreases item, 1
  {
    if item.WordsItem? then
      var chunk := GetWordsAsCode2(item.words, asm);
      if chunk.None? then Done(st) else Done(AddChunk(st, chunk.value))
    else
      match ItemOutput(item, asm)
      case Panic(m) => Panic(m)
      case Done(out) => Done(ExtractState(st.results + out, st.wordLines, st.lastLine))
  }

  function Fold(items: seq<F.Item>, asm: F.Assembly): Outcome<ExtractState>
    decreases items, 1
  {
    if items == [] then Done(ExtractState([], [], 0))
    else match Fold(items[..|items| - 1], asm)
      case Panic(m) => Panic(m)
      case Done(st) => Step(items[|items| - 1], st, asm)
  }

  /** The emitted items once the pending words buffer is flushed. */
  function Flush(st: ExtractState): seq<ItemContent> {
    if st.wordLines == [] then st.results else st.results + [Words(Join(st.wordLines, "\n"))]
  }

  /** The documented items of a list of parsed items. */
  function Extract(items: seq<F.Item>, asm: F.Assembly): Outcome<seq<ItemContent>>
    decreases items, 2
  {
    match Fold(items, asm)
    case Panic(m) => Panic(m)
    case Done(st) => Done(Flush(st))
  }

  /** Once a prefix of the items panics, so does the whole walk. */
  lemma {:induction false} FoldPanicPrefix(items: seq<F.Item>, k: nat, asm: F.Assembly)
    requires k <= |items| && Fold(items[..k], asm).Panic?
    ensures Fold(items, asm) == Fold(items[..k], asm)
    decreases |items| - k
  {
    if k < |items| {
      assert items[..k + 1][..k] == items[..k];
      FoldPanicPrefix(items, k + 1, asm);
    } else {
      assert items[..k] == items;
    }
  }

  /** `handle_ast_items`, over the items of a file or module. */
  method HandleAstItems(items: seq<F.Item>, asm: F.Assembly) returns (r: Outcome<seq<ItemContent>>)
    ensures r == Extract(items, asm)
    decreases items, 1
  {
    var results: seq<ItemContent> := [];
    var wordLines: seq<string> := [];
    var lastLine: nat := 0;
    for i := 0 to |items|
      invariant Fold(items[..i], asm) == Done(ExtractState(results, wordLines, lastLine))
    {
      assert items[..i + 1][..i] == items[..i];
      var next := HandleItem(items[i], ExtractState(results, wordLines, lastLine), asm);
      if next.Panic? {
        FoldPanicPrefix(items, i + 1, asm);
        return Panic(next.message);
      }
      results, wordLines, lastLine := next.value.results, next.value.wordLines, next.value.lastLine;
    }
    assert items[..|items|] == items;
    if wordLines != [] {
      results := results + [Words(Join(wordLines, "\n"))];
    }
    return Done(results);
  }

  /** The body of the loop of `handle_ast_items`, for one item. */
  method HandleItem(item: F.Item, st: ExtractState, asm: F.Assembly) returns (r: Outcome<ExtractState>)
    ensures r == Step(item, st, asm)
    decreases item, 0
  {
    var results, wordLines, lastLine := st.results, st.wordLines, st.lastLine;
    assert results + [] == results;
    match item {
      case WordsItem(words) =>
        var chunk := GetWordsAsCode2(words, asm);
        if chunk.Some? {
          if wordLines == [] || chunk.value.lineFrom == lastLine + 1 {
            wordLines := wordLines + [chunk.value.text];
            lastLine := chunk.value.lineTo;
          } else {
            results := results + [Words(Join(wordLines, "\n"))];
            wordLines := [chunk.value.text];
            lastLine := chunk.value.lineTo;
          }
        }
      case BindingItem(name, span) =>
        var info := GetBindingInfo(asm, name.span);
        if info.Some? {
          var kind := BindingTypeOf(info.value);
          if kind.Some? {
            results := results + [Binding(BindingDefinition(
              name.value, asm.asStr(span), info.value.public, CommentText(info.value), kind.value))];
          }
        }
      case ModuleItem(kind, sub) =>
        if kind.Named? {
          var info := GetBindingInfo(asm, kind.name.span);
          if info.Some? {
            var processed := HandleAstItems(sub, asm);
            if processed.Panic? {
              return Panic(processed.message);
            }
            assert ItemOutput(item, asm) == Done([Module(ModuleDefinition(kind.name.value, CommentText(info.value), processed.value))]);
            results := results + [Module(ModuleDefinition(kind.name.value, CommentText(info.value), processed.value))];
          }
        }
      case DataItem(defs) =>
        var converted := HandleDataDefs(defs, asm);
        if converted.Panic? {
          return Panic(converted.message);
        }
        assert ItemOutput(item, asm) == converted;
        results := results + converted.value;
      case ImportItem(path) =>
        results := results + [Import(path)];
    }
    return Done(ExtractState(results, wordLines, lastLine));
  }

  /** The loop over the definitions of a data item. */
  method HandleDataDefs(defs: seq<F.DataDef>, asm: F.Assembly) returns (r: Outcome<seq<ItemContent>>)
    ensures r == DataDefsToItems(defs, asm)
  {
    var results: seq<ItemContent> := [];
    for j := 0 to |defs|
      invariant DataDefsToItems(defs[..j], asm) == Done(results)
    {
      assert defs[..j + 1][..j] == defs[..j];
      var converted := DataDefToItem(defs[j], asm);
      if converted.Panic? {
        DataDefsPanicPrefix(defs, j + 1, asm);
        return Panic(converted.message);
      }
      results := results + [converted.value];
    }
    assert defs[..|defs|] == defs;
    return Done(results);
  }
}
