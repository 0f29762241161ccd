/** What the Uiua compiler hands to the documentation generator: the parsed
    syntax tree of a file and the assembly's binding registry. The compiler
    itself (parsing, binding resolution, source lookup) is not part of this
    model; its results are plain input values here. */
module Frontend {
  import opened Wrappers

  /** A position in a source file. */
  datatype Loc = Loc(line: nat, charPos: nat)

  /** A region of source code. Two spans are the same span exactly when they
      are equal as values, which is how the registry is searched. */
  datatype CodeSpan = CodeSpan(src: nat, start: Loc, end: Loc)

  /** `CodeSpan::merge`: the region from the start of `from` to the end of `to`. */
  function Merge(from: CodeSpan, to: CodeSpan): CodeSpan {
    CodeSpan(from.src, from.start, to.end)
  }

  /** An identifier together with the span it occupies. */
  datatype Ident = Ident(value: string, span: CodeSpan)

  /** A word of Uiua code; only its span is needed here. */
  datatype Word = Word(span: CodeSpan)

  /** A stack signature: how many values a function takes and leaves. */
  datatype Signature = Signature(args: nat, outputs: nat)

  /** A field of a data definition; `hasInit` says a default value is given. */
  datatype DataField = DataField(name: Ident, validator: Option<seq<Word>>, hasInit: bool)

  datatype DataFields = DataFields(boxed: bool, fields: seq<DataField>)

  /** A `~` data definition: a named or anonymous record or variant, possibly
      with a constructor function. */
  datatype DataDef = DataDef(
    name: Option<Ident>,
    public: bool,
    variant: bool,
    hasFunc: bool,
    fields: Option<DataFields>,
    span: CodeSpan)

  datatype ModuleKind = Test | Named(name: Ident)

  /** A top-level item of a parsed file (the current compiler's syntax tree). */
  datatype Item =
    | WordsItem(words: seq<Word>)
    | BindingItem(name: Ident, span: CodeSpan)
    | ModuleItem(kind: ModuleKind, items: seq<Item>)
    | DataItem(defs: seq<DataDef>)
    | ImportItem(path: string)

  /** Signature names given in a doc comment. */
  datatype DocCommentSig = DocCommentSig(args: Option<seq<string>>, outputs: Option<seq<string>>)

  datatype DocComment = DocComment(text: string, sig: Option<DocCommentSig>)

  /** What a binding is. A constant's value arrives already rendered; a module
      records what its `Call` member resolves to: a function's signature, or
      `None` when there is no such function binding. */
  datatype BindingKind =
    | ConstKind(value: Option<string>)
    | FuncKind(sig: Signature)
    | IndexMacroKind(args: nat)
    | CodeMacroKind
    | ModuleBindingKind(call: Option<Signature>)
    | ImportKind
    | ScopeKind
    | ErrorKind

  /** One entry of the assembly's binding registry. */
  datatype BindingInfo = BindingInfo(span: CodeSpan, public: bool, comment: Option<DocComment>, kind: BindingKind)

  /** The compiled assembly: the registry, and the source text of any span. */
  datatype Assembly = Assembly(bindings: seq<BindingInfo>, asStr: CodeSpan -> string)
}
