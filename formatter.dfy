/** The code-line tokenizer of the source formatter: the highlighted spans
    of a piece of code laid out as lines of fragments, and the highlight
    classes of spans and bindings. */
module Formatter {
  import opened Text
  import opened Seqs
  import F = Frontend
  import Extractor

  // ---------------------------------------------------------------------
  // Fragments and lines
  // ---------------------------------------------------------------------

  /** The highlighting class the compiler gives a span. */
  datatype SpanKind = SpanKind(name: string)

  /** A piece of a line: plain text, an explicit line break that keeps an
      empty line visible, or text highlighted as `kind`. */
  datatype CodeFragment = Unspanned(text: string) | Br | Span(text: string, kind: SpanKind)

  /** The text a fragment shows; a line break shows none. */
  function FragmentText(f: CodeFragment): string {
    match f
    case Unspanned(t) => t
    case Br => ""
    case Span(t, _) => t
  }

  function LineText(line: seq<CodeFragment>): string
    decreases |line|
  {
    if line == [] then "" else LineText(line[..|line| - 1]) + FragmentText(line[|line| - 1])
  }

  function LineTexts(frags: seq<seq<CodeFragment>>): (r: seq<string>)
    ensures |r| == |frags| && forall k :: 0 <= k < |frags| ==> r[k] == LineText(frags[k])
  {
    seq(|frags|, k requires 0 <= k < |frags| => LineText(frags[k]))
  }

  /** The text the lines show, one line after another. */
  function Shown(frags: seq<seq<CodeFragment>>): string {
    Join(LineTexts(frags), "\n")
  }

  lemma LineTextSnoc(line: seq<CodeFragment>, f: CodeFragment)
    ensures LineText(line + [f]) == LineText(line) + FragmentText(f)
  {
    assert (line + [f])[..|line|] == line;
  }

  /** Extending the text of the last part extends the joined text. */
  lemma JoinExtendLast(parts: seq<string>, last: string, s: string, sep: string)
    requires parts != [] && last == parts[|parts| - 1] + s
    ensures Join(parts[..|parts| - 1] + [last], sep) == Join(parts, sep) + s
  {
    var n := |parts|;
    if n > 1 {
      assert parts == parts[..n - 1] + [parts[n - 1]];
      JoinSnoc(parts[..n - 1], parts[n - 1], sep);
      JoinSnoc(parts[..n - 1], last, sep);
    }
  }

  /** Replacing the last line by one that shows `s` more shows `s` more. */
  lemma ShownReplaceLast(frags: seq<seq<CodeFragment>>, line: seq<CodeFragment>, s: string)
    requires frags != [] && LineText(line) == LineText(frags[|frags| - 1]) + s
    ensures Shown(frags[..|frags| - 1] + [line]) == Shown(frags) + s
  {
    var n := |frags|;
    assert LineTexts(frags[..n - 1] + [line]) == LineTexts(frags)[..n - 1] + [LineText(line)];
    JoinExtendLast(LineTexts(frags), LineText(line), s, "\n");
  }

  /** A new empty line shows a line break more. */
  lemma ShownNewLine(frags: seq<seq<CodeFragment>>)
    requires frags != []
    ensures Shown(frags + [[]]) == Shown(frags) + "\n"
  {
    assert LineTexts(frags + [[]]) == LineTexts(frags) + [""];
    JoinSnoc(LineTexts(frags), "", "\n");
  }

  /** The lines after appending `f` to the last one. */
  function WithFragment(frags: seq<seq<CodeFragment>>, f: CodeFragment): (r: seq<seq<CodeFragment>>)
    requires frags != []
    ensures |r| == |frags| && r[|r| - 1] != []
    ensures r[..|frags| - 1] == frags[..|frags| - 1] && r[|r| - 1] == frags[|frags| - 1] + [f]
    ensures Shown(r) == Shown(frags) + FragmentText(f)
  {
    var line := frags[|frags| - 1];
    LineTextSnoc(line, f);
    ShownReplaceLast(frags, line + [f], FragmentText(f));
    frags[..|frags| - 1] + [line + [f]]
  }

  /** The lines after `push_str(s)`: the last fragment extended when it is
      plain text, a new plain fragment otherwise. */
  function WithText(frags: seq<seq<CodeFragment>>, s: string): (r: seq<seq<CodeFragment>>)
    requires frags != [] && frags[|frags| - 1] != []
    ensures |r| == |frags| && r[|r| - 1] != []
    ensures r[..|frags| - 1] == frags[..|frags| - 1]
    ensures var line := frags[|frags| - 1]; var last := line[|line| - 1];
      r[|r| - 1] == if last.Unspanned? then line[..|line| - 1] + [Unspanned(last.text + s)] else line + [Unspanned(s)]
    ensures Shown(r) == Shown(frags) + s
  {
    var line := frags[|frags| - 1];
    var last := line[|line| - 1];
    if last.Unspanned? then
      var line' := line[..|line| - 1] + [Unspanned(last.text + s)];
      ExtendedText(line, s);
      ShownReplaceLast(frags, line', s);
      frags[..|frags| - 1] + [line']
    else
      WithFragment(frags, Unspanned(s))
  }

  /** Extending a line's final plain fragment extends the line's text. */
  lemma ExtendedText(line: seq<CodeFragment>, s: string)
    requires line != [] && line[|line| - 1].Unspanned?
    ensures LineText(line[..|line| - 1] + [Unspanned(line[|line| - 1].text + s)]) == LineText(line) + s
  {
    var init, last := line[..|line| - 1], line[|line| - 1];
    assert line == init + [last];
    LineTextSnoc(init, last);
    LineTextSnoc(init, Unspanned(last.text + s));
    Append3(LineText(init), last.text, s);
  }

  /** An empty last line marked with a break, so that it stays visible. */
  function Marked(frags: seq<seq<CodeFragment>>): (r: seq<seq<CodeFragment>>)
    requires frags != []
    ensures |r| == |frags| && r[..|frags| - 1] == frags[..|frags| - 1]
    ensures frags[|frags| - 1] == [] ==> r[|frags| - 1] == [Br]
    ensures frags[|frags| - 1] != [] ==> r == frags
    ensures Shown(r) == Shown(frags)
  {
    if frags[|frags| - 1] == [] then
      LineTextSnoc([], Br);
      ShownReplaceLast(frags, [Br], "");
      frags[..|frags| - 1] + [[Br]]
    else frags
  }

  /** The lines after `new_line()`: the last line marked when empty, then a
      new empty line. */
  function WithNewLine(frags: seq<seq<CodeFragment>>): (r: seq<seq<CodeFragment>>)
    requires frags != []
    ensures |r| == |frags| + 1 && r[|r| - 1] == []
    ensures r[..|frags| - 1] == frags[..|frags| - 1]
    ensures r[|frags| - 1] == if frags[|frags| - 1] == [] then [Br] else frags[|frags| - 1]
    ensures Shown(r) == Shown(frags) + "\n"
  {
    ShownNewLine(Marked(frags));
    Marked(frags) + [[]]
  }

  /** `CodeLines`: the lines built so far, the last one being written. */
  class CodeLines {
    var frags: seq<seq<CodeFragment>>

    /** A single empty line. */
    constructor ()
      ensures frags == [[]]
    {
      frags := [[]];
    }

    /** The line being written. */
    function Line(): seq<CodeFragment>
      requires frags != []
      reads this
    {
      frags[|frags| - 1]
    }

    /** `line().push(f)`: appends a fragment to the line being written. */
    method PushToLine(f: CodeFragment)
      requires frags != []
      modifies this
      ensures frags == WithFragment(old(frags), f)
    {
      frags := WithFragment(frags, f);
    }

    /** `push_str`; the line must have a fragment already (`frag()` unwraps
        it). */
    method PushStr(s: string)
      requires frags != [] && Line() != []
      modifies this
      ensures frags == WithText(old(frags), s)
    {
      var line := Line();
      var last := line[|line| - 1];
      if last.Unspanned? {
        frags := frags[..|frags| - 1] + [line[..|line| - 1] + [Unspanned(last.text + s)]];
      } else {
        frags := frags[..|frags| - 1] + [line + [Unspanned(s)]];
      }
    }

    /** `new_line`. */
    method NewLine()
      requires frags != []
      modifies this
      ensures frags == WithNewLine(old(frags))
    {
      if Line() == [] {
        frags := frags[..|frags| - 1] + [[Br]];
      }
      frags := frags + [[]];
    }
  }

  // ---------------------------------------------------------------------
  // Laying out plain text between spans
  // ---------------------------------------------------------------------

  lemma Append3(a: string, b: string, c: string)
    ensures (a + b) + c == a + (b + c)
  {
  }

  lemma AppendEmpty(a: string)
    ensures a + "" == a
  {
  }

  function Min(a: nat, b: nat): nat {
    if a <= b then a else b
  }

  /** The number of graphemes that are a single line feed. */
  function NewlineCount(gs: seq<string>): nat
    decreases |gs|
  {
    if gs == [] then 0 else NewlineCount(gs[..|gs| - 1]) + (if gs[|gs| - 1] == "\n" then 1 else 0)
  }

  lemma Consumed(gs: seq<string>, i: nat, j: nat)
    requires i <= j < |gs|
    ensures Concat(gs[i..j + 1]) == Concat(gs[i..j]) + gs[j]
    ensures NewlineCount(gs[i..j + 1]) == NewlineCount(gs[i..j]) + (if gs[j] == "\n" then 1 else 0)
  {
    assert gs[i..j + 1][..j - i] == gs[i..j];
  }

  /** The plain text between `from` and `target`, the latter clamped to the
      end of the code. */
  function Gap(chars: seq<string>, from: nat, target: nat): string {
    var t := Min(target, |chars|);
    if from >= t then "" else Concat(chars[from..t])
  }

  /** The line-feed branch of `push_unspanned`: a new line for the line
      feed at `from` and for each one directly after it, up to `target`,
      then an empty plain fragment on the line reached. */
  method PushNewlines(lines: CodeLines, chars: seq<string>, target: nat, from: nat) returns (next: nat)
    requires lines.frags != [] && from < target <= |chars| && chars[from] == "\n"
    modifies lines
    ensures from < next <= target && lines.frags != [] && lines.Line() != []
    ensures Shown(lines.frags) == old(Shown(lines.frags)) + Concat(chars[from..next])
    ensures |lines.frags| == old(|lines.frags|) + NewlineCount(chars[from..next])
  {
    next := BreakLines(lines, chars, target, from);
    ghost var before := lines.frags;
    lines.PushToLine(Unspanned(""));
    AppendEmpty(Shown(before));
  }

  /** A new line for the line feed at `from` and for each one directly
      after it, up to `target`. */
  method BreakLines(lines: CodeLines, chars: seq<string>, target: nat, from: nat) returns (next: nat)
    requires lines.frags != [] && from < target <= |chars| && chars[from] == "\n"
    modifies lines
    ensures from < next <= target && lines.frags != []
    ensures next == target || chars[next] != "\n"
    ensures Shown(lines.frags) == old(Shown(lines.frags)) + Concat(chars[from..next])
    ensures |lines.frags| == old(|lines.frags|) + NewlineCount(chars[from..next])
  {
    ghost var start, count := Shown(lines.frags), |lines.frags|;
    assert Broken(lines.frags, start, count, chars, from, from) by {
      assert chars[from..from] == [];
      AppendEmpty(start);
    }
    BreakLine(lines, chars, from, from, start, count);
    next := from + 1;
    while next < target && chars[next] == "\n"
      invariant from < next <= target && lines.frags != []
      invariant Broken(lines.frags, start, count, chars, from, next)
    {
      BreakLine(lines, chars, from, next, start, count);
      next := next + 1;
    }
  }

  /** `new_line()` for the line feed at `next`. */
  method BreakLine(lines: CodeLines, ghost chars: seq<string>, ghost from: nat, ghost next: nat, ghost start: string, ghost count: nat)
    requires lines.frags != [] && from <= next < |chars| && chars[next] == "\n"
    requires Broken(lines.frags, start, count, chars, from, next)
    modifies lines
    ensures lines.frags != [] && Broken(lines.frags, start, count, chars, from, next + 1)
  {
    ghost var before := lines.frags;
    lines.NewLine();
    NewlineStep(chars, from, next, start, count, before, lines.frags);
  }

  /** The lines, which showed `start` on `count` lines, now also show the
      characters from `from` to `next`, one line more per line feed. */
  ghost predicate Broken(frags: seq<seq<CodeFragment>>, start: string, count: nat, chars: seq<string>, from: nat, next: nat)
    requires from <= next <= |chars|
  {
    && Shown(frags) == start + Concat(chars[from..next])
    && |frags| == count + NewlineCount(chars[from..next])
  }

  /** One line feed more: the lines show it and count one more line. */
  lemma NewlineStep(chars: seq<string>, from: nat, next: nat, start: string, count: nat,
                    before: seq<seq<CodeFragment>>, after: seq<seq<CodeFragment>>)
    requires from <= next < |chars| && chars[next] == "\n"
    requires Broken(before, start, count, chars, from, next)
    requires Shown(after) == Shown(before) + "\n" && |after| == |before| + 1
    ensures Broken(after, start, count, chars, from, next + 1)
  {
    Consumed(chars, from, next);
    Append3(start, Concat(chars[from..next]), chars[next]);
  }

  /** The line-feed branch of `push_unspanned` with the pending plain text
      written out first. */
  method FlushAndBreak(lines: CodeLines, chars: seq<string>, target: nat, from: nat, unspanned: string) returns (next: nat)
    requires lines.frags != [] && lines.Line() != [] && from < target <= |chars| && chars[from] == "\n"
    modifies lines
    ensures from < next <= target && lines.frags != [] && lines.Line() != []
    ensures Shown(lines.frags) == old(Shown(lines.frags)) + (unspanned + Concat(chars[from..next]))
    ensures |lines.frags| == old(|lines.frags|) + NewlineCount(chars[from..next])
  {
    ghost var start := Shown(lines.frags);
    if unspanned != "" {
      lines.PushStr(unspanned);
    } else {
      AppendEmpty(start);
    }
    assert Shown(lines.frags) == start + unspanned;
    next := PushNewlines(lines, chars, target, from);
    Append3(start, unspanned, Concat(chars[from..next]));
  }

  /** The progress of `push_unspanned` from `curr` to `next`: the lines and
      the pending plain text show what was consumed, and there is a new line
      for each line feed. */
  ghost predicate Laid(frags: seq<seq<CodeFragment>>, unspanned: string, start: string, n: nat, chars: seq<string>, curr: nat, next: nat)
    requires curr <= next <= |chars|
  {
    && frags != [] && frags[|frags| - 1] != []
    && Shown(frags) + unspanned == start + Concat(chars[curr..next])
    && |frags| == n + NewlineCount(chars[curr..next])
  }

  /** A line-feed run laid out after the pending text keeps the progress
      invariant, with nothing pending. */
  lemma LaidBreak(frags: seq<seq<CodeFragment>>, frags': seq<seq<CodeFragment>>, unspanned: string, start: string, n: nat,
                  chars: seq<string>, curr: nat, next: nat, next': nat)
    requires curr <= next < next' <= |chars| && Laid(frags, unspanned, start, n, chars, curr, next)
    requires frags' != [] && frags'[|frags'| - 1] != []
    requires Shown(frags') == Shown(frags) + (unspanned + Concat(chars[next..next']))
    requires |frags'| == |frags| + NewlineCount(chars[next..next'])
    ensures Laid(frags', "", start, n, chars, curr, next')
  {
    ghost var shown, gap := Shown(frags), Concat(chars[next..next']);
    ghost var consumed := Concat(chars[curr..next]);
    ConcatSlices(chars, curr, next, next');
    NewlineCountSlices(chars, curr, next, next');
    Append3(shown, unspanned, gap);
    Append3(start, consumed, gap);
    AppendEmpty(Shown(frags'));
  }

  /** A grapheme other than a line feed joins the pending text. */
  lemma LaidChar(frags: seq<seq<CodeFragment>>, unspanned: string, start: string, n: nat, chars: seq<string>, curr: nat, next: nat)
    requires curr <= next < |chars| && Laid(frags, unspanned, start, n, chars, curr, next)
    requires chars[next] != "\n"
    ensures Laid(frags, unspanned + chars[next], start, n, chars, curr, next + 1)
  {
    Consumed(chars, curr, next);
    Append3(Shown(frags), unspanned, chars[next]);
    Append3(start, Concat(chars[curr..next]), chars[next]);
  }

  /** One turn of the loop of `push_unspanned`. */
  method UnspannedStep(lines: CodeLines, chars: seq<string>, t: nat, curr: nat, next: nat, unspanned: string,
                       ghost start: string, ghost n: nat)
    returns (next': nat, unspanned': string)
    requires curr <= next < t <= |chars| && Laid(lines.frags, unspanned, start, n, chars, curr, next)
    modifies lines
    ensures next < next' <= t && Laid(lines.frags, unspanned', start, n, chars, curr, next')
  {
    if chars[next] == "\n" {
      ghost var before := lines.frags;
      next' := FlushAndBreak(lines, chars, t, next, unspanned);
      LaidBreak(before, lines.frags, unspanned, start, n, chars, curr, next, next');
      unspanned' := "";
    } else {
      LaidChar(lines.frags, unspanned, start, n, chars, curr, next);
      unspanned' := unspanned + chars[next];
      next' := next + 1;
    }
  }

  /** `push_unspanned`: lays out the graphemes from `curr` up to `target`
      (clamped to the end) as plain text, starting a new line at each line
      feed. Returns the new position. */
  method PushUnspanned(lines: CodeLines, chars: seq<string>, target: nat, curr: nat) returns (next: nat)
    requires lines.frags != []
    modifies lines
    ensures lines.frags != []
    ensures var t := Min(target, |chars|);
      if curr >= t then next == curr && lines.frags == old(lines.frags)
      else next == t && |lines.frags| == old(|lines.frags|) + NewlineCount(chars[curr..t])
    ensures Shown(lines.frags) == old(Shown(lines.frags)) + Gap(chars, curr, target)
    ensures |lines.frags| == old(|lines.frags|) + GapBreaks(chars, curr, target)
  {
    var t := Min(target, |chars|);
    if curr >= t {
      return curr;
    }
    ghost var start := Shown(lines.frags);
    ghost var n := |lines.frags|;
    lines.PushToLine(Unspanned(""));
    var unspanned := "";
    next := curr;
    AppendEmpty(start);
    AppendEmpty(Shown(lines.frags));
    while next < t
      invariant curr <= next <= t && Laid(lines.frags, unspanned, start, n, chars, curr, next)
    {
      next, unspanned := UnspannedStep(lines, chars, t, curr, next, unspanned, start, n);
    }
    ghost var shown := Shown(lines.frags);
    if unspanned != "" {
      lines.PushStr(unspanned);
    } else {
      AppendEmpty(shown);
    }
    lines.PushToLine(Unspanned(""));
    AppendEmpty(Shown(lines.frags));
  }

  lemma {:induction false} NewlineCountAppend(a: seq<string>, b: seq<string>)
    ensures NewlineCount(a + b) == NewlineCount(a) + NewlineCount(b)
    decreases |b|
  {
    if b != [] {
      assert (a + b)[..|a + b| - 1] == a + b[..|b| - 1];
      NewlineCountAppend(a, b[..|b| - 1]);
    } else {
      assert a + b == a;
    }
  }

  lemma NewlineCountSlices(s: seq<string>, i: nat, j: nat, k: nat)
    requires i <= j <= k <= |s|
    ensures NewlineCount(s[i..k]) == NewlineCount(s[i..j]) + NewlineCount(s[j..k])
  {
    assert s[i..k] == s[i..j] + s[j..k];
    NewlineCountAppend(s[i..j], s[j..k]);
  }

  // ---------------------------------------------------------------------
  // Laying out one span
  // ---------------------------------------------------------------------

  predicate AllNewlines(s: string) {
    forall k :: 0 <= k < |s| ==> s[k] == '\n'
  }

  /** A span made only of line feeds becomes that many new lines; any other
      span becomes its lines, one `Span` each, on consecutive lines. */
  function SpanShown(text: string): string {
    if text != "" && AllNewlines(text) then text else Join(Lines(text), "\n")
  }

  /** How many lines a span adds. */
  function SpanBreaks(text: string): nat {
    if text != "" && AllNewlines(text) then |text|
    else if Lines(text) == [] then 0
    else |Lines(text)| - 1
  }

  /** A span of line feeds only: one new line for each of them. */
  method PushNewlineSpan(lines: CodeLines, text: string)
    requires lines.frags != [] && text != "" && AllNewlines(text)
    modifies lines
    ensures lines.frags != []
    ensures Shown(lines.frags) == old(Shown(lines.frags)) + text
    ensures |lines.frags| == old(|lines.frags|) + |text|
  {
    ghost var start := Shown(lines.frags);
    lines.NewLine();
    assert text[..1] == "\n";
    for i := 0 to |text| - 1
      invariant lines.frags != [] && |lines.frags| == old(|lines.frags|) + 1 + i
      invariant Shown(lines.frags) == start + text[..i + 1]
    {
      FeedLine(lines, text, i + 1, start);
    }
    assert text[..|text|] == text;
  }

  /** `new_line()` for the line feed at position `i` of `text`. */
  method FeedLine(lines: CodeLines, ghost text: string, ghost i: nat, ghost start: string)
    requires lines.frags != [] && i < |text| && text[i] == '\n'
    requires Shown(lines.frags) == start + text[..i]
    modifies lines
    ensures lines.frags != [] && |lines.frags| == old(|lines.frags|) + 1
    ensures Shown(lines.frags) == start + text[..i + 1]
  {
    assert text[..i + 1] == text[..i] + "\n";
    Append3(start, text[..i], "\n");
    lines.NewLine();
  }

  /** Any other span: its lines as `Span` fragments, each after the first
      on a new line. */
  method PushSpanLines(lines: CodeLines, ls: seq<string>, kind: SpanKind)
    requires lines.frags != []
    modifies lines
    ensures lines.frags != []
    ensures Shown(lines.frags) == old(Shown(lines.frags)) + Join(ls, "\n")
    ensures |lines.frags| == old(|lines.frags|) + (if ls == [] then 0 else |ls| - 1)
  {
    ghost var start := Shown(lines.frags);
    AppendEmpty(start);
    for i := 0 to |ls|
      invariant lines.frags != [] && |lines.frags| == old(|lines.frags|) + (if i == 0 then 0 else i - 1)
      invariant Shown(lines.frags) == start + Join(ls[..i], "\n")
    {
      ghost var joined := Join(ls[..i], "\n");
      assert ls[..i + 1] == ls[..i] + [ls[i]];
      if i > 0 {
        lines.NewLine();
        JoinSnoc(ls[..i], ls[i], "\n");
        Append3(start, joined, "\n");
        Append3(start, joined + "\n", ls[i]);
      } else {
        AppendEmpty(start);
      }
      lines.PushToLine(Span(ls[i], kind));
    }
    assert ls[..|ls|] == ls;
  }

  /** The loop body of the span walk after the gap: lays out the text of a
      span of the given kind. */
  method PushSpan(lines: CodeLines, text: string, kind: SpanKind)
    requires lines.frags != []
    modifies lines
    ensures lines.frags != []
    ensures Shown(lines.frags) == old(Shown(lines.frags)) + SpanShown(text)
    ensures |lines.frags| == old(|lines.frags|) + SpanBreaks(text)
  {
    if text != "" && AllNewlines(text) {
      PushNewlineSpan(lines, text);
    } else {
      PushSpanLines(lines, Lines(text), kind);
    }
  }

  // ---------------------------------------------------------------------
  // The walk over the spans
  // ---------------------------------------------------------------------

  /** A classified span: graphemes `start` up to `end` of the code, with
      their highlighting kind. */
  datatype ClassifiedSpan = ClassifiedSpan(start: nat, end: nat, kind: SpanKind)

  /** Slicing the span's graphemes out of the code does not panic. */
  predicate InBounds(chars: seq<string>, spans: seq<ClassifiedSpan>) {
    forall k :: 0 <= k < |spans| ==> spans[k].start <= spans[k].end <= |chars|
  }

  /** The position the walk has reached after the first `k` spans. */
  function EndAfter(spans: seq<ClassifiedSpan>, k: nat): nat
    requires k <= |spans|
  {
    if k == 0 then 0 else spans[k - 1].end
  }

  function SpanText(chars: seq<string>, s: ClassifiedSpan): string
    requires s.start <= s.end <= |chars|
  {
    Concat(chars[s.start..s.end])
  }

  /** The text shown after laying out the spans: for each, the gap before
      it and its own text. */
  function Rendered(chars: seq<string>, spans: seq<ClassifiedSpan>): string
    requires InBounds(chars, spans)
    decreases |spans|
  {
    if spans == [] then ""
    else
      var k := |spans| - 1;
      Rendered(chars, spans[..k]) + Gap(chars, EndAfter(spans, k), spans[k].start) + SpanShown(SpanText(chars, spans[k]))
  }

  /** The text shown once the walk has also laid out the rest of the code. */
  function RenderedCode(chars: seq<string>, spans: seq<ClassifiedSpan>): string
    requires InBounds(chars, spans)
  {
    Rendered(chars, spans) + Gap(chars, EndAfter(spans, |spans|), |chars|)
  }

  /** The lines the plain text between `from` and `target` adds: one per
      line feed, the latter clamped to the end of the code. */
  function GapBreaks(chars: seq<string>, from: nat, target: nat): nat {
    var t := Min(target, |chars|);
    if from >= t then 0 else NewlineCount(chars[from..t])
  }

  /** The lines added by laying out the spans: for each, those of the gap
      before it and those of its own text. */
  function RenderedBreaks(chars: seq<string>, spans: seq<ClassifiedSpan>): nat
    requires InBounds(chars, spans)
    decreases |spans|
  {
    if spans == [] then 0
    else
      var k := |spans| - 1;
      RenderedBreaks(chars, spans[..k]) + GapBreaks(chars, EndAfter(spans, k), spans[k].start)
        + SpanBreaks(SpanText(chars, spans[k]))
  }

  /** The lines added once the walk has also laid out the rest of the code. */
  function RenderedCodeBreaks(chars: seq<string>, spans: seq<ClassifiedSpan>): nat
    requires InBounds(chars, spans)
  {
    RenderedBreaks(chars, spans) + GapBreaks(chars, EndAfter(spans, |spans|), |chars|)
  }

  // ---------------------------------------------------------------------
  // Cleanup and truncation
  // ---------------------------------------------------------------------

  /** Fragments that survive the cleanup: all but empty plain text. */
  predicate Kept(f: CodeFragment) {
    !(f.Unspanned? && f.text == "")
  }

  function Cleaned(frags: seq<seq<CodeFragment>>): (r: seq<seq<CodeFragment>>)
    ensures |r| == |frags|
    ensures forall k :: 0 <= k < |r| ==> r[k] == Filter(Kept, frags[k])
    ensures Clean(r)
  {
    seq(|frags|, k requires 0 <= k < |frags| => Filter(Kept, frags[k]))
  }

  /** The retain loop over the lines. */
  method Cleanup(lines: CodeLines)
    modifies lines
    ensures lines.frags == Cleaned(old(lines.frags))
  {
    ghost var frags0 := lines.frags;
    for k := 0 to |lines.frags|
      invariant |lines.frags| == |frags0|
      invariant forall j :: 0 <= j < k ==> lines.frags[j] == Filter(Kept, frags0[j])
      invariant forall j :: k <= j < |frags0| ==> lines.frags[j] == frags0[j]
    {
      lines.frags := lines.frags[k := Filter(Kept, lines.frags[k])];
    }
  }

  /** The last `n` lines, or all of them when there are fewer. */
  function LastLines(frags: seq<seq<CodeFragment>>, n: nat): (r: seq<seq<CodeFragment>>)
    ensures |r| == Min(|frags|, n)
    ensures r == frags[|frags| - |r|..]
  {
    if |frags| > n then frags[|frags| - n..] else frags
  }

  /** Keeps the last `n` lines. */
  method Truncate(lines: CodeLines, n: nat)
    modifies lines
    ensures lines.frags == LastLines(old(lines.frags), n)
  {
    if |lines.frags| > n {
      lines.frags := lines.frags[|lines.frags| - n..];
    }
  }

  /** No line holds an empty plain fragment. */
  predicate Clean(frags: seq<seq<CodeFragment>>) {
    forall k, j :: 0 <= k < |frags| && 0 <= j < |frags[k]| ==> Kept(frags[k][j])
  }

  /** One turn of the span loop: the gap before span `i`, then the span. */
  method LayOutSpan(lines: CodeLines, chars: seq<string>, spans: seq<ClassifiedSpan>, i: nat, end: nat)
    returns (end': nat)
    requires InBounds(chars, spans) && i < |spans| && lines.frags != [] && end == EndAfter(spans, i)
    requires Shown(lines.frags) == Rendered(chars, spans[..i])
    requires |lines.frags| == 1 + RenderedBreaks(chars, spans[..i])
    modifies lines
    ensures lines.frags != [] && end' == EndAfter(spans, i + 1)
    ensures Shown(lines.frags) == Rendered(chars, spans[..i + 1])
    ensures |lines.frags| == 1 + RenderedBreaks(chars, spans[..i + 1])
  {
    var s := spans[i];
    end' := PushUnspanned(lines, chars, s.start, end);
    var text := Concat(chars[s.start..s.end]);
    PushSpan(lines, text, s.kind);
    assert spans[..i + 1][..i] == spans[..i];
    end' := s.end;
  }

  /** The span loop of `build_code_lines` and the plain text after the last
      span. */
  method LayOutSpans(lines: CodeLines, chars: seq<string>, spans: seq<ClassifiedSpan>)
    requires InBounds(chars, spans) && lines.frags == [[]]
    modifies lines
    ensures lines.frags != [] && Shown(lines.frags) == RenderedCode(chars, spans)
    ensures |lines.frags| == 1 + RenderedCodeBreaks(chars, spans)
  {
    var end: nat := 0;
    for i := 0 to |spans|
      invariant lines.frags != []
      invariant end == EndAfter(spans, i)
      invariant Shown(lines.frags) == Rendered(chars, spans[..i])
      invariant |lines.frags| == 1 + RenderedBreaks(chars, spans[..i])
    {
      end := LayOutSpan(lines, chars, spans, i, end);
    }
    assert spans[..|spans|] == spans;
    end := PushUnspanned(lines, chars, |chars|, end);
  }

  /** `build_code_lines`: `chars` are the graphemes of the library source,
      a blank line and `code`; `spans` are the classified spans of that
      text. Lays out every span and the text around it, drops empty plain
      fragments and keeps as many trailing lines as `code` has. `full` is
      the layout before the truncation. */
  method BuildCodeLines(code: string, chars: seq<string>, spans: seq<ClassifiedSpan>)
    returns (lines: CodeLines, ghost full: seq<seq<CodeFragment>>)
    requires InBounds(chars, spans)
    ensures fresh(lines)
    ensures lines.frags == LastLines(full, |Lines(code)|)
    ensures |full| == 1 + RenderedCodeBreaks(chars, spans) && Shown(full) == RenderedCode(chars, spans)
    ensures Clean(lines.frags) && |lines.frags| <= |Lines(code)|
  {
    lines := new CodeLines();
    LayOutSpans(lines, chars, spans);
    CleanedShown(lines.frags);
    Cleanup(lines);
    full := lines.frags;
    CleanSuffix(full, |Lines(code)|);
    Truncate(lines, |Lines(code)|);
  }

  // ---------------------------------------------------------------------
  // Properties of the layout
  // ---------------------------------------------------------------------

  lemma {:induction false} KeptLineText(line: seq<CodeFragment>)
    ensures LineText(Filter(Kept, line)) == LineText(line)
    decreases |line|
  {
    if line != [] {
      var init, last := line[..|line| - 1], line[|line| - 1];
      var kept := Filter(Kept, init);
      KeptLineText(init);
      assert LineText(line) == LineText(init) + FragmentText(last);
      if Kept(last) {
        assert Filter(Kept, line) == kept + [last];
        LineTextSnoc(kept, last);
      } else {
        assert Filter(Kept, line) == kept;
        assert FragmentText(last) == "";
      }
    }
  }

  /** The last lines of clean lines are clean. */
  lemma CleanSuffix(frags: seq<seq<CodeFragment>>, n: nat)
    requires Clean(frags)
    ensures Clean(LastLines(frags, n))
  {
    var r := LastLines(frags, n);
    forall k, j | 0 <= k < |r| && 0 <= j < |r[k]| ensures Kept(r[k][j]) {
      assert r[k] == frags[|frags| - |r| + k];
    }
  }

  /** The cleanup changes no line's text. */
  lemma CleanedShown(frags: seq<seq<CodeFragment>>)
    ensures Shown(Cleaned(frags)) == Shown(frags)
  {
    forall k | 0 <= k < |frags| ensures LineTexts(Cleaned(frags))[k] == LineTexts(frags)[k] {
      KeptLineText(frags[k]);
    }
    assert LineTexts(Cleaned(frags)) == LineTexts(frags);
  }

  /** A span's text is shown as it is when it is all line feeds, or has no
      carriage return before a line feed and does not end with a line feed. */
  predicate ShownAsIs(text: string) {
    (text != "" && AllNewlines(text)) || (NoCrLf(text) && (text == "" || text[|text| - 1] != '\n'))
  }

  lemma SpanShownAsIs(text: string)
    requires ShownAsIs(text)
    ensures SpanShown(text) == text
  {
    if !(text != "" && AllNewlines(text)) {
      LinesJoin(text);
    }
  }

  /** Spans in order, none starting before the previous one ends. */
  predicate Ordered(spans: seq<ClassifiedSpan>) {
    forall k :: 0 < k < |spans| ==> spans[k - 1].end <= spans[k].start
  }

  lemma GapIsSlice(chars: seq<string>, from: nat, target: nat)
    requires from <= target <= |chars|
    ensures Gap(chars, from, target) == Concat(chars[from..target])
  {
    if from == target {
      assert chars[from..target] == [];
    }
  }

  /** Concatenating the graphemes before and from a position. */
  lemma ConcatSplit(chars: seq<string>, i: nat, j: nat)
    requires i <= j <= |chars|
    ensures Concat(chars[..i]) + Concat(chars[i..j]) == Concat(chars[..j])
  {
    ConcatSlices(chars, 0, i, j);
    assert chars[0..i] == chars[..i] && chars[0..j] == chars[..j];
  }

  /** With ordered spans whose texts are shown as they are, the spans and
      the gaps between them show exactly the code up to the last span. */
  lemma {:induction false} RenderedPrefix(chars: seq<string>, spans: seq<ClassifiedSpan>)
    requires InBounds(chars, spans) && Ordered(spans)
    requires forall k :: 0 <= k < |spans| ==> ShownAsIs(SpanText(chars, spans[k]))
    ensures Rendered(chars, spans) == Concat(chars[..EndAfter(spans, |spans|)])
    decreases |spans|
  {
    if spans != [] {
      var k := |spans| - 1;
      var init := spans[..k];
      OrderedInit(chars, spans);
      RenderedPrefix(chars, init);
      assert EndAfter(init, |init|) == EndAfter(spans, k);
      assert ShownAsIs(SpanText(chars, spans[k]));
      RenderedLast(chars, spans);
    }
  }

  /** The conditions on the spans hold for all but the last of them. */
  lemma OrderedInit(chars: seq<string>, spans: seq<ClassifiedSpan>)
    requires InBounds(chars, spans) && Ordered(spans) && spans != []
    requires forall k :: 0 <= k < |spans| ==> ShownAsIs(SpanText(chars, spans[k]))
    ensures var init := spans[..|spans| - 1];
      && InBounds(chars, init) && Ordered(init)
      && (forall k :: 0 <= k < |init| ==> ShownAsIs(SpanText(chars, init[k])))
      && EndAfter(spans, |spans| - 1) <= spans[|spans| - 1].start
  {
    var init := spans[..|spans| - 1];
    assert forall j :: 0 <= j < |init| ==> init[j] == spans[j];
  }

  /** The last span, shown as it is after the gap before it, extends the
      code shown up to the end of the span before it to its own end. */
  lemma RenderedLast(chars: seq<string>, spans: seq<ClassifiedSpan>)
    requires InBounds(chars, spans) && spans != []
    requires var k := |spans| - 1;
      && EndAfter(spans, k) <= spans[k].start
      && ShownAsIs(SpanText(chars, spans[k]))
      && Rendered(chars, spans[..k]) == Concat(chars[..EndAfter(spans, k)])
    ensures Rendered(chars, spans) == Concat(chars[..EndAfter(spans, |spans|)])
  {
    var k := |spans| - 1;
    var s, e := spans[k], EndAfter(spans, k);
    GapIsSlice(chars, e, s.start);
    SpanShownAsIs(SpanText(chars, s));
    var a, b, c := Concat(chars[..e]), Concat(chars[e..s.start]), Concat(chars[s.start..s.end]);
    assert Rendered(chars, spans) == (a + b) + c;
    ConcatSplit(chars, e, s.start);
    ConcatSplit(chars, s.start, s.end);
  }

  /** Under those conditions the layout shows the whole code unchanged. */
  lemma RenderedCodeIsCode(chars: seq<string>, spans: seq<ClassifiedSpan>)
    requires InBounds(chars, spans) && Ordered(spans)
    requires forall k :: 0 <= k < |spans| ==> ShownAsIs(SpanText(chars, spans[k]))
    ensures RenderedCode(chars, spans) == Concat(chars)
  {
    var e := EndAfter(spans, |spans|);
    RenderedPrefix(chars, spans);
    ConcatSlices(chars, 0, e, |chars|);
    assert chars[0..e] == chars[..e] && chars[0..|chars|] == chars;
  }

  /** Without spans the walk adds one line per line feed of the code. */
  lemma BreaksWithoutSpans(chars: seq<string>)
    ensures RenderedCodeBreaks(chars, []) == NewlineCount(chars)
  {
    assert chars[0..|chars|] == chars;
  }

  // ---------------------------------------------------------------------
  // Highlight classes
  // ---------------------------------------------------------------------

  lemma PrefixedMonadicModifier()
    ensures "binding " + "monadic-modifier" == "binding monadic-modifier"
  {
  }

  lemma PrefixedDyadicModifier()
    ensures "binding " + "dyadic-modifier" == "binding dyadic-modifier"
  {
  }

  lemma PrefixedTriadicModifier()
    ensures "binding " + "triadic-modifier" == "binding triadic-modifier"
  {
  }

  lemma PrefixedNoadicFunction()
    ensures "binding " + "noadic-function" == "binding noadic-function"
  {
  }

  lemma PrefixedMonadicFunction()
    ensures "binding " + "monadic-function" == "binding monadic-function"
  {
  }

  lemma PrefixedDyadicFunction()
    ensures "binding " + "dyadic-function" == "binding dyadic-function"
  {
  }

  lemma PrefixedTriadicFunction()
    ensures "binding " + "triadic-function" == "binding triadic-function"
  {
  }

  lemma PrefixedTetradicFunction()
    ensures "binding " + "tetradic-function" == "binding tetradic-function"
  {
  }

  /** `modifier_class`: the class of a modifier taking `margs` operands. */
  function ModifierClass(margs: nat): string {
    if margs <= 1 then "binding monadic-modifier"
    else if margs == 2 then "binding dyadic-modifier"
    else "binding triadic-modifier"
  }

  /** From one operand on, the modifier class is the index-macro class of
      the extractor behind `binding `; at zero operands the two disagree,
      the formatter calling the modifier monadic and the extractor triadic. */
  lemma ModifierClassAgrees(margs: nat)
    ensures margs >= 1 ==> ModifierClass(margs) == "binding " + Extractor.IndexMacroColorClass(margs)
    ensures margs == 0 ==>
              ModifierClass(margs) == "binding monadic-modifier" && Extractor.IndexMacroColorClass(margs) == "triadic-modifier"
  {
    if margs == 1 {
      PrefixedMonadicModifier();
    } else if margs == 2 {
      PrefixedDyadicModifier();
    } else if margs > 2 {
      PrefixedTriadicModifier();
    }
  }

  /** `sig_class`: the class of a function by the number of its arguments. */
  function SigClass(sig: F.Signature): string {
    match sig.args
    case 0 => "binding noadic-function"
    case 1 => "binding monadic-function"
    case 2 => "binding dyadic-function"
    case 3 => "binding triadic-function"
    case 4 => "binding tetradic-function"
    case _ => "binding"
  }

  /** Up to four arguments the signature class is the extractor's class of
      the same signature behind `binding `; beyond that the formatter uses
      plain `binding` where the extractor has no class. */
  lemma SigClassAgrees(sig: F.Signature)
    ensures var info := Extractor.SignatureInfo(sig.args, sig.outputs);
      && (sig.args <= 4 ==> SigClass(sig) == "binding " + Extractor.SignatureColorClass(info))
      && (sig.args > 4 ==> SigClass(sig) == "binding" && Extractor.SignatureColorClass(info) == "")
  {
    if sig.args == 0 {
      PrefixedNoadicFunction();
    } else if sig.args == 1 {
      PrefixedMonadicFunction();
    } else if sig.args == 2 {
      PrefixedDyadicFunction();
    } else if sig.args == 3 {
      PrefixedTriadicFunction();
    } else if sig.args == 4 {
      PrefixedTetradicFunction();
    }
  }

  /** What the language server reports about a binding. */
  datatype BindingDocsKind =
    | ConstantDocs(value: string)
    | FunctionDocs(sig: F.Signature)
    | ModifierDocs(margs: nat)
    | ModuleDocs
    | ErrorDocs

  /** `binding_class`. */
  function BindingClass(kind: BindingDocsKind): (r: string)
    ensures kind.ErrorDocs? <==> r == "output-error"
    ensures kind.FunctionDocs? ==> r == SigClass(kind.sig)
    ensures kind.ModifierDocs? ==> r == ModifierClass(kind.margs)
    ensures kind.ConstantDocs? ==> r == "binding constant"
    ensures kind.ModuleDocs? ==> r == "binding module"
  {
    match kind
    case ConstantDocs(_) => "binding constant"
    case FunctionDocs(sig) => SigClass(sig)
    case ModifierDocs(margs) => ModifierClass(margs)
    case ModuleDocs => "binding module"
    case ErrorDocs => "output-error"
  }
}
