/** The parts of Rust's string library that the documentation generator
    relies on, stated over `string` (= `seq<char>`): joining, splitting,
    `lines()`, trimming, replacing, and decimal rendering of numbers. */
module Text {

  predicate StartsWith(s: string, prefix: string) {
    |prefix| <= |s| && s[..|prefix|] == prefix
  }

  predicate EndsWith(s: string, suffix: string) {
    |suffix| <= |s| && s[|s| - |suffix|..] == suffix
  }

  /** `parts.join(sep)`: the parts with `sep` between consecutive ones. */
  function Join(parts: seq<string>, sep: string): string
    decreases |parts|
  {
    if |parts| == 0 then ""
    else if |parts| == 1 then parts[0]
    else parts[0] + sep + Join(parts[1..], sep)
  }

  lemma {:induction false} JoinSnoc(parts: seq<string>, x: string, sep: string)
    requires |parts| > 0
    ensures Join(parts + [x], sep) == Join(parts, sep) + sep + x
    decreases |parts|
  {
    if |parts| == 1 {
      assert (parts + [x])[1..] == [x];
    } else {
      assert (parts + [x])[1..] == parts[1..] + [x];
      JoinSnoc(parts[1..], x, sep);
    }
  }

  lemma {:induction false} JoinAppend(a: seq<string>, b: seq<string>, sep: string)
    requires |a| > 0 && |b| > 0
    ensures Join(a + b, sep) == Join(a, sep) + sep + Join(b, sep)
    decreases |a|
  {
    if |a| == 1 {
      assert (a + b)[1..] == b;
    } else {
      assert (a + b)[1..] == a[1..] + b;
      JoinAppend(a[1..], b, sep);
    }
  }

  // ---------------------------------------------------------------------
  // Splitting on one character (the basis of `lines()`)
  // ---------------------------------------------------------------------

  /** `s.split(c)`: the maximal pieces of `s` between occurrences of `c`;
      there is always one piece more than there are occurrences. */
  function SplitOn(s: string, c: char): (r: seq<string>)
    ensures |r| >= 1
    decreases |s|
  {
    if s == [] then [""]
    else
      var rest := SplitOn(s[1..], c);
      if s[0] == c then [""] + rest else [[s[0]] + rest[0]] + rest[1..]
  }

  /** Joining the pieces with the separator gives back the string. */
  lemma {:induction false} SplitOnJoin(s: string, c: char)
    ensures Join(SplitOn(s, c), [c]) == s
    decreases |s|
  {
    if s != [] {
      var rest := SplitOn(s[1..], c);
      SplitOnJoin(s[1..], c);
      if s[0] == c {
        assert ([""] + rest)[1..] == rest;
      } else if |rest| > 1 {
        var r := [[s[0]] + rest[0]] + rest[1..];
        assert r[1..] == rest[1..];
        assert Join(rest, [c]) == rest[0] + [c] + Join(rest[1..], [c]);
      }
    }
  }

  /** No piece contains the separator. */
  lemma {:induction false} SplitOnPieces(s: string, c: char)
    ensures forall i :: 0 <= i < |SplitOn(s, c)| ==> c !in SplitOn(s, c)[i]
    decreases |s|
  {
    if s != [] {
      SplitOnPieces(s[1..], c);
    }
  }

  /** A string without the separator is its own single piece. */
  lemma {:induction false} SplitOnFree(s: string, c: char)
    requires c !in s
    ensures SplitOn(s, c) == [s]
    decreases |s|
  {
    if s != [] {
      assert c !in s[1..];
      SplitOnFree(s[1..], c);
      assert s == [s[0]] + s[1..];
    }
  }

  /** Splitting distributes over a separator occurrence. */
  lemma {:induction false} SplitOnAppend(a: string, b: string, c: char)
    ensures SplitOn(a + [c] + b, c) == SplitOn(a, c) + SplitOn(b, c)
    decreases |a|
  {
    var s := a + [c] + b;
    if a == [] {
      assert s[1..] == b;
    } else {
      assert s[1..] == a[1..] + [c] + b;
      SplitOnAppend(a[1..], b, c);
    }
  }

  /** Pieces without the separator come back from their join. */
  lemma {:induction false} JoinSplitOn(parts: seq<string>, c: char)
    requires |parts| >= 1
    requires forall i :: 0 <= i < |parts| ==> c !in parts[i]
    ensures SplitOn(Join(parts, [c]), c) == parts
    decreases |parts|
  {
    if |parts| == 1 {
      SplitOnFree(parts[0], c);
    } else {
      JoinSplitOn(parts[1..], c);
      SplitOnAppend(parts[0], Join(parts[1..], [c]), c);
      SplitOnFree(parts[0], c);
      assert parts == [parts[0]] + parts[1..];
    }
  }

  /** The last piece is empty exactly when the string is empty or ends with the separator. */
  lemma {:induction false} SplitOnLast(s: string, c: char)
    ensures var p := SplitOn(s, c); (p[|p| - 1] == "") <==> (s == [] || s[|s| - 1] == c)
    decreases |s|
  {
    if s != [] {
      SplitOnLast(s[1..], c);
    }
  }

  /** The first piece is empty, with more pieces following, only when the
      string starts with the separator. */
  lemma SplitOnFirst(s: string, c: char)
    requires |SplitOn(s, c)| > 1 && SplitOn(s, c)[0] == ""
    ensures s != [] && s[0] == c
  {
  }

  // ---------------------------------------------------------------------
  // str::lines
  // ---------------------------------------------------------------------

  /** A line terminated by "\r\n" loses its '\r'. */
  function StripCr(line: string): string {
    if |line| > 0 && line[|line| - 1] == '\r' then line[..|line| - 1] else line
  }

  /** Rust's `s.lines()`: the pieces between '\n's, where a piece that a
      '\n' terminates loses one trailing '\r' and a final empty piece is
      not a line (so "" has no lines and "a\n" has one). */
  function Lines(s: string): (r: seq<string>)
    ensures forall i :: 0 <= i < |r| ==> '\n' !in r[i]
    ensures var p := SplitOn(s, '\n');
      && |r| == (if p[|p| - 1] == "" then |p| - 1 else |p|)
      && (forall i :: 0 <= i < |p| - 1 ==> r[i] == StripCr(p[i]))
      && (p[|p| - 1] != "" ==> r[|p| - 1] == p[|p| - 1])
  {
    var p := SplitOn(s, '\n');
    SplitOnPieces(s, '\n');
    var terminated := seq(|p| - 1, i requires 0 <= i < |p| - 1 => StripCr(p[i]));
    if p[|p| - 1] == "" then terminated else terminated + [p[|p| - 1]]
  }

  /** The number of lines of a non-empty string that does not end with a
      newline is one more than its number of newlines, i.e. the number of
      pieces between newlines. */
  lemma LinesCount(s: string)
    ensures s == [] ==> |Lines(s)| == 0
    ensures s != [] && s[|s| - 1] != '\n' ==> |Lines(s)| == |SplitOn(s, '\n')|
    ensures s != [] && s[|s| - 1] == '\n' ==> |Lines(s)| == |SplitOn(s, '\n')| - 1
  {
    SplitOnLast(s, '\n');
  }

  /** No '\r' directly before a '\n'. */
  predicate NoCrLf(s: string) {
    forall i :: 0 <= i < |s| - 1 ==> !(s[i] == '\r' && s[i + 1] == '\n')
  }

  lemma {:induction false} NoCrLfPieces(s: string)
    requires NoCrLf(s)
    ensures forall i :: 0 <= i < |SplitOn(s, '\n')| - 1 ==> StripCr(SplitOn(s, '\n')[i]) == SplitOn(s, '\n')[i]
    decreases |s|
  {
    if s != [] {
      var rest := SplitOn(s[1..], '\n');
      assert NoCrLf(s[1..]) by {
        forall i | 0 <= i < |s[1..]| - 1 ensures !(s[1..][i] == '\r' && s[1..][i + 1] == '\n') {
          assert s[1..][i] == s[i + 1] && s[1..][i + 1] == s[i + 2];
        }
      }
      NoCrLfPieces(s[1..]);
      var p := SplitOn(s, '\n');
      forall i | 0 <= i < |p| - 1 ensures StripCr(p[i]) == p[i] {
        if s[0] == '\n' {
          if i > 0 { assert p[i] == rest[i - 1]; assert StripCr(rest[i - 1]) == rest[i - 1]; }
        } else if i > 0 {
          assert p[i] == rest[i];
          assert StripCr(rest[i]) == rest[i];
        } else if rest[0] == "" {
          SplitOnFirst(s[1..], '\n');
          assert s[1] == '\n' && p[0] == [s[0]];
          assert s[0] != '\r';
        } else {
          assert StripCr(rest[0]) == rest[0];
          assert p[0] == [s[0]] + rest[0];
          assert p[0][|p[0]| - 1] == rest[0][|rest[0]| - 1];
        }
      }
    }
  }

  /** Joining the lines with "\n" gives back a string that has no "\r\n"
      and does not end with a newline. */
  lemma LinesJoin(s: string)
    requires NoCrLf(s)
    requires s == [] || s[|s| - 1] != '\n'
    ensures Join(Lines(s), "\n") == s
  {
    var p := SplitOn(s, '\n');
    SplitOnLast(s, '\n');
    SplitOnJoin(s, '\n');
    if s != [] {
      NoCrLfPieces(s);
      var r := Lines(s);
      assert |r| == |p|;
      forall i | 0 <= i < |p| ensures r[i] == p[i] {
        if i < |p| - 1 {
          assert r[i] == StripCr(p[i]);
        }
      }
      assert r == p;
    }
  }

  // ---------------------------------------------------------------------
  // Splitting on a string, and replacing
  // ---------------------------------------------------------------------

  /** `s.split(sep)` for a non-empty string pattern: matches are taken
      from the left and never overlap. */
  function Split(s: string, sep: string): (r: seq<string>)
    requires sep != ""
    ensures |r| >= 1
    decreases |s|
  {
    if s == [] then [""]
    else if StartsWith(s, sep) then [""] + Split(s[|sep|..], sep)
    else
      var rest := Split(s[1..], sep);
      [[s[0]] + rest[0]] + rest[1..]
  }

  lemma JoinEmptyFirst(rest: seq<string>, sep: string)
    requires |rest| >= 1
    ensures Join([""] + rest, sep) == sep + Join(rest, sep)
  {
    assert ([""] + rest)[1..] == rest;
  }

  lemma JoinCharFirst(c: char, rest: seq<string>, sep: string)
    requires |rest| >= 1
    ensures Join([[c] + rest[0]] + rest[1..], sep) == [c] + Join(rest, sep)
  {
    var r := [[c] + rest[0]] + rest[1..];
    assert r[1..] == rest[1..];
  }

  /** Joining the pieces with the pattern gives back the string. */
  lemma {:induction false} SplitJoin(s: string, sep: string)
    requires sep != ""
    ensures Join(Split(s, sep), sep) == s
    decreases |s|
  {
    if s != [] {
      if StartsWith(s, sep) {
        SplitJoin(s[|sep|..], sep);
        JoinEmptyFirst(Split(s[|sep|..], sep), sep);
        assert s == sep + s[|sep|..];
      } else {
        SplitJoin(s[1..], sep);
        JoinCharFirst(s[0], Split(s[1..], sep), sep);
        assert s == [s[0]] + s[1..];
      }
    }
  }

  /** `s.replace(from, to)`. */
  function Replace(s: string, from: string, to: string): string
    requires from != ""
  {
    Join(Split(s, from), to)
  }

  /** `s.contains(sub)`. */
  predicate ContainsSub(s: string, sub: string) {
    exists i :: 0 <= i <= |s| && StartsWith(s[i..], sub)
  }

  /** A pattern that does not occur leaves a single piece. */
  lemma {:induction false} SplitAbsent(s: string, sep: string)
    requires sep != "" && !ContainsSub(s, sep)
    ensures Split(s, sep) == [s]
    decreases |s|
  {
    if s != [] {
      assert s[0..] == s;
      forall i | 0 <= i <= |s[1..]| ensures !StartsWith(s[1..][i..], sep) {
        assert s[1..][i..] == s[i + 1..];
      }
      SplitAbsent(s[1..], sep);
      assert [s[0]] + s[1..] == s;
    }
  }

  /** Replacing a pattern that does not occur changes nothing. */
  lemma ReplaceAbsent(s: string, from: string, to: string)
    requires from != ""
    ensures !ContainsSub(s, from) ==> Replace(s, from, to) == s
  {
    if !ContainsSub(s, from) {
      SplitAbsent(s, from);
    }
  }

  // ---------------------------------------------------------------------
  // Trimming
  // ---------------------------------------------------------------------

  /** Unicode's White_Space property, which `str::trim` uses. */
  predicate IsWhitespace(c: char) {
    c == ' ' || ('\t' <= c <= '\r') || c == '\U{0085}' || c == '\U{00A0}' || c == '\U{1680}'
    || ('\U{2000}' <= c <= '\U{200A}') || c == '\U{2028}' || c == '\U{2029}' || c == '\U{202F}'
    || c == '\U{205F}' || c == '\U{3000}'
  }

  predicate AllWhitespace(s: string) {
    forall i :: 0 <= i < |s| ==> IsWhitespace(s[i])
  }

  /** `s.trim_start()`: the longest suffix that does not start with whitespace. */
  function TrimStart(s: string): (r: string)
    ensures |r| <= |s| && r == s[|s| - |r|..]
    ensures AllWhitespace(s[..|s| - |r|])
    ensures r == [] || !IsWhitespace(r[0])
    decreases |s|
  {
    if s != [] && IsWhitespace(s[0]) then
      var t := s[1..];
      var r := TrimStart(t);
      assert s[..|s| - |r|] == [s[0]] + t[..|t| - |r|];
      AllWhitespaceAppend([s[0]], t[..|t| - |r|]);
      r
    else s
  }

  lemma AllWhitespaceAppend(a: string, b: string)
    requires AllWhitespace(a) && AllWhitespace(b)
    ensures AllWhitespace(a + b)
  {
    forall i | 0 <= i < |a + b|
      ensures IsWhitespace((a + b)[i])
    {
      if i < |a| {
        assert (a + b)[i] == a[i];
      } else {
        assert (a + b)[i] == b[i - |a|];
      }
    }
  }

  /** `s.trim_end()`: the longest prefix that does not end with whitespace. */
  function TrimEnd(s: string): (r: string)
    ensures |r| <= |s| && r == s[..|r|]
    ensures AllWhitespace(s[|r|..])
    ensures r == [] || !IsWhitespace(r[|r| - 1])
    decreases |s|
  {
    if s != [] && IsWhitespace(s[|s| - 1]) then
      var t := s[..|s| - 1];
      var r := TrimEnd(t);
      assert s[|r|..] == t[|r|..] + [s[|s| - 1]];
      AllWhitespaceAppend(t[|r|..], [s[|s| - 1]]);
      r
    else s
  }

  /** `s.trim()`. */
  function Trim(s: string): (r: string)
    ensures r == [] || (!IsWhitespace(r[0]) && !IsWhitespace(r[|r| - 1]))
  {
    TrimEnd(TrimStart(s))
  }

  /** `x` is some number of copies of `pat`. */
  predicate IsRepeatOf(x: string, pat: string)
    requires pat != ""
    decreases |x|
  {
    x == [] || (StartsWith(x, pat) && IsRepeatOf(x[|pat|..], pat))
  }

  /** `s.trim_start_matches(pat)`: every leading copy of `pat` removed. */
  function TrimStartMatches(s: string, pat: string): (r: string)
    ensures |r| <= |s| && r == s[|s| - |r|..]
    ensures pat != "" ==> IsRepeatOf(s[..|s| - |r|], pat) && !StartsWith(r, pat)
    ensures pat == "" ==> r == s
    decreases |s|
  {
    if pat != "" && StartsWith(s, pat) then
      var r := TrimStartMatches(s[|pat|..], pat);
      assert s[..|s| - |r|][|pat|..] == s[|pat|..][..|s[|pat|..]| - |r|];
      r
    else s
  }

  /** Leading copies of `pat` are removed and the first other text is kept. */
  lemma {:induction false} TrimStartMatchesRepeat(x: string, rest: string, pat: string)
    requires pat != "" && IsRepeatOf(x, pat) && !StartsWith(rest, pat)
    ensures TrimStartMatches(x + rest, pat) == rest
    decreases |x|
  {
    var s := x + rest;
    if x == [] {
      assert s == rest;
    } else {
      var x' := x[|pat|..];
      assert StartsWith(x, pat) && IsRepeatOf(x', pat);
      assert s[..|pat|] == x[..|pat|];
      assert s[|pat|..] == x' + rest;
      TrimStartMatchesRepeat(x', rest, pat);
      assert TrimStartMatches(s, pat) == TrimStartMatches(x' + rest, pat);
    }
  }

  /** Both ends of `t` are free of whitespace. */
  predicate Trimmed(t: string) {
    t == [] || (!IsWhitespace(t[0]) && !IsWhitespace(t[|t| - 1]))
  }

  lemma AppendAssoc(a: string, b: string, c: string, d: string)
    ensures a + b + c + d == a + b + (c + d) && b + c + d == b + (c + d)
  {
  }

  /** `t` is trimmed text, not starting with `c`, after whitespace `w`. */
  predicate PaddedBy(w: string, t: string, c: char) {
    AllWhitespace(w) && Trimmed(t) && !IsWhitespace(c) && (t == [] || t[0] != c)
  }

  lemma PaddedText(w: string, t: string, c: char)
    requires PaddedBy(w, t, c)
    ensures Trim(w + t) == t && !StartsWith(w + t, [c])
  {
    PaddedStart(w, t, c);
    TrimPadded(w, t);
  }

  /** Stripping the copies of `mark`, then the `hash` characters, leaves
      the text after them. */
  lemma StripMarkers(markers: string, hashes: string, tail: string, mark: string, hash: char)
    requires mark != "" && IsRepeatOf(markers, mark) && IsRepeatOf(hashes, [hash])
    requires !StartsWith(hashes + tail, mark) && !StartsWith(tail, [hash])
    ensures TrimStartMatches(TrimStartMatches(markers + hashes + tail, mark), [hash]) == tail
  {
    assert markers + hashes + tail == markers + (hashes + tail);
    TrimStartMatchesRepeat(markers, hashes + tail, mark);
    TrimStartMatchesRepeat(hashes, tail, [hash]);
  }

  /** Text after leading whitespace starts with a character that is not
      whitespace only if the text itself does. */
  lemma PaddedStart(w: string, t: string, c: char)
    requires AllWhitespace(w) && !IsWhitespace(c) && (t == [] || t[0] != c)
    ensures !StartsWith(w + t, [c])
  {
    if w + t != [] {
      assert (w + t)[..1] == [(w + t)[0]];
      if w != [] {
        assert (w + t)[0] == w[0];
      } else {
        assert w + t == t;
      }
    }
  }

  /** Leading whitespace in front of trimmed text is all `trim` removes. */
  lemma {:induction false} TrimPadded(w: string, t: string)
    requires AllWhitespace(w) && Trimmed(t)
    ensures Trim(w + t) == t
    decreases |w|
  {
    if w != [] {
      assert (w + t)[1..] == w[1..] + t;
      TrimPadded(w[1..], t);
    } else {
      assert w + t == t;
    }
  }

  // ---------------------------------------------------------------------
  // Characters
  // ---------------------------------------------------------------------

  /** `s.to_lowercase()` on ASCII letters; every other character is kept. */
  function ToLowerAscii(s: string): (r: string)
    ensures |r| == |s|
    ensures forall i :: 0 <= i < |s| ==> ('A' <= s[i] <= 'Z' <==> r[i] != s[i])
    ensures forall i :: 0 <= i < |s| ==> !('A' <= r[i] <= 'Z')
  {
    seq(|s|, i requires 0 <= i < |s| => if 'A' <= s[i] <= 'Z' then (s[i] as int + 32) as char else s[i])
  }

  /** `s.replace(from, to)` for a single-character pattern and replacement. */
  function ReplaceChar(s: string, from: char, to: char): (r: string)
    ensures |r| == |s|
    ensures forall i :: 0 <= i < |s| ==> r[i] == (if s[i] == from then to else s[i])
  {
    seq(|s|, i requires 0 <= i < |s| => if s[i] == from then to else s[i])
  }

  // ---------------------------------------------------------------------
  // Concatenating a sequence of strings (grapheme clusters)
  // ---------------------------------------------------------------------

  function Concat(parts: seq<string>): string
    decreases |parts|
  {
    if parts == [] then "" else Concat(parts[..|parts| - 1]) + parts[|parts| - 1]
  }

  lemma {:induction false} ConcatAppend(a: seq<string>, b: seq<string>)
    ensures Concat(a + b) == Concat(a) + Concat(b)
    decreases |b|
  {
    if b != [] {
      assert (a + b)[..|a + b| - 1] == a + b[..|b| - 1];
      assert (a + b)[|a + b| - 1] == b[|b| - 1];
      ConcatAppend(a, b[..|b| - 1]);
    } else {
      assert a + b == a;
    }
  }

  lemma ConcatSlices(s: seq<string>, i: nat, j: nat, k: nat)
    requires i <= j <= k <= |s|
    ensures Concat(s[i..k]) == Concat(s[i..j]) + Concat(s[j..k])
  {
    assert s[i..k] == s[i..j] + s[j..k];
    ConcatAppend(s[i..j], s[j..k]);
  }

  // ---------------------------------------------------------------------
  // Decimal numbers
  // ---------------------------------------------------------------------

  predicate IsDigit(c: char) {
    '0' <= c <= '9'
  }

  predicate AllDigits(s: string) {
    forall i :: 0 <= i < |s| ==> IsDigit(s[i])
  }

  /** `format!("{}", n)` for an unsigned integer: its decimal digits,
      without leading zeros. */
  function NatToString(n: nat): (r: string)
    ensures |r| >= 1 && AllDigits(r)
    ensures r[0] == '0' ==> r == "0"
    decreases n
  {
    if n < 10 then [('0' as int + n) as char]
    else NatToString(n / 10) + [('0' as int + n % 10) as char]
  }

  /** The value of a string of decimal digits. */
  function ParseNat(s: string): nat
    requires AllDigits(s)
    decreases |s|
  {
    if s == [] then 0 else ParseNat(s[..|s| - 1]) * 10 + (s[|s| - 1] as int - '0' as int)
  }

  /** Reading back a rendered number gives the number. */
  lemma {:induction false} ParseNatToString(n: nat)
    ensures ParseNat(NatToString(n)) == n
    decreases n
  {
    if n >= 10 {
      var r := NatToString(n);
      assert r[..|r| - 1] == NatToString(n / 10);
      ParseNatToString(n / 10);
    }
  }
}
