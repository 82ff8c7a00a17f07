/**
  Text normalisation.  The pipeline of replacements, line trimming and blank-line collapsing
  is compared with a one-pass reading of the text as a sequence of visible characters, each
  with the kind of gap in front of it.
 */
module CleanText {
  import opened Text

  // ----- the pipeline -----

  function NewlinesOnly(text: string): string {
    ReplaceCr(ReplaceCrLf(text))
  }

  function StripAll(lines: seq<string>): (r: seq<string>) {
    seq(|lines|, i requires 0 <= i < |lines| => Strip(lines[i]))
  }

  /** The kept lines, and whether the last one read was blank. */
  function Collapse(lines: seq<string>): (seq<string>, bool) {
    if lines == [] then ([], false)
    else
      var (out, blank) := Collapse(lines[..|lines| - 1]);
      var line := lines[|lines| - 1];
      if line != "" then (out + [line], false)
      else if blank then (out, true)
      else (out + [""], true)
  }

  function Clean(text: string): string {
    var lines := StripAll(SplitLines(Squeeze(NewlinesOnly(text))));
    LimitBreaks(Strip(Join(Collapse(lines).0, "\n")))
  }

  method CollapseBlankLines(lines: seq<string>) returns (out: seq<string>)
    ensures out == Collapse(lines).0
  {
    out := [];
    var blank := false;
    for i := 0 to |lines|
      invariant (out, blank) == Collapse(lines[..i])
    {
      assert lines[..i + 1][..i] == lines[..i];
      var line := lines[i];
      if line == "" {
        if !blank {
          out := out + [""];
        }
        blank := true;
      } else {
        out := out + [line];
        blank := false;
      }
    }
    assert lines[..|lines|] == lines;
  }

  method CleanedText(text: string) returns (cleaned: string)
    ensures cleaned == Clean(text)
  {
    var normalised := Squeeze(NewlinesOnly(text));
    var lines := StripAll(SplitLines(normalised));
    var out := CollapseBlankLines(lines);
    cleaned := Strip(Join(out, "\n"));
    cleaned := LimitBreaks(cleaned);
  }

  // ----- reading a text as visible characters and gaps -----

  /** What lies in front of a visible character: nothing yet, nothing, blanks, one line end, a blank line. */
  datatype Gap = Start | Tight | Space | Line | Para

  datatype Word = Word(gap: Gap, c: char)

  function Widen(g: Gap, c: char): Gap {
    if g == Start then Start
    else if IsBlank(c) then (if g == Tight then Space else g)
    else if g == Line || g == Para then Para
    else Line
  }

  /** A carriage return right before a newline does not count. */
  predicate HalfOfPair(s: string)
    requires s != ""
  {
    s[0] == '\r' && |s| > 1 && s[1] == '\n'
  }

  function Words(s: string, g: Gap): seq<Word> {
    if s == "" then []
    else if !IsSpace(s[0]) then [Word(g, s[0])] + Words(s[1..], Tight)
    else if HalfOfPair(s) then Words(s[1..], g)
    else Words(s[1..], Widen(g, s[0]))
  }

  /** The gap that is open after a text. */
  function After(s: string, g: Gap): Gap {
    if s == "" then g
    else if !IsSpace(s[0]) then After(s[1..], Tight)
    else if HalfOfPair(s) then After(s[1..], g)
    else After(s[1..], Widen(g, s[0]))
  }

  function GapText(g: Gap): string {
    match g
    case Start => ""
    case Tight => ""
    case Space => " "
    case Line => "\n"
    case Para => "\n\n"
  }

  function Render(ws: seq<Word>): string {
    if ws == [] then "" else GapText(ws[0].gap) + [ws[0].c] + Render(ws[1..])
  }

  /** The normal form of a text: its visible characters, each behind the standard text of its gap. */
  function Canonical(text: string): string {
    Render(Words(text, Start))
  }

  // ----- the normal form, position by position -----

  predicate NormalText(t: string) {
    && Trimmed(t)
    && (forall i :: 0 <= i < |t| ==> t[i] != '\r' && t[i] != '\t')
    && (forall i :: 0 <= i < |t| - 1 ==> NoWidePair(t[i], t[i + 1]))
    && (forall i :: 0 <= i < |t| - 2 ==> NoTriple(t[i], t[i + 1], t[i + 2]))
  }

  /** No two white-space characters in a row but a pair of newlines. */
  predicate NoWidePair(a: char, b: char) {
    IsSpace(a) && IsSpace(b) ==> a == '\n' && b == '\n'
  }

  predicate NoTriple(a: char, b: char, c: char) {
    !(a == '\n' && b == '\n' && c == '\n')
  }

  predicate NoBlankPair(a: char, b: char) {
    !(a == ' ' && b == ' ')
  }

  /** A text that continues a normal text whose open gap is `g`. */
  predicate Continues(s: string, g: Gap) {
    if s == "" then g == Start || g == Tight
    else if !IsSpace(s[0]) then Continues(s[1..], Tight)
    else if s[0] == ' ' then g == Tight && Continues(s[1..], Space)
    else s[0] == '\n' && (g == Tight || g == Line) && Continues(s[1..], if g == Tight then Line else Para)
  }

  lemma {:induction false} RenderContinues(s: string, g: Gap)
    requires Continues(s, g)
    ensures Render(Words(s, g)) == GapText(g) + s
  {
    if s == "" {
    } else if !IsSpace(s[0]) {
      RenderContinues(s[1..], Tight);
      RenderWord(s, g);
    } else {
      RenderContinues(s[1..], Widen(g, s[0]));
      WidenedText(g, s[0]);
      assert s == [s[0]] + s[1..];
    }
  }

  lemma RenderWord(s: string, g: Gap)
    requires s != "" && !IsSpace(s[0]) && Render(Words(s[1..], Tight)) == GapText(Tight) + s[1..]
    ensures Render(Words(s, g)) == GapText(g) + s
  {
    assert s == [s[0]] + s[1..];
    WordStart(s[0], s[1..], g);
    RenderCons(Word(g, s[0]), Words(s[1..], Tight));
  }

  lemma WidenedText(g: Gap, c: char)
    requires if c == ' ' then g == Tight else c == '\n' && (g == Tight || g == Line)
    ensures GapText(Widen(g, c)) == GapText(g) + [c]
  {
  }

  lemma {:induction false} NormalContinues(t: string, k: nat)
    requires NormalText(t) && k <= |t|
    ensures k == 0 ==> Continues(t[k..], Start)
    ensures 0 < k && !IsSpace(t[k - 1]) ==> Continues(t[k..], Tight)
    ensures 0 < k < |t| && t[k - 1] == ' ' ==> Continues(t[k..], Space)
    ensures 1 < k < |t| && t[k - 1] == '\n' && t[k - 2] == '\n' ==> Continues(t[k..], Para)
    ensures 1 < k < |t| && t[k - 1] == '\n' && t[k - 2] != '\n' ==> Continues(t[k..], Line)
    decreases |t| - k
  {
    if k < |t| {
      NormalContinues(t, k + 1);
      assert t[k..][1..] == t[k + 1..];
      if k > 0 {
        assert NoWidePair(t[k - 1], t[k]);
      }
      if k > 1 {
        assert NoTriple(t[k - 2], t[k - 2 + 1], t[k - 2 + 2]);
        assert NoWidePair(t[k - 2], t[k - 2 + 1]);
      }
    }
  }

  lemma {:induction false} ContinuesIsNormal(s: string, g: Gap)
    requires Continues(s, g)
    ensures forall i :: 0 <= i < |s| ==> s[i] != '\r' && s[i] != '\t'
    ensures forall i :: 0 <= i < |s| - 1 ==> NoWidePair(s[i], s[i + 1])
    ensures forall i :: 0 <= i < |s| - 2 ==> NoTriple(s[i], s[i + 1], s[i + 2])
    ensures s != "" ==> !IsSpace(s[|s| - 1]) && (g != Tight && g != Line ==> !IsSpace(s[0]))
    ensures s != "" && g == Line ==> s[0] != ' ' && (|s| > 1 ==> !(s[0] == '\n' && s[1] == '\n'))
  {
    if s != "" {
      var t := s[1..];
      var next := if !IsSpace(s[0]) then Tight else if s[0] == ' ' then Space else if g == Tight then Line else Para;
      ContinuesIsNormal(t, next);
      assert forall i :: 1 <= i < |s| ==> s[i] == t[i - 1];
    }
  }

  /** Word lists that a text can have, read from gap `g`. */
  ghost predicate WellGapped(ws: seq<Word>, g: Gap) {
    && (forall i :: 0 <= i < |ws| ==> !IsSpace(ws[i].c))
    && (forall i :: 1 <= i < |ws| ==> ws[i].gap != Start)
    && (ws != [] ==> (ws[0].gap == Start <==> g == Start))
  }

  lemma {:induction false} WordsWellGapped(s: string, g: Gap)
    ensures WellGapped(Words(s, g), g)
  {
    if s == "" {
    } else if !IsSpace(s[0]) {
      WordsWellGapped(s[1..], Tight);
    } else if HalfOfPair(s) {
      WordsWellGapped(s[1..], g);
    } else {
      WordsWellGapped(s[1..], Widen(g, s[0]));
    }
  }

  /** Reading the standard text of a gap opens exactly that gap. */
  lemma GapTextOpens(gap: Gap, tail: string)
    requires tail != "" && !IsSpace(tail[0])
    ensures var g := if gap == Start then Start else Tight;
      && Words(GapText(gap) + tail, g) == Words(tail, gap)
      && Continues(GapText(gap) + tail, g) == Continues(tail, gap)
  {
    match gap {
      case Start => assert GapText(gap) + tail == tail;
      case Tight => assert GapText(gap) + tail == tail;
      case Space => assert (" " + tail)[1..] == tail;
      case Line => assert ("\n" + tail)[1..] == tail;
      case Para =>
        assert ("\n\n" + tail)[1..] == "\n" + tail;
        assert ("\n" + tail)[1..] == tail;
    }
  }

  lemma WordStart(c: char, body: string, gap: Gap)
    requires !IsSpace(c)
    ensures Words([c] + body, gap) == [Word(gap, c)] + Words(body, Tight)
    ensures Continues([c] + body, gap) == Continues(body, Tight)
  {
    assert ([c] + body)[1..] == body;
  }

  lemma RenderCons(w: Word, rest: seq<Word>)
    ensures Render([w] + rest) == GapText(w.gap) + ([w.c] + Render(rest))
  {
    assert ([w] + rest)[1..] == rest;
  }

  lemma RenderedWord(w: Word, rest: seq<Word>, g: Gap)
    requires !IsSpace(w.c) && (w.gap == Start <==> g == Start) && (g == Start || g == Tight)
    requires Words(Render(rest), Tight) == rest && Continues(Render(rest), Tight)
    ensures Words(Render([w] + rest), g) == [w] + rest && Continues(Render([w] + rest), g)
  {
    RenderCons(w, rest);
    WordStart(w.c, Render(rest), w.gap);
    GapTextOpens(w.gap, [w.c] + Render(rest));
  }

  lemma {:induction false} WordsOfRender(ws: seq<Word>, g: Gap)
    requires WellGapped(ws, g) && (g == Start || g == Tight)
    ensures Words(Render(ws), g) == ws && Continues(Render(ws), g)
  {
    if ws != [] {
      WordsOfRender(ws[1..], Tight);
      RenderedWord(ws[0], ws[1..], g);
      assert ws == [ws[0]] + ws[1..];
    }
  }

  /** The normal form of any text satisfies the position-by-position description. */
  lemma CanonicalIsNormal(text: string)
    ensures NormalText(Canonical(text))
  {
    WordsWellGapped(text, Start);
    WordsOfRender(Words(text, Start), Start);
    ContinuesIsNormal(Canonical(text), Start);
  }

  /** A text is its own normal form exactly when it satisfies the position-by-position description. */
  lemma CanonicalFixpoint(text: string)
    ensures Canonical(text) == text <==> NormalText(text)
  {
    CanonicalIsNormal(text);
    if NormalText(text) {
      NormalContinues(text, 0);
      assert text[0..] == text;
      RenderContinues(text, Start);
    }
  }

  lemma CanonicalKeepsWords(text: string)
    ensures Words(Canonical(text), Start) == Words(text, Start)
  {
    WordsWellGapped(text, Start);
    WordsOfRender(Words(text, Start), Start);
  }

  // ----- every stage keeps the words -----

  lemma {:induction false} ReplaceCrStep(s: string)
    ensures s != "" && HalfOfPair(s) ==> NewlinesOnly(s) == "\n" + NewlinesOnly(s[2..])
    ensures s != "" && !HalfOfPair(s) ==>
      NewlinesOnly(s) == [if s[0] == '\r' then '\n' else s[0]] + NewlinesOnly(s[1..])
  {
    if s != "" {
      var r := ReplaceCrLf(s);
      if HalfOfPair(s) {
        assert r[1..] == ReplaceCrLf(s[2..]);
      } else {
        assert r[1..] == ReplaceCrLf(s[1..]);
      }
    }
  }

  lemma {:induction false} NewlinesKeepWords(s: string, g: Gap)
    ensures Words(NewlinesOnly(s), g) == Words(s, g)
    ensures '\r' !in NewlinesOnly(s)
    decreases |s|
  {
    ReplaceCrStep(s);
    if s == "" {
    } else if !IsSpace(s[0]) {
      NewlinesKeepWords(s[1..], Tight);
    } else if HalfOfPair(s) {
      NewlinesKeepWords(s[2..], Widen(g, '\n'));
      assert s[1..][1..] == s[2..];
      assert NewlinesOnly(s)[1..] == NewlinesOnly(s[2..]);
      assert !HalfOfPair(s[1..]);
    } else {
      NewlinesKeepWords(s[1..], Widen(g, s[0]));
      assert NewlinesOnly(s)[1..] == NewlinesOnly(s[1..]);
    }
  }

  lemma {:induction false} DropBlanksKeepsWords(s: string, g: Gap)
    requires g != Tight && '\r' !in s
    ensures Words(DropBlanks(s), g) == Words(s, g) && '\r' !in DropBlanks(s)
  {
    if s != "" && IsBlank(s[0]) {
      DropBlanksKeepsWords(s[1..], g);
    }
  }

  lemma {:induction false} SqueezeKeepsWords(s: string, g: Gap)
    requires '\r' !in s
    ensures Words(Squeeze(s), g) == Words(s, g)
    decreases |s|
  {
    if s == "" {
    } else if IsBlank(s[0]) {
      var g' := Widen(g, ' ');
      DropBlanksKeepsWords(s[1..], g');
      SqueezeKeepsWords(DropBlanks(s[1..]), g');
      assert Squeeze(s)[1..] == Squeeze(DropBlanks(s[1..]));
    } else {
      SqueezeKeepsWords(s[1..], if !IsSpace(s[0]) then Tight else Widen(g, s[0]));
      assert Squeeze(s)[1..] == Squeeze(s[1..]);
    }
  }

  /** No carriage return, no tab, no two blanks in a row. */
  predicate Squeezed(s: string) {
    && (forall i :: 0 <= i < |s| ==> s[i] != '\r' && s[i] != '\t')
    && (forall i :: 0 <= i < |s| - 1 ==> NoBlankPair(s[i], s[i + 1]))
  }

  lemma {:induction false} DropBlanksSqueezed(s: string)
    ensures DropBlanks(s) != "" ==> !IsBlank(DropBlanks(s)[0])
    ensures '\r' !in s ==> '\r' !in DropBlanks(s)
  {
    if s != "" && IsBlank(s[0]) {
      DropBlanksSqueezed(s[1..]);
    }
  }

  lemma {:induction false} SqueezeIsSqueezed(s: string)
    requires '\r' !in s
    ensures Squeezed(Squeeze(s))
    ensures s != "" && !IsBlank(s[0]) ==> Squeeze(s) != "" && Squeeze(s)[0] == s[0]
    decreases |s|
  {
    if s == "" {
    } else if IsBlank(s[0]) {
      DropBlanksSqueezed(s[1..]);
      SqueezeIsSqueezed(DropBlanks(s[1..]));
    } else {
      SqueezeIsSqueezed(s[1..]);
    }
  }

  lemma SqueezedPart(s: string, i: nat, j: nat)
    requires Squeezed(s) && i <= j <= |s|
    ensures Squeezed(s[i..j])
  {
    forall k | 0 <= k < j - i - 1
      ensures NoBlankPair(s[i..j][k], s[i..j][k + 1])
    {
      assert NoBlankPair(s[i + k], s[i + k + 1]);
    }
  }

  lemma {:induction false} SplitLinesSqueezed(s: string)
    requires Squeezed(s)
    ensures forall i :: 0 <= i < |SplitLines(s)| ==> Squeezed(SplitLines(s)[i])
    ensures s != "" && s[0] != '\n' ==> SplitLines(s)[0] != "" && SplitLines(s)[0][0] == s[0]
  {
    if s != "" {
      SqueezedPart(s, 1, |s|);
      assert s[1..|s|] == s[1..];
      SplitLinesSqueezed(s[1..]);
      var rest := SplitLines(s[1..]);
      if s[0] != '\n' {
        JoinSplitLines(s[1..]);
        assert Squeezed(rest[0]);
        if rest[0] != "" && s[1..] != "" {
          assert NoBlankPair(s[0], s[0 + 1]);
        }
        assert Squeezed([s[0]] + rest[0]);
      }
    }
  }

  /** A stripped squeezed line is empty or continues a normal text behind any gap. */
  lemma StrippedLine(line: string, g: Gap)
    requires Squeezed(line) && '\n' !in line
    ensures '\n' !in Strip(line) && '\r' !in Strip(line)
    ensures Strip(line) != "" ==> Continues(Strip(line), g)
  {
    var i, j := StripParts(line);
    var x := line[i..j];
    SqueezedPart(line, i, j);
    if x != "" {
      forall k | 0 <= k < |x| - 1
        ensures NoWidePair(x[k], x[k + 1])
      {
        assert NoBlankPair(x[k], x[k + 1]);
      }
      assert NormalText(x);
      NormalContinues(x, 1);
    }
  }

  lemma {:induction false} WordsConcat(a: string, b: string, g: Gap)
    requires '\r' !in a
    ensures Words(a + b, g) == Words(a, g) + Words(b, After(a, g))
    ensures After(a + b, g) == After(b, After(a, g))
  {
    if a == "" {
      assert a + b == b;
    } else {
      assert (a + b)[1..] == a[1..] + b;
      WordsConcat(a[1..], b, if !IsSpace(a[0]) then Tight else Widen(g, a[0]));
    }
  }

  lemma {:induction false} ReadBlanks(b: string, g: Gap)
    requires forall k :: 0 <= k < |b| ==> IsBlank(b[k])
    ensures Words(b, g) == [] && After(b, g) == if b == "" then g else Widen(g, ' ')
  {
    if b != "" {
      ReadBlanks(b[1..], Widen(g, b[0]));
    }
  }

  /** Blanks around a line, whose start is the start of a line, change neither its words nor the gap behind its end. */
  lemma BlanksAround(a: string, x: string, b: string, g: Gap)
    requires '\r' !in x && (g == Start || g == Line || g == Para)
    requires (forall k :: 0 <= k < |a| ==> IsBlank(a[k])) && (forall k :: 0 <= k < |b| ==> IsBlank(b[k]))
    ensures Words(a + (x + b), g) == Words(x, g)
    ensures Widen(After(a + (x + b), g), '\n') == Widen(After(x, g), '\n')
  {
    ReadBlanks(a, g);
    WordsConcat(a, x + b, g);
    WordsConcat(x, b, g);
    TrailingBlanks(b, After(x, g));
  }

  lemma StripKeepsLine(line: string, g: Gap)
    requires '\n' !in line && '\r' !in line && (g == Start || g == Line || g == Para)
    ensures Words(Strip(line), g) == Words(line, g)
    ensures Widen(After(Strip(line), g), '\n') == Widen(After(line, g), '\n')
  {
    var i, j := StripParts(line);
    assert line == line[..i] + (line[i..j] + line[j..]);
    BlanksAround(line[..i], line[i..j], line[j..], g);
  }

  lemma TrailingBlanks(b: string, g: Gap)
    requires forall k :: 0 <= k < |b| ==> IsBlank(b[k])
    ensures Words(b, g) == [] && Widen(After(b, g), '\n') == Widen(g, '\n')
  {
    ReadBlanks(b, g);
  }

  // ----- texts as terminated lines -----

  function Terminated(lines: seq<string>): string {
    if lines == [] then "" else Terminated(lines[..|lines| - 1]) + lines[|lines| - 1] + "\n"
  }

  lemma {:induction false} TerminatedIsJoin(lines: seq<string>)
    requires lines != []
    ensures Terminated(lines) == Join(lines, "\n") + "\n"
  {
    if |lines| > 1 {
      TerminatedIsJoin(lines[..|lines| - 1]);
    } else {
      assert lines[..0] == [];
      assert Terminated(lines) == "" + lines[0] + "\n" == lines[0] + "\n";
    }
  }

  lemma ReadLine(front: string, line: string)
    requires '\r' !in front && '\r' !in line
    ensures var a := After(front, Start);
      && Words(front + line + "\n", Start) == Words(front, Start) + Words(line, a)
      && After(front + line + "\n", Start) == Widen(After(line, a), '\n')
  {
    WordsConcat(front, line, Start);
    WordsConcat(front + line, "\n", Start);
    var n: string := "\n";
    assert n[1..] == "";
  }

  lemma {:induction false} TerminatedNoCr(lines: seq<string>)
    requires forall i :: 0 <= i < |lines| ==> '\r' !in lines[i]
    ensures '\r' !in Terminated(lines)
  {
    if lines != [] {
      TerminatedNoCr(lines[..|lines| - 1]);
    }
  }

  lemma {:induction false} StripAllKeepsWords(lines: seq<string>)
    requires forall i :: 0 <= i < |lines| ==> Squeezed(lines[i]) && '\n' !in lines[i]
    ensures Words(Terminated(StripAll(lines)), Start) == Words(Terminated(lines), Start)
    ensures After(Terminated(StripAll(lines)), Start) == After(Terminated(lines), Start)
    ensures After(Terminated(lines), Start) in {Start, Line, Para}
  {
    if lines != [] {
      var n := |lines| - 1;
      var front, line := lines[..n], lines[n];
      StripAllKeepsWords(front);
      assert StripAll(lines)[..n] == StripAll(front);
      StrippedLine(line, Start);
      TerminatedNoCr(front);
      TerminatedStrippedNoCr(front);
      ReadLine(Terminated(front), line);
      ReadLine(Terminated(StripAll(front)), Strip(line));
      StripKeepsLine(line, After(Terminated(front), Start));
      WidenedAtLineEnd(After(line, After(Terminated(front), Start)));
    }
  }

  lemma WidenedAtLineEnd(g: Gap)
    ensures Widen(g, '\n') in {Start, Line, Para}
  {
  }

  lemma TerminatedStrippedNoCr(lines: seq<string>)
    requires forall i :: 0 <= i < |lines| ==> Squeezed(lines[i]) && '\n' !in lines[i]
    ensures '\r' !in Terminated(StripAll(lines))
  {
    forall i | 0 <= i < |lines|
      ensures '\r' !in StripAll(lines)[i]
    {
      StrippedLine(lines[i], Start);
    }
    TerminatedNoCr(StripAll(lines));
  }

  lemma {:induction false} RenderConcat(a: seq<Word>, b: seq<Word>)
    ensures Render(a + b) == Render(a) + Render(b)
  {
    if a == [] {
      assert a + b == b;
    } else {
      assert (a + b)[1..] == a[1..] + b;
      RenderConcat(a[1..], b);
    }
  }

  /** The blank line that the collapsing may keep in front of the text. */
  function Lead(out: seq<string>): string {
    if out != [] && out[0] == "" then "\n" else ""
  }

  /** What the collapsing loop has produced after a prefix of the lines. */
  ghost predicate Collapsed(lines: seq<string>) {
    var (out, blank) := Collapse(lines);
    var a, ws := After(Terminated(lines), Start), Words(Terminated(lines), Start);
    && Terminated(out) == Lead(out) + Render(ws) + GapText(a)
    && (lines != [] ==> out != [])
    && (if blank then out != [] && (a == Start || a == Para) else a == if lines == [] then Start else Line)
    && (a == Start ==> ws == [] && out == if lines == [] then [] else [""])
  }

  lemma CollapseText(lines: seq<string>, line: string)
    requires line != ""
    ensures Collapse(lines + [line]) == (Collapse(lines).0 + [line], false)
    ensures Lead(Collapse(lines).0 + [line]) == Lead(Collapse(lines).0)
  {
    assert (lines + [line])[..|lines|] == lines;
  }

  lemma TerminatedLast(lines: seq<string>, line: string)
    ensures Terminated(lines + [line]) == Terminated(lines) + line + "\n"
  {
    assert (lines + [line])[..|lines|] == lines;
  }

  /** Reading a line of text after a prefix that has opened gap `a`. */
  lemma TextLineWords(front: string, line: string, a: Gap, ws: seq<Word>)
    requires '\r' !in front && line != "" && '\r' !in line && forall g :: Continues(line, g)
    requires a == After(front, Start) && ws == Words(front, Start)
    ensures Render(Words(front + line + "\n", Start)) == Render(ws) + (GapText(a) + line)
    ensures After(front + line + "\n", Start) == Line
  {
    ReadLine(front, line);
    RenderContinues(line, a);
    RenderConcat(ws, Words(line, a));
    ContinuesClosesTight(line, a);
  }

  lemma CollapseTextLine(lines: seq<string>, line: string)
    requires Collapsed(lines) && '\r' !in Terminated(lines)
    requires line != "" && '\r' !in line && forall g :: Continues(line, g)
    ensures Collapsed(lines + [line])
  {
    var out, front := Collapse(lines).0, Terminated(lines);
    var a, ws := After(front, Start), Words(front, Start);
    CollapseText(lines, line);
    TerminatedLast(lines, line);
    TerminatedLast(out, line);
    TextLineWords(front, line, a, ws);
    Regroup(Lead(out), Render(ws), GapText(a), line);
  }

  lemma Regroup(a: string, b: string, c: string, d: string)
    ensures (a + b + c) + d + "\n" == a + (b + (c + d)) + "\n"
  {
  }

  lemma BlankTail(t: string, lead: string, core: string, a: Gap)
    requires t == lead + core + GapText(a) && (a == Start || a == Line)
    ensures t + "" + "\n" == if a == Start then lead + core + "\n" else lead + core + GapText(Para)
  {
  }

  lemma {:induction false} CollapseBlankLine(lines: seq<string>)
    requires Collapsed(lines) && '\r' !in Terminated(lines)
    ensures Collapsed(lines + [""])
  {
    var next := lines + [""];
    var (out, blank) := Collapse(lines);
    var ws := Words(Terminated(lines), Start);
    var a := After(Terminated(lines), Start);
    assert next[..|next| - 1] == lines;
    assert Terminated(out + [""]) == Terminated(out) + "" + "\n" by {
      assert (out + [""])[..|out|] == out;
    }
    assert Words(Terminated(next), Start) == ws && After(Terminated(next), Start) == Widen(a, '\n') by {
      ReadLine(Terminated(lines), "");
    }
    if !blank {
      BlankTail(Terminated(out), Lead(out), Render(ws), a);
    }
  }

  lemma {:induction false} CollapseInvariant(lines: seq<string>)
    requires forall i :: 0 <= i < |lines| ==> '\r' !in lines[i]
    requires forall i, g :: 0 <= i < |lines| && lines[i] != "" ==> Continues(lines[i], g)
    ensures Collapsed(lines)
  {
    if lines != [] {
      var n := |lines| - 1;
      CollapseInvariant(lines[..n]);
      TerminatedNoCr(lines[..n]);
      assert lines == lines[..n] + [lines[n]];
      if lines[n] != "" {
        CollapseTextLine(lines[..n], lines[n]);
      } else {
        CollapseBlankLine(lines[..n]);
      }
    }
  }

  lemma {:induction false} ContinuesClosesTight(s: string, g: Gap)
    requires Continues(s, g) && s != ""
    ensures After(s, g) == Tight
  {
    var t := s[1..];
    if t == "" {
    } else if !IsSpace(s[0]) {
      ContinuesClosesTight(t, Tight);
    } else {
      ContinuesClosesTight(t, Widen(g, s[0]));
    }
  }

  lemma {:induction false} LimitBreaksChangesNothing(t: string)
    requires forall i :: 0 <= i < |t| - 2 ==> NoTriple(t[i], t[i + 1], t[i + 2])
    ensures LimitBreaks(t) == t
    decreases |t|
  {
    if |t| > 2 {
      assert NoTriple(t[0], t[0 + 1], t[0 + 2]);
    }
    if t == "" {
    } else if t[0] == '\n' && |t| > 1 && t[1] == '\n' {
      forall i | 0 <= i < |t[2..]| - 2
        ensures NoTriple(t[2..][i], t[2..][i + 1], t[2..][i + 2])
      {
        assert NoTriple(t[i + 2], t[i + 2 + 1], t[i + 2 + 2]);
      }
      LimitBreaksChangesNothing(t[2..]);
      assert t == "\n\n" + t[2..];
    } else {
      forall i | 0 <= i < |t[1..]| - 2
        ensures NoTriple(t[1..][i], t[1..][i + 1], t[1..][i + 2])
      {
        assert NoTriple(t[i + 1], t[i + 1 + 1], t[i + 1 + 2]);
      }
      LimitBreaksChangesNothing(t[1..]);
    }
  }

  lemma CancelNewline(a: string, b: string)
    requires a + "\n" == b + "\n"
    ensures a == b
  {
    assert a == (a + "\n")[..|a|] && b == (b + "\n")[..|b|];
    assert |a + "\n"| == |b + "\n"|;
  }

  /** With an open gap of one or two newlines, the joined lines are the text behind its lead, up to one newline. */
  lemma {:induction false} JoinedCollapsed(lines: seq<string>)
    requires Collapsed(lines) && lines != [] && After(Terminated(lines), Start) != Start
    ensures var tail := if After(Terminated(lines), Start) == Para then "\n" else "";
      Join(Collapse(lines).0, "\n") == Lead(Collapse(lines).0) + Render(Words(Terminated(lines), Start)) + tail
  {
    var out, core := Collapse(lines).0, Render(Words(Terminated(lines), Start));
    var tail := if After(Terminated(lines), Start) == Para then "\n" else "";
    TerminatedIsJoin(out);
    CancelNewline(Join(out, "\n"), Lead(out) + core + tail);
  }

  lemma NothingCollapsed(lines: seq<string>)
    requires Collapsed(lines) && lines != [] && After(Terminated(lines), Start) == Start
    ensures Join(Collapse(lines).0, "\n") == "" && Render(Words(Terminated(lines), Start)) == ""
  {
  }

  lemma {:induction false} StripCollapsed(lines: seq<string>)
    requires Collapsed(lines) && lines != []
    requires Trimmed(Render(Words(Terminated(lines), Start)))
    ensures Strip(Join(Collapse(lines).0, "\n")) == Render(Words(Terminated(lines), Start))
  {
    var out, core := Collapse(lines).0, Render(Words(Terminated(lines), Start));
    if After(Terminated(lines), Start) == Start {
      NothingCollapsed(lines);
      StripAround("", core, "");
      assert "" + core + "" == core;
    } else {
      JoinedCollapsed(lines);
      StripAround(Lead(out), core, if After(Terminated(lines), Start) == Para then "\n" else "");
    }
  }

  lemma SplitKeepsWords(s: string)
    requires Squeezed(s)
    ensures Words(Terminated(StripAll(SplitLines(s))), Start) == Words(s, Start)
  {
    var raw := SplitLines(s);
    SplitLinesSqueezed(s);
    JoinSplitLines(s);
    StripAllKeepsWords(raw);
    TerminatedIsJoin(raw);
    WordsConcat(s, "\n", Start);
    var n: string := "\n";
    assert n[1..] == "";
    assert Words(n, After(s, Start)) == [];
  }

  /** The text before the last replacement is already canonical. */
  lemma {:induction false} StrippedJoinIsCanonical(text: string)
    ensures var lines := StripAll(SplitLines(Squeeze(NewlinesOnly(text))));
      Strip(Join(Collapse(lines).0, "\n")) == Canonical(text)
  {
    var s := Squeeze(NewlinesOnly(text));
    var raw := SplitLines(s);
    var lines := StripAll(raw);
    NewlinesKeepWords(text, Start);
    SqueezeKeepsWords(NewlinesOnly(text), Start);
    SqueezeIsSqueezed(NewlinesOnly(text));
    SplitLinesSqueezed(s);
    JoinSplitLines(s);
    forall i | 0 <= i < |lines|
      ensures '\r' !in lines[i]
    {
      StrippedLine(raw[i], Start);
    }
    forall i, g | 0 <= i < |lines| && lines[i] != ""
      ensures Continues(lines[i], g)
    {
      StrippedLine(raw[i], g);
    }
    CollapseInvariant(lines);
    SplitKeepsWords(s);
    CanonicalIsNormal(text);
    StripCollapsed(lines);
  }

  /** The pipeline computes the canonical text, and its last replacement never changes anything. */
  lemma CleanIsCanonical(text: string)
    ensures Clean(text) == Canonical(text)
    ensures var lines := StripAll(SplitLines(Squeeze(NewlinesOnly(text))));
      Clean(text) == Strip(Join(Collapse(lines).0, "\n"))
  {
    StrippedJoinIsCanonical(text);
    CanonicalIsNormal(text);
    LimitBreaksChangesNothing(Canonical(text));
  }

  /** Cleaned texts are exactly the normal ones, so cleaning again changes nothing. */
  lemma {:induction false} CleanFixpoints(text: string)
    ensures NormalText(Clean(text)) && Clean(Clean(text)) == Clean(text)
    ensures Clean(text) == text <==> NormalText(text)
  {
    CleanIsCanonical(text);
    CanonicalIsNormal(text);
    CleanIsCanonical(Clean(text));
    CanonicalFixpoint(Clean(text));
    CanonicalFixpoint(text);
  }

  /** The cleaned text is the one normal text with the same visible characters and gaps. */
  lemma CleanIsUnique(text: string, t: string)
    ensures t == Clean(text) <==> NormalText(t) && Words(t, Start) == Words(text, Start)
  {
    CleanIsCanonical(text);
    CanonicalIsNormal(text);
    CanonicalKeepsWords(text);
    CanonicalFixpoint(t);
  }

  // ----- visible characters -----

  function Chars(ws: seq<Word>): string {
    if ws == [] then "" else [ws[0].c] + Chars(ws[1..])
  }

  lemma {:induction false} WordsAreVisible(s: string, g: Gap)
    ensures Chars(Words(s, g)) == NonSpace(s)
  {
    if s != "" {
      assert s == [s[0]] + s[1..];
      NonSpaceConcat([s[0]], s[1..]);
      assert NonSpace([s[0]]) == if IsSpace(s[0]) then "" else [s[0]] by {
        assert [s[0]][..0] == "";
      }
      if !IsSpace(s[0]) {
        WordsAreVisible(s[1..], Tight);
      } else if HalfOfPair(s) {
        WordsAreVisible(s[1..], g);
      } else {
        WordsAreVisible(s[1..], Widen(g, s[0]));
      }
    }
  }

  /** Cleaning keeps every visible character, in order. */
  lemma CleanKeepsVisible(text: string)
    ensures NonSpace(Clean(text)) == NonSpace(text)
  {
    CleanIsUnique(text, Clean(text));
    WordsAreVisible(text, Start);
    WordsAreVisible(Clean(text), Start);
  }
}
