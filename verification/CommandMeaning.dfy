/** What a shell reads in a text besides blanks and comments, and how chaining treats it. */
module CommandMeaning {

  import opened Lines
  import opened ShellScan
  import opened CommandChain

  /** What stood between a character and the significant one before it. */
  datatype Gap = Joined | Spaced | NewLine

  /** A significant character, whether it is quoted or escaped, and the gap in front of it. */
  datatype Glyph = Glyph(ch: char, literal: bool, gap: Gap)

  predicate Significant(st: Lex, c: char) {
    !st.comment && !(Plain(st) && (IsSpace(c) || (c == '#' && st.wordStart)))
  }

  function Widen(gap: Gap, c: char): Gap {
    if c == '\n' || gap == NewLine then NewLine else Spaced
  }

  /** The significant characters of `s`, read from state `st` after a gap. */
  function Code(st: Lex, gap: Gap, s: string): seq<Glyph>
    decreases |s|
  {
    if s == [] then []
    else if Significant(st, s[0]) then [Glyph(s[0], !Plain(st), gap)] + Code(Step(st, s[0]), Joined, s[1..])
    else Code(Step(st, s[0]), Widen(gap, s[0]), s[1..])
  }

  function GapAfter(st: Lex, gap: Gap, s: string): Gap
    decreases |s|
  {
    if s == [] then gap
    else if Significant(st, s[0]) then GapAfter(Step(st, s[0]), Joined, s[1..])
    else GapAfter(Step(st, s[0]), Widen(gap, s[0]), s[1..])
  }

  lemma {:induction false} CodeConcat(st: Lex, gap: Gap, a: string, b: string)
    ensures Code(st, gap, a + b) == Code(st, gap, a) + Code(Run(st, a), GapAfter(st, gap, a), b)
    decreases |a|
  {
    hide Significant, Step;
    if a == [] {
      assert a + b == b;
    } else {
      var next := if Significant(st, a[0]) then Joined else Widen(gap, a[0]);
      CodeConcat(Step(st, a[0]), next, a[1..], b);
      assert (a + b)[1..] == a[1..] + b;
    }
  }

  lemma CodeOne(st: Lex, gap: Gap, c: char)
    ensures Code(st, gap, [c]) == if Significant(st, c) then [Glyph(c, !Plain(st), gap)] else []
    ensures GapAfter(st, gap, [c]) == if Significant(st, c) then Joined else Widen(gap, c)
    ensures Run(st, [c]) == Step(st, c)
  {
    assert [c][1..] == [];
  }

  lemma CodeCons(st: Lex, gap: Gap, c: char, s: string)
    ensures Code(st, gap, [c] + s)
         == if Significant(st, c) then [Glyph(c, !Plain(st), gap)] + Code(Step(st, c), Joined, s)
            else Code(Step(st, c), Widen(gap, c), s)
  {
    assert ([c] + s)[1..] == s;
  }

  // ----- blanks and comments carry no code

  lemma {:induction false} BlankCode(st: Lex, gap: Gap, w: string)
    requires Plain(st) && Blank(w)
    ensures Code(st, gap, w) == [] && Plain(Run(st, w))
    decreases |w|
  {
    if w != [] {
      assert IsSpace(w[0]);
      BlankCode(Step(st, w[0]), Widen(gap, w[0]), w[1..]);
    }
  }

  lemma {:induction false} CommentCode(st: Lex, gap: Gap, s: string)
    requires st.comment && '\n' !in s
    ensures Code(st, gap, s) == []
    decreases |s|
  {
    if s != [] {
      CommentCode(st, Widen(gap, s[0]), s[1..]);
    }
  }

  /** The rest of a line from a column behind which there are only blanks before the comment. */
  lemma RestOfLineCode(lines: seq<string>, k: nat, a: nat, gap: Gap)
    requires k < |lines| && '\n' !in lines[k]
    requires a <= |BeforeComment(lines, k)| && Blank(BeforeComment(lines, k)[a..]) && Plain(StateAt(lines, k, a))
    ensures Code(StateAt(lines, k, a), gap, lines[k][a..]) == []
    ensures var st := StateAt(lines, k, |lines[k]|); !InQuotes(st) && !st.escaped
  {
    hide Code, Run, GapAfter;
    var line, before := lines[k], BeforeComment(lines, k);
    var w, rest := before[a..], line[|before|..];
    var st := StateAt(lines, k, a);
    CommentAtMeaning(lines, k);
    BlankCode(st, gap, w);
    CodeConcat(st, gap, w, rest);
    assert line[a..] == w + rest;
    assert line[..|before|] == line[..a] + w;
    RunConcat(LineStart(lines, k), line[..a], w);
    assert StateAt(lines, k, |before|) == Run(st, w);
    if rest != "" {
      RestIsComment(Run(st, w), GapAfter(st, gap, w), rest);
      assert line == line[..|before|] + rest && line[..|line|] == line;
      RunConcat(LineStart(lines, k), line[..|before|], rest);
    } else {
      assert |before| == |line|;
    }
  }

  lemma RestIsComment(st: Lex, gap: Gap, rest: string)
    requires rest != "" && IsCommentStart(st, rest[0]) && '\n' !in rest
    ensures Code(st, gap, rest) == [] && Run(st, rest) == COMMENTING
  {
    assert rest == [rest[0]] + rest[1..];
    CodeCons(st, gap, '#', rest[1..]);
    CommentCode(COMMENTING, Widen(gap, '#'), rest[1..]);
    RunConcat(st, [rest[0]], rest[1..]);
    CodeOne(st, gap, '#');
    CommentSwallows(COMMENTING, rest[1..]);
  }

  lemma OpenLineFeed(st: Lex, gap: Gap)
    requires !InQuotes(st) && !st.escaped
    ensures !Significant(st, '\n') && Step(st, '\n') == START
  {
  }

  /** Below the command line nothing is significant. */
  lemma {:induction false} BelowCode(lines: seq<string>, j: nat, st: Lex, gap: Gap)
    requires 0 < j <= |lines| && forall i: nat | i < |lines| :: '\n' !in lines[i]
    requires forall i: nat | j <= i < |lines| :: Blank(BeforeComment(lines, i))
    requires st == StateAt(lines, j - 1, |lines[j - 1]|) && !InQuotes(st) && !st.escaped
    ensures Code(st, gap, After(lines, j, '\n')) == []
    decreases |lines| - j
  {
    if j < |lines| {
      OpenLineFeed(st, gap);
      LineStartStep(lines, j - 1);
      LineAndBelowCode(lines, j, NewLine);
      var rest := lines[j] + After(lines, j + 1, '\n');
      assert After(lines, j, '\n') == ['\n'] + rest;
      CodeCons(st, gap, '\n', rest);
    }
  }

  lemma {:induction false} LineAndBelowCode(lines: seq<string>, j: nat, gap: Gap)
    requires 0 < j < |lines| && forall i: nat | i < |lines| :: '\n' !in lines[i]
    requires forall i: nat | j <= i < |lines| :: Blank(BeforeComment(lines, i))
    requires Plain(LineStart(lines, j))
    ensures Code(LineStart(lines, j), gap, lines[j] + After(lines, j + 1, '\n')) == []
    decreases |lines| - j, 1
  {
    var line := lines[j];
    assert line[..0] == [] && line[0..] == line && line[..|line|] == line;
    assert BeforeComment(lines, j)[0..] == BeforeComment(lines, j);
    RestOfLineCode(lines, j, 0, gap);
    CodeConcat(LineStart(lines, j), gap, line, After(lines, j + 1, '\n'));
    BelowCode(lines, j + 1, StateAt(lines, j, |line|), GapAfter(LineStart(lines, j), gap, line));
  }

  // ----- what a step loses when the operator goes in

  /** The text of the step behind the cut. */
  function Gone(value: string): string {
    var lines, k := Split(value, '\n'), Target(value);
    lines[k][|Kept(value)|..] + After(lines, k + 1, '\n')
  }

  lemma KeptIsPrefix(value: string)
    ensures Kept(value) <= Text(value) <= BeforeComment(Split(value, '\n'), Target(value))
    ensures EndsInComment(value) ==> Blank(BeforeComment(Split(value, '\n'), Target(value))[|Text(value)|..])
    ensures !EndsInComment(value) ==>
              Text(value) == BeforeComment(Split(value, '\n'), Target(value)) == Split(value, '\n')[Target(value)]
  {
  }

  lemma JoinAtColumn(lines: seq<string>, k: nat, d: nat)
    requires k < |lines| && d <= |lines[k]|
    ensures Join(lines, '\n') == (Before(lines, k, '\n') + lines[k][..d]) + (lines[k][d..] + After(lines, k + 1, '\n'))
  {
    JoinAt(lines, k, '\n');
    var before, after, head, tail := Before(lines, k, '\n'), After(lines, k + 1, '\n'), lines[k][..d], lines[k][d..];
    assert lines[k] == head + tail;
    assert before + (head + tail) + after == (before + head) + (tail + after);
  }

  lemma CutAndGone(value: string)
    ensures value == Cut(value) + Gone(value)
  {
    var lines, k, kept := Split(value, '\n'), Target(value), Kept(value);
    KeptIsPrefix(value);
    JoinSplit(value, '\n');
    assert kept == lines[k][..|kept|];
    JoinAtColumn(lines, k, |kept|);
  }

  lemma CutState(value: string)
    ensures |Kept(value)| <= |Split(value, '\n')[Target(value)]|
    ensures Run(START, Cut(value)) == StateAt(Split(value, '\n'), Target(value), |Kept(value)|)
  {
    var lines, k, kept := Split(value, '\n'), Target(value), Kept(value);
    KeptIsPrefix(value);
    assert kept == lines[k][..|kept|];
    RunConcat(START, Before(lines, k, '\n'), kept);
  }

  ghost predicate OnlyQuietBelow(lines: seq<string>, k: nat) {
    && k < |lines|
    && (forall i: nat | i < |lines| :: '\n' !in lines[i])
    && (forall i: nat | k < i < |lines| :: Blank(BeforeComment(lines, i)))
  }

  lemma TargetIsLast(value: string)
    requires HasTarget(value)
    ensures OnlyQuietBelow(Split(value, '\n'), Target(value))
  {
    LinesHaveNoBreak(value);
    OnlyCommentsBelow(value);
  }

  /** From a plain state behind the command text, the rest of the text has no code. */
  lemma BehindCode(lines: seq<string>, k: nat, a: nat, gap: Gap)
    requires OnlyQuietBelow(lines, k) && a <= |BeforeComment(lines, k)|
    requires Blank(BeforeComment(lines, k)[a..]) && Plain(StateAt(lines, k, a))
    ensures Code(StateAt(lines, k, a), gap, lines[k][a..] + After(lines, k + 1, '\n')) == []
  {
    RestOfLineCode(lines, k, a, gap);
    var st, rest := StateAt(lines, k, a), lines[k][a..];
    CodeConcat(st, gap, rest, After(lines, k + 1, '\n'));
    assert lines[k][..|lines[k]|] == lines[k][..a] + rest;
    RunConcat(LineStart(lines, k), lines[k][..a], rest);
    BelowCode(lines, k + 1, StateAt(lines, k, |lines[k]|), GapAfter(st, gap, rest));
  }

  lemma OperatorCode(lines: seq<string>, k: nat, t: nat, op: char, gap: Gap, rest: string)
    requires OperatorAt(lines, k, t, op) && op in ";&" && Code(StateAt(lines, k, t + 1), Joined, rest) == []
    ensures Code(StateAt(lines, k, t), gap, [op] + rest) == [Glyph(op, false, gap)]
  {
    StateAtStep(lines, k, t);
    CodeCons(StateAt(lines, k, t), gap, op, rest);
  }

  /** From a plain state in front of a trailing `;`, that `;` is the only code left. */
  lemma SemicolonCode(lines: seq<string>, k: nat, a: nat, t: nat, gap: Gap)
    requires OnlyQuietBelow(lines, k) && a <= t < |BeforeComment(lines, k)| && OperatorAt(lines, k, t, ';')
    requires Blank(lines[k][a..t]) && Blank(BeforeComment(lines, k)[t + 1..]) && Plain(StateAt(lines, k, a))
    ensures var code := Code(StateAt(lines, k, a), gap, lines[k][a..] + After(lines, k + 1, '\n'));
            |code| == 1 && code[0].ch == ';' && !code[0].literal
  {
    hide Code, Run, CommentColumn;
    var line := lines[k];
    var st, w, rest := StateAt(lines, k, a), line[a..t], line[t + 1..] + After(lines, k + 1, '\n');
    StateAtStep(lines, k, t);
    BehindCode(lines, k, t + 1, Joined);
    BlankCode(st, gap, w);
    assert line[..t] == line[..a] + w;
    RunConcat(LineStart(lines, k), line[..a], w);
    OperatorCode(lines, k, t, ';', GapAfter(st, gap, w), rest);
    assert line[a..] + After(lines, k + 1, '\n') == w + ([';'] + rest);
    CodeConcat(st, gap, w, [';'] + rest);
  }

  /** From a plain state between the cut and the end of the text, only the trailing `;` is left. */
  lemma FromColumnCode(value: string, a: nat, gap: Gap)
    requires HasTarget(value) && |Kept(value)| <= a <= |BeforeComment(Split(value, '\n'), Target(value))|
    requires EndsWith(value, ';') ==> a < |Text(value)|
    requires Plain(StateAt(Split(value, '\n'), Target(value), a))
    ensures var lines, k := Split(value, '\n'), Target(value);
            |Code(StateAt(lines, k, a), gap, lines[k][a..] + After(lines, k + 1, '\n'))| == Dropped(value)
  {
    hide Run, IsSpace, HasTarget, Split, Code, After, BeforeComment, Target, Text, CommentColumn;
    var lines, k, text, kept := Split(value, '\n'), Target(value), Text(value), Kept(value);
    var before := BeforeComment(lines, k);
    TargetIsLast(value);
    KeptIsPrefix(value);
    assert Blank(before[|text|..]);
    if EndsWith(value, ';') {
      assert lines[k][a..|text| - 1] == text[..|text| - 1][|kept|..][a - |kept|..];
      SemicolonCode(lines, k, a, |text| - 1, gap);
    } else {
      assert before[a..] == before[|text|..][a - |text|..];
      BehindCode(lines, k, a, gap);
    }
  }

  /** The number of significant characters that the step loses: its trailing `;`, if it has one. */
  function Dropped(value: string): nat { if EndsWith(value, ';') then 1 else 0 }

  lemma PlainGoneCode(value: string, gap: Gap)
    requires HasTarget(value) && Plain(Run(START, Cut(value)))
    ensures |Code(Run(START, Cut(value)), gap, Gone(value))| == Dropped(value)
  {
    CutState(value);
    KeptIsPrefix(value);
    FromColumnCode(value, |Kept(value)|, gap);
  }

  lemma EscapedStep(st: Lex, gap: Gap, c: char, rest: string)
    requires st.escaped && !InQuotes(st) && !st.comment
    ensures Plain(Step(st, c))
    ensures Code(st, gap, [c] + rest) == [Glyph(c, true, gap)] + Code(Step(st, c), Joined, rest)
  {
    CodeCons(st, gap, c, rest);
  }

  lemma EscapedColumn(value: string)
    requires HasTarget(value) && Run(START, Cut(value)).escaped
    ensures var line, before := Split(value, '\n')[Target(value)], BeforeComment(Split(value, '\n'), Target(value));
            |Kept(value)| < |line| ==>
              |Kept(value)| < |before| && (EndsWith(value, ';') ==> |Kept(value)| + 1 < |Text(value)|)
    ensures var line := Split(value, '\n')[Target(value)]; |Kept(value)| == |line| ==> !EndsWith(value, ';')
  {
    hide Run, Step, IsSpace, HasTarget, CommandLine, Split;
    var lines, k := Split(value, '\n'), Target(value);
    CutState(value);
    KeptIsPrefix(value);
    LinesHaveNoBreak(value);
    CommentAtMeaning(lines, k);
  }

  lemma EscapedColumnCode(lines: seq<string>, k: nat, d: nat, gap: Gap, n: nat)
    requires k < |lines| && d < |lines[k]|
    requires var st := StateAt(lines, k, d); st.escaped && !InQuotes(st) && !st.comment
    requires |Code(StateAt(lines, k, d + 1), Joined, lines[k][d + 1..] + After(lines, k + 1, '\n'))| == n
    ensures var code := Code(StateAt(lines, k, d), gap, lines[k][d..] + After(lines, k + 1, '\n'));
            |code| == 1 + n && code[0] == Glyph(lines[k][d], true, gap)
  {
    var c, rest := lines[k][d], lines[k][d + 1..] + After(lines, k + 1, '\n');
    StateAtStep(lines, k, d);
    EscapedStep(StateAt(lines, k, d), gap, c, rest);
    assert lines[k][d..] + After(lines, k + 1, '\n') == [c] + rest;
  }

  lemma EscapedOnLine(value: string, gap: Gap)
    requires HasTarget(value) && !InQuotes(Run(START, value)) && Run(START, Cut(value)).escaped
    requires |Kept(value)| < |Split(value, '\n')[Target(value)]|
    ensures var code := Code(Run(START, Cut(value)), gap, Gone(value));
            Gone(value) != "" && |code| == 1 + Dropped(value) && code[0] == Glyph(Gone(value)[0], true, gap)
  {
    hide Run, IsSpace, HasTarget, CommandLine, Split, Kept, Text, After, StateAt, Code, Cut, Target;
    var lines, k, d := Split(value, '\n'), Target(value), |Kept(value)|;
    CutState(value);
    CutEndsOpen(value);
    EscapedColumn(value);
    StateAtStep(lines, k, d);
    assert Plain(StateAt(lines, k, d + 1));
    FromColumnCode(value, d + 1, Joined);
    EscapedColumnCode(lines, k, d, gap, Dropped(value));
  }

  lemma EscapedLineFeed(lines: seq<string>, k: nat, gap: Gap)
    requires OnlyQuietBelow(lines, k) && k + 1 < |lines|
    requires var st := StateAt(lines, k, |lines[k]|); st.escaped && !InQuotes(st) && !st.comment
    ensures Code(StateAt(lines, k, |lines[k]|), gap, After(lines, k + 1, '\n')) == [Glyph('\n', true, gap)]
    ensures After(lines, k + 1, '\n')[0] == '\n'
  {
    var rest := lines[k + 1] + After(lines, k + 2, '\n');
    LineStartStep(lines, k);
    EscapedStep(StateAt(lines, k, |lines[k]|), gap, '\n', rest);
    LineAndBelowCode(lines, k + 1, Joined);
    assert After(lines, k + 1, '\n') == ['\n'] + rest;
  }

  /** After a pending backslash the next character is literal, and only the `;` can follow it. */
  lemma EscapedGoneCode(value: string, gap: Gap)
    requires HasTarget(value) && !InQuotes(Run(START, value)) && Run(START, Cut(value)).escaped
    ensures var code := Code(Run(START, Cut(value)), gap, Gone(value));
            if Gone(value) == "" then code == [] && Dropped(value) == 0
            else |code| == 1 + Dropped(value) && code[0] == Glyph(Gone(value)[0], true, gap)
  {
    hide Run, Step, IsSpace, HasTarget, CommandLine, Split, Kept, StateAt;
    var lines, k, d := Split(value, '\n'), Target(value), |Kept(value)|;
    CutState(value);
    if d < |lines[k]| {
      EscapedOnLine(value, gap);
    } else {
      CutEndsOpen(value);
      EscapedColumn(value);
      assert Gone(value) == After(lines, k + 1, '\n');
      if k + 1 < |lines| {
        TargetIsLast(value);
        EscapedLineFeed(lines, k, gap);
      }
    }
  }

  /** The character that is dropped is a plain `;`, and the last one that the step says. */
  lemma DroppedIsSemicolon(value: string, gap: Gap)
    requires HasTarget(value) && EndsWith(value, ';')
    ensures var code := Code(START, gap, value);
            code != [] && code[|code| - 1].ch == ';' && !code[|code| - 1].literal
  {
    hide Run, Step, IsSpace, HasTarget, CommandLine, Split, Code, After;
    var lines, k, t := Split(value, '\n'), Target(value), |Text(value)| - 1;
    var head, tail := Before(lines, k, '\n') + lines[k][..t], lines[k][t..] + After(lines, k + 1, '\n');
    TargetIsLast(value);
    KeptIsPrefix(value);
    JoinSplit(value, '\n');
    JoinAtColumn(lines, k, t);
    RunConcat(START, Before(lines, k, '\n'), lines[k][..t]);
    CodeConcat(START, gap, head, tail);
    assert lines[k][t..t] == "" && Blank(BeforeComment(lines, k)[|Text(value)|..]);
    SemicolonCode(lines, k, t, t, GapAfter(START, gap, head));
  }

  // ----- the theorem

  /** The code of the step without its trailing `;`. */
  function Body(value: string, gap: Gap): seq<Glyph> {
    var code := Code(START, gap, value);
    if Dropped(value) <= |code| then code[..|code| - Dropped(value)] else code
  }

  function AndGlyphs(background: bool, gap: Gap): seq<Glyph> {
    if background then [Glyph(':', false, gap), Glyph('&', false, Spaced), Glyph('&', false, Joined)]
    else [Glyph('&', false, gap), Glyph('&', false, Joined)]
  }

  /** The separated step reads as the step's own code followed by `&&`, and nothing else. */
  ghost predicate MeaningKept(value: string, gap: Gap) {
    exists g :: Code(START, gap, Separated(value)) == Body(value, gap) + AndGlyphs(EndsWith(value, '&'), g)
  }

  /** The cut does not leave a backslash in front of the operator, unless it already escaped a plain space. */
  predicate CleanCut(value: string) {
    Run(START, Cut(value)).escaped ==> Gone(value) != "" && Gone(value)[0] == ' '
  }

  lemma GlueCode(st: Lex, gap: Gap)
    requires !InQuotes(st) && !st.comment
    ensures Plain(st) ==> Code(st, gap, " &&") == AndGlyphs(false, Widen(gap, ' '))
                          && Code(st, gap, " : &&") == AndGlyphs(true, Widen(gap, ' '))
    ensures st.escaped ==> Code(st, gap, " &&") == [Glyph(' ', true, gap)] + AndGlyphs(false, Joined)
  {
    hide Code;
    var a := Step(st, ' ');
    assert " &&" == [' '] + "&&" && "&&" == ['&'] + "&" && " : &&" == [' '] + ": &&" && ": &&" == [':'] + " &&";
    CodeCons(st, gap, ' ', "&&");
    CodeCons(st, gap, ' ', ": &&");
    var g := if st.escaped then Joined else Widen(gap, ' ');
    AndCode(a, g);
    if Plain(st) {
      CodeCons(a, g, ':', " &&");
      var b := Step(a, ':');
      CodeCons(b, Joined, ' ', "&&");
      AndCode(Step(b, ' '), Spaced);
    }
  }

  lemma AndCode(st: Lex, gap: Gap)
    requires Plain(st)
    ensures Code(st, gap, "&&") == AndGlyphs(false, gap)
  {
    assert "&&" == ['&'] + "&";
    CodeCons(st, gap, '&', "&");
    CodeOne(Step(st, '&'), Joined, '&');
  }

  lemma {:induction false} TailCode(value: string, gap: Gap)
    requires HasTarget(value)
    ensures Code(START, gap, Tail(value)) == []
  {
    hide Run, HasTarget, Target, CommentText, After, Code;
    var lines, k := Split(value, '\n'), Target(value);
    if EndsInComment(value) {
      LinesHaveNoBreak(value);
      OnlyCommentsBelow(value);
      var comment, after := CommentText(lines, k), After(lines, k + 1, '\n') + "\n";
      CommentTextCode(lines, k, gap);
      CommentTextRuns(lines, k);
      assert Tail(value) == comment + after;
      CodeConcat(START, gap, comment, after);
      QuietAfterCode(lines, k + 1, Run(START, comment), GapAfter(START, gap, comment));
    } else {
      CodeOne(START, gap, ' ');
    }
  }

  lemma QuietLineCode(blank: string, rest: string, gap: Gap)
    requires Blank(blank) && '\n' !in rest && (rest == "" || rest[0] == '#')
    ensures Code(START, gap, blank + rest) == []
  {
    BlankCode(START, gap, blank);
    CodeConcat(START, gap, blank, rest);
    BlankKeepsModes(START, blank);
    if rest != "" {
      RestIsComment(START, GapAfter(START, gap, blank), rest);
    }
  }

  lemma CommentTextCode(lines: seq<string>, k: nat, gap: Gap)
    requires k < |lines| && '\n' !in lines[k]
    ensures Code(START, gap, CommentText(lines, k)) == []
  {
    CommentAtMeaning(lines, k);
    match CommentAt(lines, k)
    case NoComment =>
    case CommentFrom(c) => QuietLineCode(" ", lines[k][c..], gap);
  }

  lemma NextLineCode(st: Lex, gap: Gap, line: string, further: string)
    requires !InQuotes(st) && !st.escaped
    requires Code(START, NewLine, line) == [] && Code(Run(START, line), GapAfter(START, NewLine, line), further) == []
    ensures Code(st, gap, ['\n'] + (line + further)) == []
  {
    CodeCons(st, gap, '\n', line + further);
    CodeConcat(START, NewLine, line, further);
  }

  lemma QuietAt(lines: seq<string>, j: nat)
    requires j < |lines| && '\n' !in lines[j] && Blank(BeforeComment(lines, j))
    ensures Code(START, NewLine, lines[j]) == [] && Run(START, lines[j]) in {START, COMMENTING}
  {
    CommentAtMeaning(lines, j);
    var blank := BeforeComment(lines, j);
    var rest := lines[j][|blank|..];
    assert lines[j] == blank + rest;
    QuietLine(blank, rest);
    QuietLineCode(blank, rest, NewLine);
  }

  lemma {:induction false} QuietAfterCode(lines: seq<string>, j: nat, st: Lex, gap: Gap)
    requires j <= |lines| && (st == START || st == COMMENTING)
    requires forall i: nat | i < |lines| :: '\n' !in lines[i]
    requires forall i: nat | j <= i < |lines| :: Blank(BeforeComment(lines, i))
    ensures Code(st, gap, After(lines, j, '\n') + "\n") == []
    decreases |lines| - j
  {
    hide Blank, BeforeComment, Code;
    if j == |lines| {
      assert After(lines, j, '\n') + "\n" == "\n";
      CodeOne(st, gap, '\n');
    } else {
      QuietAt(lines, j);
      var further := After(lines, j + 1, '\n') + "\n";
      QuietAfterCode(lines, j + 1, Run(START, lines[j]), GapAfter(START, NewLine, lines[j]));
      NextLineCode(st, gap, lines[j], further);
      assert After(lines, j, '\n') + "\n" == ['\n'] + (lines[j] + further);
    }
  }

  lemma SeparatedCode(value: string, gap: Gap)
    requires HasTarget(value) && !InQuotes(Run(START, value))
    ensures Code(START, gap, Separated(value))
         == Code(START, gap, Cut(value)) + Code(Run(START, Cut(value)), GapAfter(START, gap, Cut(value)), Glue(value))
  {
    var cut, glue, tail := Cut(value), Glue(value), Tail(value);
    SeparatedShape(value);
    GlueFromCut(value);
    CodeConcat(START, gap, cut + glue, tail);
    TailCode(value, GapAfter(START, gap, cut + glue));
    CodeConcat(START, gap, cut, glue);
  }

  lemma EscapedGap(gap: Gap, s: string)
    requires Run(START, s).escaped
    ensures GapAfter(START, gap, s) == Joined
  {
    var init, c := s[..|s| - 1], s[|s| - 1];
    assert s == init + [c];
    GapConcat(START, gap, init, [c]);
    RunSnoc(START, init, c);
    NeverBoth(init);
    NeverBoth(s);
    CodeOne(Run(START, init), GapAfter(START, gap, init), c);
  }

  lemma {:induction false} GapConcat(st: Lex, gap: Gap, a: string, b: string)
    ensures GapAfter(st, gap, a + b) == GapAfter(Run(st, a), GapAfter(st, gap, a), b)
    decreases |a|
  {
    if a == [] {
      assert a + b == b;
    } else {
      var next := if Significant(st, a[0]) then Joined else Widen(gap, a[0]);
      GapConcat(Step(st, a[0]), next, a[1..], b);
      assert (a + b)[1..] == a[1..] + b;
    }
  }

  /**
    A step that ends outside quotes keeps its meaning next to the inserted `&&` exactly when the cut does
    not leave a dangling backslash: a backslash that ends the command text would escape the blank in front
    of the operator.
   */
  lemma SeparatorKeepsMeaning(value: string, gap: Gap)
    requires HasTarget(value) && !InQuotes(Run(START, value))
    ensures MeaningKept(value, gap) <==> CleanCut(value)
  {
    hide Run, Step, IsSpace, HasTarget, Split, Cut, Separated, Code, InQuotes, Gone, GapAfter, EndsWith;
    var cut, gone := Cut(value), Gone(value);
    var st, at, code := Run(START, cut), GapAfter(START, gap, cut), Code(START, gap, cut);
    SeparatedCode(value, gap);
    CutEndsOpen(value);
    CutAndGone(value);
    CodeConcat(START, gap, cut, gone);
    GlueCode(st, at);
    var background := EndsWith(value, '&');
    if !st.escaped {
      PlainGoneCode(value, at);
      assert Body(value, gap) == code;
      assert Code(START, gap, Separated(value)) == Body(value, gap) + AndGlyphs(background, Widen(at, ' '));
    } else {
      EscapedGap(gap, cut);
      EscapedGoneCode(value, at);
      if background { AmpersandIsOpen(value); }
      var body := if gone == "" then code else code + [Glyph(gone[0], true, Joined)];
      assert Body(value, gap) == body;
      EscapedMeaning(code, gone, Body(value, gap), Code(START, gap, Separated(value)));
    }
  }

  lemma EscapedMeaning(code: seq<Glyph>, gone: string, body: seq<Glyph>, all: seq<Glyph>)
    requires body == if gone == "" then code else code + [Glyph(gone[0], true, Joined)]
    requires all == code + ([Glyph(' ', true, Joined)] + AndGlyphs(false, Joined))
    ensures (exists g :: all == body + AndGlyphs(false, g)) <==> gone != "" && gone[0] == ' '
  {
    if gone != "" && gone[0] == ' ' {
      assert all == body + AndGlyphs(false, Joined);
    }
    forall g | all == body + AndGlyphs(false, g) ensures gone != "" && gone[0] == ' ' {
      assert |all| == |code| + 3 && |body| == |code| + 1;
      assert all[|code|] == Glyph(' ', true, Joined) == body[|code|];
    }
  }

  // ----- the whole chain

  lemma ConcatSnoc(texts: seq<string>, z: string)
    ensures Concat(texts + [z]) == Concat(texts) + z
  {
    assert (texts + [z])[..|texts|] == texts;
  }

  lemma {:induction false} ConcatCons(a: string, texts: seq<string>)
    ensures Concat([a] + texts) == a + Concat(texts)
    decreases |texts|
  {
    if texts == [] {
      ConcatSnoc([], a);
      assert [a] + texts == [] + [a];
      assert "" + a == a + "";
    } else {
      var init, z := texts[..|texts| - 1], texts[|texts| - 1];
      ConcatCons(a, init);
      ConcatSnoc([a] + init, z);
      ConcatSnoc(init, z);
      assert [a] + texts == ([a] + init) + [z] && texts == init + [z];
      assert (a + Concat(init)) + z == a + (Concat(init) + z);
    }
  }

  lemma SeparatedStepsCons(parts: seq<string>)
    requires parts != []
    ensures SeparatedSteps(parts) == [Separated(parts[0])] + SeparatedSteps(parts[1..])
  {
    hide Separated;
    var a, b := SeparatedSteps(parts), [Separated(parts[0])] + SeparatedSteps(parts[1..]);
    assert |a| == |b|;
    forall i | 0 < i < |a| ensures a[i] == b[i] { assert parts[i] == parts[1..][i - 1]; }
  }

  lemma ChainCons(parts: seq<string>)
    requires |parts| > 1
    ensures Chain(parts) == Separated(parts[0]) + Chain(parts[1..])
  {
    hide Separated;
    var n := |parts| - 1;
    var init := parts[..n];
    var rest := SeparatedSteps(init[1..]);
    SeparatedStepsCons(init);
    ConcatCons(Separated(parts[0]), rest);
    assert init[1..] == parts[1..][..n - 1];
    assert Separated(parts[0]) + Concat(rest) + parts[n] == Separated(parts[0]) + (Concat(rest) + parts[n]);
  }

  /** `glyphs` is what the steps say one after the other, with `&&` between them. */
  ghost predicate Means(parts: seq<string>, gap: Gap, glyphs: seq<Glyph>)
    requires |parts| > 0
    decreases |parts|
  {
    if |parts| == 1 then glyphs == Code(START, gap, parts[0])
    else exists g, next, rest {:trigger Means(parts[1..], next, rest), AndGlyphs(EndsWith(parts[0], '&'), g)} ::
      && glyphs == Body(parts[0], gap) + AndGlyphs(EndsWith(parts[0], '&'), g) + rest
      && Means(parts[1..], next, rest)
  }

  lemma StepThenRest(step: string, gap: Gap, rest: string)
    requires HasTarget(step) && !InQuotes(Run(START, step)) && CleanCut(step)
    ensures MeaningKept(step, gap)
    ensures Code(START, gap, Separated(step) + rest)
         == Code(START, gap, Separated(step)) + Code(START, GapAfter(START, gap, Separated(step)), rest)
  {
    SeparatorReturnsToStart(step);
    SeparatorKeepsMeaning(step, gap);
    CodeConcat(START, gap, Separated(step), rest);
  }

  ghost predicate AllCleanCuts(parts: seq<string>) {
    forall i: nat | i + 1 < |parts| :: CleanCut(parts[i])
  }

  ghost predicate Faithful(parts: seq<string>) {
    Chainable(parts) && NoEarlierStepEndsInQuotes(parts) && AllCleanCuts(parts)
  }

  lemma FaithfulTail(parts: seq<string>)
    requires Faithful(parts) && |parts| > 1
    ensures HasTarget(parts[0]) && !InQuotes(Run(START, parts[0])) && CleanCut(parts[0])
    ensures Faithful(parts[1..])
  {
    assert forall i | 0 <= i < |parts| - 1 :: parts[1..][i] == parts[i + 1];
  }

  lemma FirstStep(parts: seq<string>, gap: Gap)
    requires Faithful(parts) && |parts| > 1
    ensures MeaningKept(parts[0], gap)
    ensures Code(START, gap, Chain(parts))
         == Code(START, gap, Separated(parts[0]))
           + Code(START, GapAfter(START, gap, Separated(parts[0])), Chain(parts[1..]))
  {
    FaithfulTail(parts);
    ChainCons(parts);
    StepThenRest(parts[0], gap, Chain(parts[1..]));
  }

  /** The joined command says exactly what its steps say, in order, with `&&` between them. */
  lemma {:induction false} ChainKeepsMeaning(parts: seq<string>, gap: Gap)
    requires Faithful(parts)
    ensures Means(parts, gap, Code(START, gap, Chain(parts)))
    decreases |parts|
  {
    if |parts| == 1 {
      assert Concat([]) == "";
      assert Chain(parts) == parts[0];
    } else {
      var next := GapAfter(START, gap, Separated(parts[0]));
      FaithfulTail(parts);
      FirstStep(parts, gap);
      ChainKeepsMeaning(parts[1..], next);
      MeansCons(parts, gap, next, Code(START, next, Chain(parts[1..])));
    }
  }

  lemma MeansCons(parts: seq<string>, gap: Gap, next: Gap, rest: seq<Glyph>)
    requires |parts| > 1 && MeaningKept(parts[0], gap) && Means(parts[1..], next, rest)
    ensures Means(parts, gap, Code(START, gap, Separated(parts[0])) + rest)
  {
    var g :| Code(START, gap, Separated(parts[0])) == Body(parts[0], gap) + AndGlyphs(EndsWith(parts[0], '&'), g);
    assert Means(parts[1..], next, rest);
  }

  lemma OneLineStep(value: string)
    requires '\n' !in value && value != "" && !InQuotes(Run(START, value)) && Run(START, value).escaped
    ensures HasTarget(value) && Cut(value) == value && Gone(value) == ""
  {
    hide Run, IsSpace, HasTarget, Target, Text, Split, StateAt;
    NeverBoth(value);
    OneLineTarget(value);
    StateAtStep([value], 0, |value| - 1);
    assert value[..|value|] == value;
    assert Kept(value) == value;
  }

  /** A step that ends in a backslash: the operator's blank becomes one more literal character. */
  lemma DanglingBackslash(gap: Gap)
    ensures HasTarget("ls \\") && !InQuotes(Run(START, "ls \\")) && !MeaningKept("ls \\", gap)
  {
    hide Run, Step, MeaningKept, HasTarget, Split, Kept, Target;
    ScanBackslash();
    OneLineStep("ls \\");
    SeparatorKeepsMeaning("ls \\", gap);
  }

  lemma ScanBackslash()
    ensures Run(START, "ls \\").escaped && !InQuotes(Run(START, "ls \\"))
  {
    hide Run;
    RunOne(START, 'l');
    RunSnoc(START, "l", 's');
    RunSnoc(START, "ls", ' ');
    RunSnoc(START, "ls ", '\\');
    assert "l" + ['s'] == "ls" && "ls" + [' '] == "ls " && "ls " + ['\\'] == "ls \\";
  }

  // ----- an inserted `&&` behind an operator that already ended the command

  predicate IsTerminator(g: Glyph) { !g.literal && (g.ch == ';' || g.ch == '&') }

  /** The significant character in front of the inserted `&&` is a plain `;` or `&`, which a shell does not accept. */
  predicate AndFollowsOperator(value: string, gap: Gap) {
    var code := Code(START, gap, Separated(value));
    |code| >= 3 && IsTerminator(code[|code| - 3])
  }

  /**
    The last character of the kept line that is not a blank is such an operator, and it is not the ampersand
    handled apart.
   */
  predicate LeavesOperator(value: string) {
    var lines, k, last := Split(value, '\n'), Target(value), |TrimRight(Kept(value))| - 1;
    !EndsWith(value, '&') && (OperatorAt(lines, k, last, ';') || OperatorAt(lines, k, last, '&'))
  }

  lemma CodeSnoc(gap: Gap, s: string, c: char)
    ensures Code(START, gap, s + [c]) == Code(START, gap, s) +
              if Significant(Run(START, s), c) then [Glyph(c, !Plain(Run(START, s)), GapAfter(START, gap, s))] else []
  {
    CodeConcat(START, gap, s, [c]);
    CodeOne(Run(START, s), GapAfter(START, gap, s), c);
  }

  /** The last significant character of a text that ends outside quotes and comments, blanks aside. */
  lemma LastGlyph(pre: string, c: char, blanks: string, gap: Gap)
    requires !IsSpace(c) && c != '\n' && Blank(blanks) && '\n' !in blanks
    requires var end := Run(START, pre + [c] + blanks); !InQuotes(end) && !end.comment
    ensures var code, st := Code(START, gap, pre + [c] + blanks), Run(START, pre);
            && code != []
            && if Run(START, pre + [c]).escaped && blanks != "" then code[|code| - 1].literal
               else code[|code| - 1].ch == c && code[|code| - 1].literal == !Plain(st)
  {
    var st := Run(START, pre);
    var after := Step(st, c);
    RunSnoc(START, pre, c);
    RunConcat(START, pre + [c], blanks);
    BlankKeepsModes(after, blanks);
    CodeSnoc(gap, pre, c);
    CodeConcat(START, gap, pre + [c], blanks);
    hide Run, Code;
    assert Significant(st, c);
    var at := GapAfter(START, gap, pre + [c]);
    if after.escaped && blanks != "" { EscapedBlanks(after, at, blanks); }
    else if blanks == "" { EmptyCode(after, at); }
    else { BlankCode(after, at, blanks); }
  }

  lemma EmptyCode(st: Lex, gap: Gap)
    ensures Code(st, gap, "") == []
  {
  }

  lemma EscapedBlanks(st: Lex, gap: Gap, blanks: string)
    requires st.escaped && !InQuotes(st) && !st.comment && Blank(blanks) && blanks != ""
    ensures var code := Code(st, gap, blanks); code != [] && code[|code| - 1].literal
  {
    EscapedStep(st, gap, blanks[0], blanks[1..]);
    assert blanks == [blanks[0]] + blanks[1..];
    BlankCode(Step(st, blanks[0]), Joined, blanks[1..]);
  }

  lemma KeptSplits(value: string)
    requires TrimRight(Kept(value)) != ""
    ensures var lines, k, kept := Split(value, '\n'), Target(value), Kept(value);
            var t := |TrimRight(kept)|;
            var pre, c, blanks := Before(lines, k, '\n') + kept[..t - 1], kept[t - 1], kept[t..];
            && |kept| <= |lines[k]| && kept == lines[k][..|kept|] && Cut(value) == pre + [c] + blanks
            && !IsSpace(c) && Blank(blanks) && c != '\n' && '\n' !in blanks && c == lines[k][t - 1]
            && Run(START, pre) == StateAt(lines, k, t - 1)
  {
    hide TrimRight, Split;
    var lines, k, kept := Split(value, '\n'), Target(value), Kept(value);
    KeptIsPrefix(value);
    hide Kept, Run, Step, Text;
    SplitHasNoSep(value, '\n', k);
    var t := |TrimRight(kept)|;
    assert kept == lines[k][..|kept|];
    assert kept == kept[..t - 1] + [kept[t - 1]] + kept[t..];
    assert Before(lines, k, '\n') + kept == Before(lines, k, '\n') + kept[..t - 1] + [kept[t - 1]] + kept[t..];
    assert kept[..t - 1] == lines[k][..t - 1];
    RunConcat(START, Before(lines, k, '\n'), kept[..t - 1]);
  }

  lemma {:induction false} BlanksDoNotEscape(st: Lex, w: string)
    requires Blank(w) && !st.escaped
    ensures !Run(st, w).escaped
    decreases |w|
  {
    if w != [] {
      assert IsSpace(w[0]);
      BlanksDoNotEscape(Step(st, w[0]), w[1..]);
    }
  }

  /** Whether the text ends, blanks aside, in an operator that ends a command. */
  lemma EndsInOperator(pre: string, c: char, blanks: string, gap: Gap)
    requires !IsSpace(c) && c != '\n' && Blank(blanks) && '\n' !in blanks
    requires var end := Run(START, pre + [c] + blanks); !InQuotes(end) && !end.comment
    ensures var code := Code(START, gap, pre + [c] + blanks);
            code != [] && (IsTerminator(code[|code| - 1]) <==> Plain(Run(START, pre)) && (c == ';' || c == '&'))
    ensures Run(START, pre + [c] + blanks).escaped ==> c == '\\'
  {
    LastGlyph(pre, c, blanks, gap);
    RunSnoc(START, pre, c);
    RunConcat(START, pre + [c], blanks);
    var after := Step(Run(START, pre), c);
    BlankKeepsModes(after, blanks);
    if !after.escaped { BlanksDoNotEscape(after, blanks); }
    hide Run, Code;
  }

  /** The glyph in front of the inserted `&&`. */
  lemma BeforeAnd(value: string, gap: Gap)
    requires HasTarget(value) && !InQuotes(Run(START, value)) && Code(START, gap, Cut(value)) != []
    ensures var cut, code := Code(START, gap, Cut(value)), Code(START, gap, Separated(value));
            && |code| >= 3
            && (EndsWith(value, '&') ==> code[|code| - 3].ch == ':')
            && (!EndsWith(value, '&') && Run(START, Cut(value)).escaped ==> code[|code| - 3].literal)
            && (!EndsWith(value, '&') && !Run(START, Cut(value)).escaped ==> code[|code| - 3] == cut[|cut| - 1])
  {
    hide Run, Step, Code, Cut, Separated, EndsWith, IsSpace, HasTarget;
    CutEndsOpen(value);
    SeparatedCode(value, gap);
    GlueCode(Run(START, Cut(value)), GapAfter(START, gap, Cut(value)));
    if EndsWith(value, '&') { AmpersandIsOpen(value); }
  }

  /**
    For every step that ends outside quotes and whose cut line is not blank: the inserted `&&` follows a `;`
    or `&` operator if and only if the kept line ends, but for blanks, in one. A `;` is only dropped when it
    is the very last character, so a blank behind it, or a second one before it, is enough.
   */
  lemma AndFollowsOperatorIff(value: string, gap: Gap)
    requires HasTarget(value) && !InQuotes(Run(START, value)) && TrimRight(Kept(value)) != ""
    ensures AndFollowsOperator(value, gap) <==> LeavesOperator(value)
  {
    hide Run, Step, Code, Cut, Separated, Kept, EndsWith, IsSpace, HasTarget, StateAt, TrimRight, Split, Target, Before;
    var lines, k, kept := Split(value, '\n'), Target(value), Kept(value);
    var t := |TrimRight(kept)|;
    KeptSplits(value);
    CutEndsOpen(value);
    EndsInOperator(Before(lines, k, '\n') + kept[..t - 1], kept[t - 1], kept[t..], gap);
    BeforeAnd(value, gap);
  }

  /** A step of one line that does not end in a comment gets its operator at the end of that line. */
  lemma OneLineTarget(value: string)
    requires '\n' !in value && !Run(START, value).comment
    ensures Split(value, '\n') == [value] && HasTarget(value) && Target(value) == 0 && Text(value) == value
    ensures forall c: nat | c <= |value| :: StateAt([value], 0, c) == Run(START, value[..c])
  {
    hide Run, Step, CommandLine, IsSpace;
    var lines := [value];
    SplitWhole(value, '\n');
    WholeScan(value);
    CommentAtMeaning(lines, 0);
    LineStartZero(lines);
  }

  lemma LineStartZero(lines: seq<string>)
    ensures LineStart(lines, 0) == START
  {
  }

  /** What the scanner makes of `a; `. */
  lemma ScanExample()
    ensures Plain(Run(START, "a")) && Run(START, "a; ") == START
  {
    hide Run;
    RunOne(START, 'a');
    RunSnoc(START, "a", ';');
    RunSnoc(START, "a;", ' ');
    assert "a" + [';'] == "a;" && "a;" + [' '] == "a; ";
  }

  lemma TrimExample()
    ensures TrimRight("a; ") == "a;"
  {
    assert "a; "[..2] == "a;";
    assert TrimRight("a;") == "a;";
  }

  /** A blank behind the last `;` of a step, for example. */
  lemma BlankBehindSemicolon(gap: Gap)
    ensures AndFollowsOperator("a; ", gap)
  {
    hide Run, Split, HasTarget, Target, Text, StateAt, TrimRight, AndFollowsOperator, Step, IsSpace;
    var value := "a; ";
    ScanExample();
    TrimExample();
    OneLineTarget(value);
    assert value[..1] == "a";
    assert Kept(value) == value && LeavesOperator(value);
    AndFollowsOperatorIff(value, gap);
  }
}
