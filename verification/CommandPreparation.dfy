/** What preparing a step for chaining does to its meaning, and what the joined command of raw steps says. */
module CommandPreparation {

  import opened Lines
  import opened ShellScan
  import opened CommandChain
  import opened CommandMeaning

  // ----- the text that preparation keeps

  function FirstBreak(s: string): (n: nat)
    ensures n <= |s| && '\n' !in s[..n] && (n < |s| ==> s[n] == '\n')
  {
    if s == "" || s[0] == '\n' then 0 else 1 + FirstBreak(s[1..])
  }

  /** The text up to the first line break behind its last character that is not a blank. */
  function LastText(value: string): (text: string)
    ensures text <= value && Blank(value[|text|..])
  {
    var t := |TrimRight(value)|;
    var n := t + FirstBreak(value[t..]);
    assert forall i | n <= i < |value| :: value[i] == value[t..][i - t];
    value[..n]
  }

  lemma TrimRightIs(s: string, t: string)
    requires t <= s && Blank(s[|t|..]) && (t != "" ==> !IsSpace(t[|t| - 1]))
    ensures TrimRight(s) == t
  {
    var u := TrimRight(s);
    forall i | |u| <= i < |s| ensures IsSpace(s[i]) { assert s[i] == s[|u|..][i - |u|]; }
    forall i | |t| <= i < |s| ensures IsSpace(s[i]) { assert s[i] == s[|t|..][i - |t|]; }
    assert t == s[..|t|];
  }

  lemma FirstBreakIs(s: string, n: nat)
    requires n <= |s| && '\n' !in s[..n] && (n < |s| ==> s[n] == '\n')
    ensures FirstBreak(s) == n
  {
    var m := FirstBreak(s);
    forall i | 0 <= i < n ensures s[i] != '\n' { assert s[i] == s[..n][i]; }
    forall i | 0 <= i < m ensures s[i] != '\n' { assert s[i] == s[..m][i]; }
  }

  /** That text is a text whose last line is not blank, followed by nothing or by blank lines. */
  lemma LastTextIs(before: string, line: string, tail: string)
    requires !Blank(line) && '\n' !in line && Blank(tail) && (tail != "" ==> tail[0] == '\n')
    ensures LastText(before + line + tail) == before + line
  {
    hide IsSpace, TrimRight;
    var value, text := before + line + tail, TrimRight(line);
    var head, blanks := before + text, line[|text|..];
    assert line == text + blanks && value == head + (blanks + tail);
    assert Blank(blanks + tail);
    assert value[|head|..] == blanks + tail;
    assert text != "" by { assert line[0..] == line; }
    TrimRightIs(value, head);
    assert (blanks + tail)[..|blanks|] == blanks;
    FirstBreakIs(blanks + tail, |blanks|);
    assert value[..|head| + |blanks|] == before + line;
  }

  // ----- the lines that preparation drops

  lemma {:induction false} DroppedAreBlank(lines: seq<string>)
    ensures var kept := DropBlankTail(lines);
            && kept <= lines && (forall i | |kept| <= i < |lines| :: Blank(lines[i]))
            && (kept != [] ==> !Blank(kept[|kept| - 1]))
  {
    if lines != [] && Blank(lines[|lines| - 1]) {
      var init := lines[..|lines| - 1];
      DroppedAreBlank(init);
      assert forall i | 0 <= i < |init| :: init[i] == lines[i];
    }
  }

  lemma BlankHoldsNothing(line: string)
    ensures Blank(line) ==> !HoldsCommand(line)
  {
    var text := TrimLeft(line);
    if text != "" { assert text[0] == line[|line| - |text|]; }
  }

  lemma {:induction false} AfterBlank(lines: seq<string>, k: nat)
    requires forall i | k <= i < |lines| :: Blank(lines[i])
    ensures Blank(After(lines, k, '\n')) && (After(lines, k, '\n') != "" ==> After(lines, k, '\n')[0] == '\n')
    decreases |lines| - k
  {
    if k < |lines| {
      AfterBlank(lines, k + 1);
      var rest := After(lines, k + 1, '\n');
      assert IsSpace('\n');
      hide IsSpace;
      forall i | 0 <= i < |['\n'] + lines[k] + rest| ensures IsSpace((['\n'] + lines[k] + rest)[i]) {
        if 1 <= i <= |lines[k]| { assert (['\n'] + lines[k] + rest)[i] == lines[k][i - 1]; }
        if |lines[k]| < i { assert (['\n'] + lines[k] + rest)[i] == rest[i - 1 - |lines[k]|]; }
      }
    }
  }

  /** A joined text splits behind any of its pieces. */
  lemma JoinSplitAt(lines: seq<string>, k: nat)
    requires k < |lines|
    ensures Join(lines[..k + 1], '\n') == Before(lines, k, '\n') + lines[k]
    ensures Join(lines, '\n') == Before(lines, k, '\n') + lines[k] + After(lines, k + 1, '\n')
  {
    JoinAt(lines, k, '\n');
    JoinAt(lines[..k + 1], k, '\n');
    BeforeIgnoresLater(lines[..k + 1], lines, k, '\n');
  }

  /** With a command in it, preparation keeps exactly this text. */
  lemma PreparedIsLastText(value: string)
    requires HasCommand(Split(value, '\n'))
    ensures Prepared(value) == LastText(value)
    ensures Prepared(value) != value ==> value[|Prepared(value)|] == '\n'
  {
    hide Split, IsSpace, HoldsCommand, LastText;
    var lines := Split(value, '\n');
    var kept := DropBlankTail(lines);
    DroppedAreBlank(lines);
    var i :| 0 <= i < |lines| && HoldsCommand(lines[i]);
    BlankHoldsNothing(lines[i]);
    assert i < |kept| && kept[i] == lines[i];
    var k := |kept| - 1;
    JoinSplit(value, '\n');
    JoinSplitAt(lines, k);
    assert lines[..k + 1] == kept;
    AfterBlank(lines, k + 1);
    SplitHasNoSep(value, '\n', k);
    LastTextIs(Before(lines, k, '\n'), lines[k], After(lines, k + 1, '\n'));
  }

  // ----- a text without a command says nothing

  lemma QuietLineCode(line: string, gap: Gap)
    requires '\n' !in line && !HoldsCommand(line)
    ensures Code(START, gap, line) == [] && Run(START, line) in {START, COMMENTING}
  {
    var text := TrimLeft(line);
    var blanks := line[..|line| - |text|];
    assert line == blanks + text;
    BlankCode(START, gap, blanks);
    BlankKeepsModes(START, blanks);
    CodeConcat(START, gap, blanks, text);
    RunConcat(START, blanks, text);
    if text != "" { RestIsComment(START, GapAfter(START, gap, blanks), text); }
  }

  lemma {:induction false} QuietAfterHas(lines: seq<string>, j: nat, st: Lex, gap: Gap)
    requires st in {START, COMMENTING} && forall i | j <= i < |lines| :: '\n' !in lines[i] && !HoldsCommand(lines[i])
    ensures Code(st, gap, After(lines, j, '\n')) == [] && Run(st, After(lines, j, '\n')) in {START, COMMENTING}
    decreases |lines| - j
  {
    if j < |lines| {
      hide HoldsCommand;
      var line, rest := lines[j], After(lines, j + 1, '\n');
      OpenLineFeed(st, gap);
      assert After(lines, j, '\n') == ['\n'] + (line + rest);
      CodeCons(st, gap, '\n', line + rest);
      QuietLineCode(line, NewLine);
      RunConcat(st, ['\n'], line + rest);
      RunOne(st, '\n');
      RunConcat(START, line, rest);
      CodeConcat(START, NewLine, line, rest);
      QuietAfterHas(lines, j + 1, Run(START, line), GapAfter(START, NewLine, line));
    }
  }

  lemma QuietTextCode(lines: seq<string>, gap: Gap)
    requires lines != [] && forall i | 0 <= i < |lines| :: '\n' !in lines[i] && !HoldsCommand(lines[i])
    ensures Code(START, gap, Join(lines, '\n')) == [] && Run(START, Join(lines, '\n')) in {START, COMMENTING}
  {
    hide HoldsCommand, Code, Run;
    QuietLineCode(lines[0], gap);
    RunConcat(START, lines[0], After(lines, 1, '\n'));
    CodeConcat(START, gap, lines[0], After(lines, 1, '\n'));
    QuietAfterHas(lines, 1, Run(START, lines[0]), GapAfter(START, gap, lines[0]));
  }

  // ----- and one with a command says something

  lemma CommandLineCode(line: string, gap: Gap)
    requires HoldsCommand(line)
    ensures Code(START, gap, line) != []
  {
    var text := TrimLeft(line);
    var blanks := line[..|line| - |text|];
    assert line == blanks + text && text == [text[0]] + text[1..];
    BlankCode(START, gap, blanks);
    BlankKeepsModes(START, blanks);
    CodeConcat(START, gap, blanks, text);
    CodeCons(START, GapAfter(START, gap, blanks), text[0], text[1..]);
  }

  lemma {:induction false} CommandAfterCode(lines: seq<string>, j: nat, st: Lex, gap: Gap)
    requires st in {START, COMMENTING} && forall i | j <= i < |lines| :: '\n' !in lines[i]
    requires exists i :: j <= i < |lines| && HoldsCommand(lines[i])
    ensures Code(st, gap, After(lines, j, '\n')) != []
    decreases |lines| - j
  {
    hide HoldsCommand;
    var line, rest := lines[j], After(lines, j + 1, '\n');
    OpenLineFeed(st, gap);
    assert After(lines, j, '\n') == ['\n'] + (line + rest);
    CodeCons(st, gap, '\n', line + rest);
    CodeConcat(START, NewLine, line, rest);
    if HoldsCommand(line) { CommandLineCode(line, NewLine); }
    else {
      QuietLineCode(line, NewLine);
      CommandAfterCode(lines, j + 1, Run(START, line), GapAfter(START, NewLine, line));
    }
  }

  /** A step has a command line if and only if a shell reads something in it. */
  lemma HasCommandIffCode(value: string, gap: Gap)
    ensures HasCommand(Split(value, '\n')) <==> Code(START, gap, value) != []
  {
    hide HoldsCommand, Code, Run, Split;
    var lines := Split(value, '\n');
    LinesHaveNoBreak(value);
    JoinSplit(value, '\n');
    if HasCommand(lines) {
      CodeConcat(START, gap, lines[0], After(lines, 1, '\n'));
      if HoldsCommand(lines[0]) { CommandLineCode(lines[0], gap); }
      else {
        QuietLineCode(lines[0], gap);
        CommandAfterCode(lines, 1, Run(START, lines[0]), GapAfter(START, gap, lines[0]));
      }
    } else { QuietTextCode(lines, gap); }
  }

  // ----- the meaning of a prepared step

  /** Preparation drops no blank line that is inside quotes or behind a pending backslash. */
  predicate QuietTail(value: string) {
    LastText(value) == value || (!InQuotes(Run(START, LastText(value))) && !Run(START, LastText(value)).escaped)
  }

  lemma TailSays(st: Lex, gap: Gap, tail: string)
    requires Blank(tail) && tail != "" && tail[0] == '\n' && !(st.comment && (InQuotes(st) || st.escaped))
    ensures Code(st, gap, tail) == [] <==> !InQuotes(st) && !st.escaped
  {
    assert tail == ['\n'] + tail[1..];
    CodeCons(st, gap, '\n', tail[1..]);
    if !InQuotes(st) && !st.escaped {
      OpenLineFeed(st, gap);
      BlankCode(START, Widen(gap, '\n'), tail[1..]);
    }
  }

  lemma NoopCode(text: string, gap: Gap)
    requires text == "" || (text[0] == '\n' && Code(START, NewLine, text[1..]) == [])
    ensures Code(START, gap, ":" + text) == [Glyph(':', false, gap)]
  {
    CodeCons(START, gap, ':', text);
    var st := Step(START, ':');
    if text != "" {
      assert text == ['\n'] + text[1..];
      CodeCons(st, Joined, '\n', text[1..]);
      OpenLineFeed(st, Joined);
    }
  }

  lemma NoopRuns(text: string)
    requires text == "" || (text[0] == '\n' && Run(START, text[1..]) in {START, COMMENTING})
    ensures !InQuotes(Run(START, ":" + text))
  {
    hide Run;
    RunOne(START, ':');
    RunConcat(START, ":", text);
    if text == "" { assert ":" + "" == ":"; }
    else {
      var st := Step(START, ':');
      RunOne(st, '\n');
      RunConcat(st, ['\n'], text[1..]);
      assert text == ['\n'] + text[1..];
    }
  }

  lemma NoopPrepared(value: string, gap: Gap)
    requires !HasCommand(Split(value, '\n'))
    ensures Code(START, gap, Prepared(value)) == [Glyph(':', false, gap)] && !InQuotes(Run(START, Prepared(value)))
  {
    hide Code, HoldsCommand, Split, Run;
    var lines := Split(value, '\n');
    var kept := DropBlankTail(lines);
    DroppedAreBlank(lines);
    LinesHaveNoBreak(value);
    if kept == [] {
      NoopCode("", gap);
      NoopRuns("");
      assert ":" + "" == ":";
    } else {
      assert forall i | 0 <= i < |kept| :: kept[i] == lines[i];
      QuietTextCode(kept, NewLine);
      var text := "\n" + Join(kept, '\n');
      assert text[1..] == Join(kept, '\n');
      NoopCode(text, gap);
      NoopRuns(text);
      assert ":" + text == ":\n" + Join(kept, '\n');
    }
  }

  /**
    A step in which a shell reads nothing is prepared as the no-op. Any other reads as before, if and only if no
    blank line that is dropped from its end was inside quotes or behind a pending backslash.
   */
  lemma PreparedMeaning(value: string, gap: Gap)
    ensures Code(START, gap, value) == [] ==> Code(START, gap, Prepared(value)) == [Glyph(':', false, gap)]
    ensures Code(START, gap, value) != [] ==>
              (Code(START, gap, Prepared(value)) == Code(START, gap, value) <==> QuietTail(value))
  {
    hide Code, Run, HasCommand, Split, LastText;
    HasCommandIffCode(value, gap);
    if !HasCommand(Split(value, '\n')) { NoopPrepared(value, gap); }
    else {
      PreparedIsLastText(value);
      var text := Prepared(value);
      var tail := value[|text|..];
      assert value == text + tail;
      if tail != "" {
        CodeConcat(START, gap, text, tail);
        NeverBoth(text);
        TailSays(Run(START, text), GapAfter(START, gap, text), tail);
      }
    }
  }

  // ----- the joined command of raw steps

  /** What a raw step says: its own code, or the no-op if that is empty. */
  function StepCode(value: string, gap: Gap): seq<Glyph> {
    var code := Code(START, gap, value);
    if code == [] then [Glyph(':', false, gap)] else code
  }

  /** What it says in front of an inserted operator: a trailing plain `;` may be gone. */
  predicate StepBody(value: string, gap: Gap, body: seq<Glyph>) {
    var code := StepCode(value, gap);
    || body == code
    || (body == code[..|code| - 1] && code[|code| - 1].ch == ';' && !code[|code| - 1].literal)
  }

  /** `glyphs` is what the raw steps say one after the other, with `&&`, or `: &&` behind a `&`, between them. */
  ghost predicate StepsSay(raw: seq<string>, gap: Gap, glyphs: seq<Glyph>)
    requires |raw| > 0
    decreases |raw|
  {
    if |raw| == 1 then glyphs == StepCode(raw[0], gap)
    else exists body, background, g, next, rest
      {:trigger StepsSay(raw[1..], next, rest), StepBody(raw[0], gap, body), AndGlyphs(background, g)} ::
      && StepBody(raw[0], gap, body) && glyphs == body + AndGlyphs(background, g) + rest
      && StepsSay(raw[1..], next, rest)
  }

  /** No step loses a blank line that counts, and no earlier one ends inside quotes or leaves a backslash dangling. */
  ghost predicate FaithfulRaw(raw: seq<string>) {
    && raw != [] && (forall i | 0 <= i < |raw| :: QuietTail(raw[i]))
    && (forall i | 0 <= i < |raw| - 1 :: !InQuotes(Run(START, raw[i])) && CleanCut(Prepared(raw[i])))
  }

  lemma PreparedQuotes(value: string)
    requires !InQuotes(Run(START, value))
    ensures !InQuotes(Run(START, Prepared(value)))
  {
    hide Code, Run, HasCommand, Split, LastText;
    if !HasCommand(Split(value, '\n')) { NoopPrepared(value, Joined); }
    else {
      PreparedIsLastText(value);
      var text := Prepared(value);
      assert value == text + value[|text|..];
      RunConcat(START, text, value[|text|..]);
      BlankKeepsModes(Run(START, text), value[|text|..]);
    }
  }

  lemma PreparedSays(value: string, gap: Gap)
    requires QuietTail(value)
    ensures Code(START, gap, Prepared(value)) == StepCode(value, gap)
  {
    hide Code, QuietTail;
    PreparedMeaning(value, gap);
  }

  /** What `Body` drops is a plain `;` at the end. */
  lemma BodySays(value: string, gap: Gap)
    requires QuietTail(value)
    ensures StepBody(value, gap, Body(Prepared(value), gap))
  {
    hide Code, QuietTail, EndsWith;
    PreparedHasTarget(value);
    PreparedSays(value, gap);
    if EndsWith(Prepared(value), ';') { DroppedIsSemicolon(Prepared(value), gap); }
  }

  lemma PreparedTail(raw: seq<string>)
    requires |raw| > 1
    ensures PreparedSteps(raw)[1..] == PreparedSteps(raw[1..]) && PreparedSteps(raw)[0] == Prepared(raw[0])
  {
    hide Prepared;
  }

  lemma {:induction false} MeansSays(raw: seq<string>, gap: Gap, glyphs: seq<Glyph>)
    requires raw != [] && (forall i | 0 <= i < |raw| :: QuietTail(raw[i])) && Means(PreparedSteps(raw), gap, glyphs)
    ensures StepsSay(raw, gap, glyphs)
    decreases |raw|
  {
    hide QuietTail, Code, Body, Prepared, StepBody;
    var parts := PreparedSteps(raw);
    if |raw| == 1 { PreparedSays(raw[0], gap); }
    else {
      PreparedTail(raw);
      var g, next, rest :|
        && glyphs == Body(parts[0], gap) + AndGlyphs(EndsWith(parts[0], '&'), g) + rest
        && Means(parts[1..], next, rest);
      BodySays(raw[0], gap);
      MeansSays(raw[1..], next, rest);
    }
  }

  /** The command that is joined from raw steps says what the steps say, in order, with `&&` between them. */
  lemma RawChainKeepsMeaning(raw: seq<string>, gap: Gap)
    requires FaithfulRaw(raw)
    ensures StepsSay(raw, gap, Code(START, gap, Chain(PreparedSteps(raw))))
  {
    hide Code, Run, QuietTail, Prepared, CleanCut, InQuotes;
    var parts := PreparedSteps(raw);
    PreparedStepsChain(raw);
    forall i: nat | i + 1 < |parts| ensures !InQuotes(Run(START, parts[i])) { PreparedQuotes(raw[i]); }
    ChainKeepsMeaning(parts, gap);
    MeansSays(raw, gap, Code(START, gap, Chain(parts)));
  }
}
