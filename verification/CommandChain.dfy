/** Joining the steps of a command set with `&&` (`app/command_set_manager.py`). */
module CommandChain {

  import opened Lines
  import opened ShellScan

  // ----- strings

  function TrimRight(s: string): (t: string)
    ensures |t| <= |s| && t == s[..|t|] && Blank(s[|t|..])
    ensures t != "" ==> !IsSpace(t[|t| - 1])
  {
    if s != [] && IsSpace(s[|s| - 1]) then
      var t := TrimRight(s[..|s| - 1]);
      assert forall i | |t| <= i < |s| - 1 :: s[i] == s[..|s| - 1][|t|..][i - |t|];
      t
    else s
  }

  function TrimLeft(s: string): (t: string)
    ensures |t| <= |s| && t == s[|s| - |t|..] && Blank(s[..|s| - |t|])
    ensures t != "" ==> !IsSpace(t[0])
  {
    if s != [] && IsSpace(s[0]) then
      var t := TrimLeft(s[1..]);
      assert forall i | 1 <= i < |s| - |t| :: s[i] == s[1..][..|s| - 1 - |t|][i - 1];
      t
    else s
  }

  // ----- preparing a step

  /** A line that holds a command: something other than blanks and not a `#` line. */
  predicate HoldsCommand(line: string) {
    var text := TrimLeft(line);
    text != "" && text[0] != '#'
  }

  predicate HasCommand(lines: seq<string>) { exists i | 0 <= i < |lines| :: HoldsCommand(lines[i]) }

  function DropBlankTail(lines: seq<string>): seq<string> {
    if lines != [] && Blank(lines[|lines| - 1]) then DropBlankTail(lines[..|lines| - 1]) else lines
  }

  function Prepared(value: string): string {
    var lines := DropBlankTail(Split(value, '\n'));
    if lines == [] then ":"
    else if HasCommand(lines) then Join(lines, '\n')
    else ":\n" + Join(lines, '\n')
  }

  /** `_prepare_step_for_chaining` */
  method PrepareStepForChaining(value: string) returns (r: string)
    ensures r == Prepared(value)
  {
    var lines := Split(value, '\n');
    while lines != [] && Blank(lines[|lines| - 1])
      invariant DropBlankTail(lines) == DropBlankTail(Split(value, '\n'))
      decreases |lines|
    {
      lines := lines[..|lines| - 1];
    }
    if lines == [] {
      return ":";
    }
    var trimmed := Join(lines, '\n');
    r := if HasCommand(lines) then trimmed else ":\n" + trimmed;
  }

  // ----- the separator after a step

  function AppendOperator(text: string, line: int, semicolons: set<(int, int)>, ampersands: set<(int, int)>): string {
    var terminal := (line, |text| - 1);
    if terminal in semicolons then
      (if text == "" then "" else TrimRight(text[..|text| - 1])) + " &&"
    else if terminal in ampersands then text + " : &&"
    else text + " &&"
  }

  function BeforeComment(lines: seq<string>, k: nat): (text: string)
    requires k < |lines|
    ensures text <= lines[k]
  {
    match CommentAt(lines, k)
    case NoComment => lines[k]
    case CommentFrom(c) => if c <= |lines[k]| then lines[k][..c] else lines[k]
  }

  function CommentText(lines: seq<string>, k: nat): string
    requires k < |lines|
  {
    match CommentAt(lines, k)
    case NoComment => ""
    case CommentFrom(c) => if c <= |lines[k]| then " " + lines[k][c..] else ""
  }

  datatype Found = Nowhere | OnLine(k: nat)

  /** The last line at or above `k` that has a command before its comment. */
  function CommandLine(lines: seq<string>, k: nat): Found
    requires k < |lines|
  {
    if !Blank(BeforeComment(lines, k)) then OnLine(k)
    else if k == 0 then Nowhere
    else CommandLine(lines, k - 1)
  }

  function Operated(lines: seq<string>, text: string, k: nat): string {
    AppendOperator(text, k, OperatorPositions(lines, ';'), OperatorPositions(lines, '&'))
  }

  function Separated(value: string): string {
    var lines := Split(value, '\n');
    var last := |lines| - 1;
    if CommentAt(lines, last) == NoComment then
      Join(lines[last := Operated(lines, lines[last], last)], '\n') + " "
    else
      match CommandLine(lines, last)
      case Nowhere => Join([": &&"] + lines, '\n') + "\n"
      case OnLine(k) =>
        if k < |lines| then
          Join(lines[k := Operated(lines, TrimRight(BeforeComment(lines, k)), k) + CommentText(lines, k)], '\n') + "\n"
        else ""
  }

  lemma CommandLineInRange(lines: seq<string>, k: nat)
    requires k < |lines|
    ensures match CommandLine(lines, k)
            case Nowhere => forall j: nat | j <= k :: Blank(BeforeComment(lines, j))
            case OnLine(c) => c <= k && !Blank(BeforeComment(lines, c))
                              && forall j: nat | c < j <= k :: Blank(BeforeComment(lines, j))
  {
  }

  lemma CommentFits(value: string, k: nat)
    requires k < |Split(value, '\n')|
    ensures var lines := Split(value, '\n'); CommentAt(lines, k).CommentFrom? ==> CommentAt(lines, k).at < |lines[k]|
  {
    SplitHasNoSep(value, '\n', k);
    CommentAtMeaning(Split(value, '\n'), k);
  }

  /** `_append_step_separator` */
  method AppendStepSeparator(value: string) returns (r: string)
    ensures r == Separated(value)
  {
    hide Split, CommentAt, OperatorPositions, AppendOperator, Join, Blank, TrimRight;
    var lines := Split(value, '\n');
    ghost var original := lines;
    var comments, semicolons, ampersands := ShellTokenPositions(value);
    var last := |lines| - 1;
    if last !in comments {
      lines := lines[last := AppendOperator(lines[last], last, semicolons, ampersands)];
      return Join(lines, '\n') + " ";
    }
    CommandLineInRange(lines, last);
    var commandLine, commandText, commentText := -1, "", "";
    var number := last;
    while number >= 0 && commandLine < 0
      invariant -1 <= number <= last
      invariant commandLine < 0 ==>
                  (number < 0 ==> CommandLine(lines, last) == Nowhere)
                  && (number >= 0 ==> CommandLine(lines, last) == CommandLine(lines, number))
      invariant commandLine >= 0 ==>
                  commandLine <= last && CommandLine(lines, last) == OnLine(commandLine)
                  && commandText == TrimRight(BeforeComment(lines, commandLine))
                  && commentText == CommentText(lines, commandLine)
      decreases number + 1, commandLine < 0
    {
      CommentFits(value, number);
      var beforeComment := if number in comments then lines[number][..comments[number]] else lines[number];
      if !Blank(beforeComment) {
        commandLine := number;
        commandText := TrimRight(beforeComment);
        commentText := if number in comments then " " + lines[number][comments[number]..] else "";
      }
      number := number - 1;
    }
    if commandLine < 0 {
      lines := [": &&"] + lines;
    } else {
      lines := lines[commandLine := AppendOperator(commandText, commandLine, semicolons, ampersands) + commentText];
    }
    r := Join(lines, '\n') + "\n";
  }

  // ----- joining the steps

  function Concat(texts: seq<string>): string {
    if texts == [] then "" else Concat(texts[..|texts| - 1]) + texts[|texts| - 1]
  }

  function SeparatedSteps(parts: seq<string>): seq<string> {
    seq(|parts|, i requires 0 <= i < |parts| => Separated(parts[i]))
  }

  /** `_resolve_loaded_command_set`, from the prepared steps on: every step but the last gets a separator. */
  function Chain(parts: seq<string>): string
    requires |parts| > 0
  {
    Concat(SeparatedSteps(parts[..|parts| - 1])) + parts[|parts| - 1]
  }

  // ----- the shape of a separated step: a prefix of the step, the operator, and blanks or comments

  predicate EndsInComment(value: string) {
    var lines := Split(value, '\n');
    CommentAt(lines, |lines| - 1) != NoComment
  }

  predicate HasTarget(value: string) {
    var lines := Split(value, '\n');
    EndsInComment(value) ==> CommandLine(lines, |lines| - 1).OnLine?
  }

  /** The line that receives the operator. */
  function Target(value: string): (k: nat)
    ensures k < |Split(value, '\n')|
  {
    var lines := Split(value, '\n');
    var last := |lines| - 1;
    CommandLineInRange(lines, last);
    if !EndsInComment(value) then last
    else match CommandLine(lines, last) case OnLine(k) => k case Nowhere => 0
  }

  function CommandText(lines: seq<string>, k: nat): (text: string)
    requires k < |lines|
    ensures text <= lines[k]
  {
    TrimRight(BeforeComment(lines, k))
  }

  /** The command text of that line. */
  function Text(value: string): (text: string)
    ensures text <= Split(value, '\n')[Target(value)]
  {
    var lines := Split(value, '\n');
    if !EndsInComment(value) then lines[Target(value)] else CommandText(lines, Target(value))
  }

  predicate EndsWith(value: string, op: char) {
    OperatorAt(Split(value, '\n'), Target(value), |Text(value)| - 1, op)
  }

  function Kept(value: string): string {
    var text := Text(value);
    if EndsWith(value, ';') && text != "" then TrimRight(text[..|text| - 1]) else text
  }

  /** The part of the step that stays in front of the operator. */
  function Cut(value: string): string {
    Before(Split(value, '\n'), Target(value), '\n') + Kept(value)
  }

  function Glue(value: string): string {
    if EndsWith(value, '&') then " : &&" else " &&"
  }

  function Tail(value: string): string {
    var lines := Split(value, '\n');
    if !EndsInComment(value) then " "
    else CommentText(lines, Target(value)) + After(lines, Target(value) + 1, '\n') + "\n"
  }

  lemma OperatorMembership(lines: seq<string>, k: int, c: int, op: char)
    ensures (k, c) in OperatorPositions(lines, op) <==> OperatorAt(lines, k, c, op)
  {
  }

  lemma OperatedShape(lines: seq<string>, text: string, k: nat)
    ensures Operated(lines, text, k)
         == (if OperatorAt(lines, k, |text| - 1, ';') && text != "" then TrimRight(text[..|text| - 1]) else text)
            + (if OperatorAt(lines, k, |text| - 1, '&') then " : &&" else " &&")
  {
    OperatorMembership(lines, k, |text| - 1, ';');
    OperatorMembership(lines, k, |text| - 1, '&');
  }

  lemma SeparatedAtLine(value: string)
    requires HasTarget(value)
    ensures var lines, k := Split(value, '\n'), Target(value);
            var operated := Operated(lines, Text(value), k);
            && (EndsInComment(value) ==>
                  Separated(value) == Join(lines[k := operated + CommentText(lines, k)], '\n') + "\n")
            && (!EndsInComment(value) ==> Separated(value) == Join(lines[k := operated + ""], '\n') + " ")
  {
    var lines, k := Split(value, '\n'), Target(value);
    CommandLineInRange(lines, |lines| - 1);
    assert Operated(lines, Text(value), k) + "" == Operated(lines, Text(value), k);
  }

  lemma AfterLast(lines: seq<string>)
    ensures After(lines, |lines|, '\n') == ""
  {
  }

  lemma SeparatedShape(value: string)
    requires HasTarget(value)
    ensures Separated(value) == Cut(value) + Glue(value) + Tail(value)
  {
    hide Split, CommandLine, BeforeComment, HasTarget, Operated, OperatorPositions;
    var lines := Split(value, '\n');
    var k, text := Target(value), Text(value);
    var operated := Operated(lines, text, k);
    OperatedShape(lines, text, k);
    assert operated == Kept(value) + Glue(value);
    var comment := if EndsInComment(value) then CommentText(lines, k) else "";
    SeparatedAtLine(value);
    JoinUpdate(lines, k, operated + comment, '\n');
    AfterLast(lines);
    var before, after, stop := Before(lines, k, '\n'), After(lines, k + 1, '\n'), if EndsInComment(value) then "\n"
      else " ";
    assert Separated(value) == before + (Kept(value) + Glue(value) + comment) + after + stop;
    Regroup(before, Kept(value), Glue(value), comment, after, stop);
    assert Tail(value) == comment + after + stop;
  }

  lemma Regroup(a: string, b: string, c: string, d: string, e: string, f: string)
    ensures a + (b + c + d) + e + f == a + b + c + (d + e + f)
  {
  }

  lemma WholeScan(value: string)
    ensures var lines := Split(value, '\n');
            Run(START, value) == StateAt(lines, |lines| - 1, |lines[|lines| - 1]|)
  {
    var lines := Split(value, '\n');
    var last := |lines| - 1;
    JoinSplit(value, '\n');
    JoinAt(lines, last, '\n');
    assert After(lines, last + 1, '\n') == [];
    assert value == Before(lines, last, '\n') + lines[last];
    RunConcat(START, Before(lines, last, '\n'), lines[last]);
    assert lines[last][..|lines[last]|] == lines[last];
  }

  /** Dropping blanks from the end of a line's prefix opens and closes nothing. */
  lemma TrimKeepsModes(lines: seq<string>, k: nat, c: nat, d: nat)
    requires k < |lines| && d <= c <= |lines[k]| && '\n' !in lines[k] && Blank(lines[k][d..c])
    ensures var a, b := StateAt(lines, k, d), StateAt(lines, k, c);
            a.single == b.single && a.double == b.double && a.comment == b.comment
  {
    assert lines[k][..c] == lines[k][..d] + lines[k][d..c];
    RunConcat(LineStart(lines, k), lines[k][..d], lines[k][d..c]);
    BlankKeepsModes(StateAt(lines, k, d), lines[k][d..c]);
  }

  /** Below the command line there are only blanks and comments, so no quote is open there. */
  lemma {:induction false} NoQuoteBelow(lines: seq<string>, j: nat)
    requires 0 < j < |lines| && forall i: nat | i < |lines| :: '\n' !in lines[i]
    requires forall i: nat | j <= i < |lines| :: Blank(BeforeComment(lines, i))
    requires CommentAt(lines, |lines| - 1) != NoComment
    ensures !InQuotes(LineStart(lines, j))
    decreases |lines| - j
  {
    CommentAtMeaning(lines, j);
    assert lines[j][..0] == [];
    match CommentAt(lines, j) {
      case CommentFrom(c) =>
        assert lines[j][0..c] == BeforeComment(lines, j);
        TrimKeepsModes(lines, j, c, 0);
      case NoComment =>
        NoQuoteBelow(lines, j + 1);
        LineStartStep(lines, j);
        assert lines[j][0..|lines[j]|] == BeforeComment(lines, j);
        TrimKeepsModes(lines, j, |lines[j]|, 0);
    }
  }

  lemma CommandTextEndsOpen(lines: seq<string>, k: nat)
    requires k < |lines| && forall i: nat | i < |lines| :: '\n' !in lines[i]
    requires forall i: nat | k < i < |lines| :: Blank(BeforeComment(lines, i))
    requires CommentAt(lines, |lines| - 1) != NoComment
    ensures var st := StateAt(lines, k, |CommandText(lines, k)|); !InQuotes(st) && !st.comment
  {
    CommentAtMeaning(lines, k);
    var before, text := BeforeComment(lines, k), CommandText(lines, k);
    assert lines[k][|text|..|before|] == before[|text|..];
    TrimKeepsModes(lines, k, |before|, |text|);
    if CommentAt(lines, k) == NoComment {
      NoQuoteBelow(lines, k + 1);
      LineStartStep(lines, k);
    }
  }

  lemma LinesHaveNoBreak(value: string)
    ensures forall i: nat | i < |Split(value, '\n')| :: '\n' !in Split(value, '\n')[i]
  {
    forall i: nat | i < |Split(value, '\n')| ensures '\n' !in Split(value, '\n')[i] {
      SplitHasNoSep(value, '\n', i);
    }
  }

  lemma OnlyCommentsBelow(value: string)
    requires HasTarget(value)
    ensures forall i: nat | Target(value) < i < |Split(value, '\n')| :: Blank(BeforeComment(Split(value, '\n'), i))
  {
    var lines := Split(value, '\n');
    CommandLineInRange(lines, |lines| - 1);
  }

  /** At the end of the command text no quote and no comment is open. */
  lemma TextEndsOpen(value: string)
    requires HasTarget(value) && !InQuotes(Run(START, value))
    ensures var st := StateAt(Split(value, '\n'), Target(value), |Text(value)|); !InQuotes(st) && !st.comment
  {
    hide Run, Step, IsSpace, BeforeComment, StateAt, CommentAt, CommandLine, Split;
    var lines := Split(value, '\n');
    LinesHaveNoBreak(value);
    if EndsInComment(value) {
      OnlyCommentsBelow(value);
      CommandTextEndsOpen(lines, Target(value));
    } else {
      WholeScan(value);
      CommentAtMeaning(lines, |lines| - 1);
    }
  }

  /** So too at the cut, once a trailing `;` is gone. */
  lemma CutEndsOpen(value: string)
    requires HasTarget(value) && !InQuotes(Run(START, value))
    ensures var st := Run(START, Cut(value)); !InQuotes(st) && !st.comment
  {
    hide IsSpace, HasTarget, Split, Target, Text;
    var lines := Split(value, '\n');
    var k, text, kept := Target(value), Text(value), Kept(value);
    TextEndsOpen(value);
    SplitHasNoSep(value, '\n', k);
    RunConcat(START, Before(lines, k, '\n'), kept);
    assert kept == lines[k][..|kept|];
    if EndsWith(value, ';') {
      assert lines[k][|kept|..|text| - 1] == text[..|text| - 1][|kept|..];
      TrimKeepsModes(lines, k, |text| - 1, |kept|);
    }
  }

  /** From any such state the inserted operator is read as `&&` and leaves the scanner at its start. */
  lemma GlueRuns(st: Lex)
    requires !InQuotes(st) && !st.comment
    ensures Run(st, " &&") == START && Plain(Run(st, " ")) && Plain(Run(st, " &"))
  {
    var a := Step(st, ' ');
    assert Run(st, " ") == Run(a, "") == a;
    RunSnoc(st, " ", '&');
    RunSnoc(st, " &", '&');
    assert " " + ['&'] == " &" && " &" + ['&'] == " &&";
    hide Run;
  }

  lemma NoopGlueRuns(st: Lex)
    requires !InQuotes(st) && !st.comment && !st.escaped
    ensures Run(st, " : &&") == START && Plain(Run(st, " : ")) && Plain(Run(st, " : &"))
  {
    hide Run;
    RunOne(st, ' ');
    RunSnoc(st, " ", ':');
    RunSnoc(st, " :", ' ');
    RunSnoc(st, " : ", '&');
    RunSnoc(st, " : &", '&');
    assert " " + [':'] == " :" && " :" + [' '] == " : " && " : " + ['&'] == " : &" && " : &" + ['&'] == " : &&";
  }

  const COMMENTING := START.(comment := true)

  /** A line of blanks, possibly with a comment, leaves the scanner idle or in that comment. */
  lemma QuietLine(blank: string, rest: string)
    requires Blank(blank) && '\n' !in rest && (rest == "" || rest[0] == '#')
    ensures Run(START, blank + rest) == if rest == "" then START else COMMENTING
  {
    RunConcat(START, blank, rest);
    BlankKeepsModes(START, blank);
    if rest != "" {
      assert Run(START, rest) == Run(Step(START, '#'), rest[1..]);
      CommentSwallows(COMMENTING, rest[1..]);
    }
  }

  lemma NewlineRuns(st: Lex, rest: string)
    requires st == START || st == COMMENTING
    ensures Run(st, "\n" + rest) == Run(START, rest) && Run(START, "") == START
  {
  }

  lemma AfterStep(lines: seq<string>, j: nat)
    requires j < |lines|
    ensures After(lines, j, '\n') + "\n" == "\n" + (lines[j] + (After(lines, j + 1, '\n') + "\n"))
  {
  }

  lemma QuietLineRuns(lines: seq<string>, j: nat)
    requires j < |lines| && '\n' !in lines[j] && Blank(BeforeComment(lines, j))
    ensures Run(START, lines[j]) in {START, COMMENTING}
  {
    hide Run, Step, IsSpace, Blank, StateAt;
    CommentAtMeaning(lines, j);
    var blank := BeforeComment(lines, j);
    var rest := lines[j][|blank|..];
    assert lines[j] == blank + rest;
    QuietLine(blank, rest);
  }

  lemma {:induction false} QuietAfter(lines: seq<string>, j: nat, st: Lex)
    requires j <= |lines| && (st == START || st == COMMENTING)
    requires forall i: nat | i < |lines| :: '\n' !in lines[i]
    requires forall i: nat | j <= i < |lines| :: Blank(BeforeComment(lines, i))
    ensures Run(st, After(lines, j, '\n') + "\n") == START
    decreases |lines| - j
  {
    hide Run, Step, IsSpace, BeforeComment;
    if j == |lines| {
      assert After(lines, j, '\n') + "\n" == "\n" + "";
      NewlineRuns(st, "");
    } else {
      var line := Run(START, lines[j]);
      QuietLineRuns(lines, j);
      QuietAfter(lines, j + 1, line);
      var further := After(lines, j + 1, '\n') + "\n";
      AfterStep(lines, j);
      NewlineRuns(st, lines[j] + further);
      RunConcat(START, lines[j], further);
    }
  }

  lemma CommentTextRuns(lines: seq<string>, k: nat)
    requires k < |lines| && '\n' !in lines[k]
    ensures Run(START, CommentText(lines, k)) in {START, COMMENTING}
  {
    CommentAtMeaning(lines, k);
    match CommentAt(lines, k)
    case NoComment =>
    case CommentFrom(c) => QuietLine(" ", lines[k][c..]);
  }

  lemma SpaceRuns()
    ensures Run(START, " ") == START
  {
    assert Run(START, " ") == Run(Step(START, ' '), "");
  }

  lemma TailRuns(value: string)
    requires HasTarget(value)
    ensures Run(START, Tail(value)) == START
  {
    hide Run, Step, IsSpace, HasTarget, Target, CommentText, After;
    var lines := Split(value, '\n');
    var k := Target(value);
    if !EndsInComment(value) { SpaceRuns(); }
    else {
      LinesHaveNoBreak(value);
      OnlyCommentsBelow(value);
      CommentTextRuns(lines, k);
      var comment, after := CommentText(lines, k), After(lines, k + 1, '\n') + "\n";
      assert Tail(value) == comment + after;
      RunConcat(START, comment, after);
      QuietAfter(lines, k + 1, Run(START, comment));
    }
  }

  // ----- preparation makes the fallback of the separator unreachable

  lemma CommandIsBeforeComment(lines: seq<string>, i: nat)
    requires i < |lines| && '\n' !in lines[i] && HoldsCommand(lines[i])
    ensures !Blank(BeforeComment(lines, i))
  {
    CommentAtMeaning(lines, i);
    var line := lines[i];
    var column := |line| - |TrimLeft(line)|;
    assert line[column] == TrimLeft(line)[0];
    match CommentAt(lines, i)
    case NoComment =>
    case CommentFrom(c) =>
      if c < column {
        assert line[c] == line[..column][c];
      }
      assert BeforeComment(lines, i)[column] == line[column];
  }

  lemma CommandGivesTarget(value: string, i: nat)
    requires i < |Split(value, '\n')| && HoldsCommand(Split(value, '\n')[i])
    ensures HasTarget(value)
  {
    hide HoldsCommand;
    var lines := Split(value, '\n');
    SplitHasNoSep(value, '\n', i);
    CommandIsBeforeComment(lines, i);
    CommandLineInRange(lines, |lines| - 1);
  }

  lemma {:induction false} DropBlankTailIsPrefix(lines: seq<string>)
    ensures DropBlankTail(lines) <= lines
  {
    if lines != [] && Blank(lines[|lines| - 1]) {
      DropBlankTailIsPrefix(lines[..|lines| - 1]);
    }
  }

  lemma NoopHasTarget()
    ensures HasTarget(":")
  {
    SplitWhole(":", '\n');
    assert TrimLeft(":") == ":";
    CommandGivesTarget(":", 0);
  }

  lemma CommandsHaveTarget(lines: seq<string>)
    requires |lines| > 0 && HasCommand(lines) && forall i: nat | i < |lines| :: '\n' !in lines[i]
    ensures HasTarget(Join(lines, '\n'))
  {
    SplitJoin(lines, '\n');
    var i :| 0 <= i < |lines| && HoldsCommand(lines[i]);
    CommandGivesTarget(Join(lines, '\n'), i);
  }

  lemma NoopLineGivesTarget(value: string)
    requires Split(value, '\n')[0] == ":"
    ensures HasTarget(value)
  {
    assert TrimLeft(":") == ":";
    CommandGivesTarget(value, 0);
  }

  lemma NoopBeforeHasTarget(text: string)
    ensures HasTarget(":\n" + text)
  {
    SplitGlue(":", text, '\n');
    assert ":" + ['\n'] + text == ":\n" + text;
    NoopLineGivesTarget(":\n" + text);
  }

  /** Every prepared step has a command line: `lines.insert(0, ': &&')` is dead code behind preparation. */
  lemma PreparedHasTarget(value: string)
    ensures HasTarget(Prepared(value))
  {
    var lines := DropBlankTail(Split(value, '\n'));
    DropBlankTailIsPrefix(Split(value, '\n'));
    LinesHaveNoBreak(value);
    if lines == [] {
      NoopHasTarget();
    } else if HasCommand(lines) {
      CommandsHaveTarget(lines);
    } else {
      NoopBeforeHasTarget(Join(lines, '\n'));
    }
  }

  // ----- the separator and the chain keep every step where the scanner can read it

  /** The two ampersands that `Separated` inserts. */
  function OperatorOffset(value: string): nat { |Cut(value)| + |Glue(value)| - 2 }

  ghost predicate ReadAsAnd(text: string, at: nat) {
    && at + 1 < |text| && text[at] == '&' && text[at + 1] == '&'
    && Plain(Run(START, text[..at])) && Plain(Run(START, text[..at + 1]))
  }

  lemma AmpersandIsOpen(value: string)
    requires EndsWith(value, '&')
    ensures !Run(START, Cut(value)).escaped
  {
    hide Run, Split;
    var lines, k, text := Split(value, '\n'), Target(value), Text(value);
    assert Kept(value) == text;
    RunConcat(START, Before(lines, k, '\n'), text);
    assert text == lines[k][..|text|];
    StateAtStep(lines, k, |text| - 1);
  }

  lemma PlainGlueReads(cut: string)
    requires var st := Run(START, cut); !InQuotes(st) && !st.comment
    ensures Run(START, cut + " &&") == START && ReadAsAnd(cut + " &&", |cut| + 1)
  {
    hide Run, Step;
    GlueRuns(Run(START, cut));
    RunConcat(START, cut, " &&");
    RunConcat(START, cut, " ");
    RunConcat(START, cut, " &");
    assert (cut + " &&")[..|cut| + 1] == cut + " " && (cut + " &&")[..|cut| + 2] == cut + " &";
  }

  lemma NoopGlueReads(cut: string)
    requires var st := Run(START, cut); !InQuotes(st) && !st.comment && !st.escaped
    ensures Run(START, cut + " : &&") == START && ReadAsAnd(cut + " : &&", |cut| + 3)
  {
    hide Run, Step;
    NoopGlueRuns(Run(START, cut));
    RunConcat(START, cut, " : &&");
    RunConcat(START, cut, " : ");
    RunConcat(START, cut, " : &");
    assert (cut + " : &&")[..|cut| + 3] == cut + " : " && (cut + " : &&")[..|cut| + 4] == cut + " : &";
  }

  lemma GlueFromCut(value: string)
    requires HasTarget(value) && !InQuotes(Run(START, value))
    ensures Run(START, Cut(value) + Glue(value)) == START
    ensures ReadAsAnd(Cut(value) + Glue(value), OperatorOffset(value))
  {
    hide Run, Step, Cut, EndsWith, IsSpace, ReadAsAnd, HasTarget;
    var cut := Cut(value);
    CutEndsOpen(value);
    if EndsWith(value, '&') {
      AmpersandIsOpen(value);
      NoopGlueReads(cut);
    } else { PlainGlueReads(cut); }
  }

  lemma QuotesStayOpen(value: string)
    requires HasTarget(value) && InQuotes(Run(START, value))
    ensures InQuotes(Run(START, Separated(value)))
  {
    hide Run, Separated, HasTarget, CommandLine;
    var lines := Split(value, '\n');
    var last := |lines| - 1;
    WholeScan(value);
    SplitHasNoSep(value, '\n', last);
    CommentAtMeaning(lines, last);
    NeverBoth(value);
    assert !EndsInComment(value) && Target(value) == last && Text(value) == lines[last];
    var line := lines[last];
    if line != "" {
      StateAtStep(lines, last, |line| - 1);
    }
    assert !EndsWith(value, ';') && !EndsWith(value, '&');
    JoinSplit(value, '\n');
    JoinAt(lines, last, '\n');
    AfterLast(lines);
    assert Cut(value) == value;
    SeparatedShape(value);
    assert value + " &&" + " " == value + " && ";
    RunConcat(START, value, " && ");
    QuotedGlue(Run(START, value));
  }

  lemma QuotedGlue(st: Lex)
    requires InQuotes(st) && !st.comment
    ensures InQuotes(Run(st, " && "))
  {
    RunSnoc(st, "", ' ');
    RunSnoc(st, " ", '&');
    RunSnoc(st, " &", '&');
    RunSnoc(st, " &&", ' ');
    assert "" + [' '] == " " && " " + ['&'] == " &" && " &" + ['&'] == " &&" && " &&" + [' '] == " && ";
  }

  lemma AndSurvives(head: string, tail: string, at: nat)
    requires ReadAsAnd(head, at)
    ensures ReadAsAnd(head + tail, at)
  {
    assert (head + tail)[..at] == head[..at] && (head + tail)[..at + 1] == head[..at + 1];
  }

  lemma AndBehind(lead: string, text: string, at: nat)
    requires ReadAsAnd(text, at) && Run(START, lead) == START
    ensures ReadAsAnd(lead + text, |lead| + at)
  {
    assert (lead + text)[..|lead| + at] == lead + text[..at];
    assert (lead + text)[..|lead| + at + 1] == lead + text[..at + 1];
    RunConcat(START, lead, text[..at]);
    RunConcat(START, lead, text[..at + 1]);
  }

  /**
    After the separator the scanner is back at its start, with `&&` read as an operator, exactly when the
    step does not end inside a quote.
   */
  lemma SeparatorReturnsToStart(value: string)
    requires HasTarget(value)
    ensures Run(START, Separated(value)) == START <==> !InQuotes(Run(START, value))
    ensures !InQuotes(Run(START, value)) ==> ReadAsAnd(Separated(value), OperatorOffset(value))
  {
    if InQuotes(Run(START, value)) {
      QuotesStayOpen(value);
    } else {
      SeparatedShape(value);
      GlueFromCut(value);
      TailRuns(value);
      RunConcat(START, Cut(value) + Glue(value), Tail(value));
      AndSurvives(Cut(value) + Glue(value), Tail(value), OperatorOffset(value));
    }
  }

  /** Texts that each bring the scanner back to its start do so together, and only then at every boundary. */
  lemma {:induction false} ConcatReturnsToStart(texts: seq<string>)
    ensures (forall i | 0 <= i <= |texts| :: Run(START, Concat(texts[..i])) == START)
       <==> (forall i | 0 <= i < |texts| :: Run(START, texts[i]) == START)
  {
    hide Run, Step, IsSpace, Concat;
    if texts == [] { RunNothing(); }
    else {
      var n := |texts| - 1;
      var init := texts[..n];
      ConcatReturnsToStart(init);
      PrefixesOfAll(texts, init);
      ConcatLast(texts);
      RunConcat(START, Concat(init), texts[n]);
      assert init[..n] == init;
    }
  }

  lemma RunNothing()
    ensures Run(START, Concat([])) == START
  {
  }

  lemma ConcatLast(texts: seq<string>)
    requires texts != []
    ensures Concat(texts) == Concat(texts[..|texts| - 1]) + texts[|texts| - 1]
  {
  }

  lemma PrefixesOfAll(texts: seq<string>, init: seq<string>)
    requires texts != [] && init == texts[..|texts| - 1]
    ensures (forall i | 0 <= i <= |texts| :: Run(START, Concat(texts[..i])) == START)
       <==> (forall i | 0 <= i <= |init| :: Run(START, Concat(init[..i])) == START)
            && Run(START, Concat(texts)) == START
  {
    hide Run, Concat;
    assert forall i | 0 <= i <= |init| :: texts[..i] == init[..i];
    assert texts[..|texts|] == texts;
  }

  /** The text of the chain in front of step `i`. */
  function Lead(parts: seq<string>, i: nat): string
    requires i < |parts|
  {
    Concat(SeparatedSteps(parts[..i]))
  }

  /** What `_resolve_loaded_command_set` has in hand: at least one step, each with a command line. */
  ghost predicate Chainable(parts: seq<string>) {
    |parts| > 0 && forall i | 0 <= i < |parts| :: HasTarget(parts[i])
  }

  ghost predicate EveryStepStartsFresh(parts: seq<string>) {
    forall i: nat | i < |parts| :: Run(START, Lead(parts, i)) == START
  }

  ghost predicate NoEarlierStepEndsInQuotes(parts: seq<string>) {
    forall i: nat | i + 1 < |parts| :: !InQuotes(Run(START, parts[i]))
  }

  lemma SeparatedPrefix(parts: seq<string>, i: nat)
    requires i < |parts|
    ensures SeparatedSteps(parts[..i]) == SeparatedSteps(parts[..|parts| - 1])[..i]
  {
  }

  /**
    The scan of the joined command reaches the first character of every step in the scanner's initial state
    exactly when no step but the last ends inside a quote.
   */
  lemma ChainKeepsStepsApart(parts: seq<string>)
    requires Chainable(parts)
    ensures EveryStepStartsFresh(parts) <==> NoEarlierStepEndsInQuotes(parts)
  {
    var texts := SeparatedSteps(parts[..|parts| - 1]);
    ConcatReturnsToStart(texts);
    forall i: nat | i < |parts| ensures Lead(parts, i) == Concat(texts[..i]) {
      SeparatedPrefix(parts, i);
    }
    forall i: nat | i < |texts| ensures Run(START, texts[i]) == START <==> !InQuotes(Run(START, parts[i])) {
      assert texts[i] == Separated(parts[i]);
      SeparatorReturnsToStart(parts[i]);
    }
  }

  /** The chain is its lead-in to step `i`, then that step and what follows. */
  lemma {:induction false} ConcatAt(texts: seq<string>, i: nat)
    requires i < |texts|
    ensures exists rest :: Concat(texts) == Concat(texts[..i]) + texts[i] + rest
    decreases |texts|
  {
    var n := |texts| - 1;
    if i == n {
      assert Concat(texts) == Concat(texts[..i]) + texts[i] + "";
    } else {
      ConcatAt(texts[..n], i);
      var rest :| Concat(texts[..n]) == Concat(texts[..n][..i]) + texts[..n][i] + rest;
      assert texts[..n][..i] == texts[..i];
      assert Concat(texts) == Concat(texts[..i]) + texts[i] + (rest + texts[n]);
    }
  }

  lemma ConcatReadsAnd(texts: seq<string>, i: nat, at: nat, last: string)
    requires i < |texts| && Run(START, Concat(texts[..i])) == START && ReadAsAnd(texts[i], at)
    ensures ReadAsAnd(Concat(texts) + last, |Concat(texts[..i])| + at)
  {
    hide Run, Concat, ReadAsAnd;
    ConcatAt(texts, i);
    var rest :| Concat(texts) == Concat(texts[..i]) + texts[i] + rest;
    AndBehind(Concat(texts[..i]), texts[i], at);
    AndSurvives(Concat(texts[..i]) + texts[i], rest + last, |Concat(texts[..i])| + at);
    assert Concat(texts) + last == Concat(texts[..i]) + texts[i] + (rest + last);
  }

  lemma StepReadsAnd(value: string)
    requires HasTarget(value) && !InQuotes(Run(START, value))
    ensures ReadAsAnd(Separated(value), OperatorOffset(value))
  {
    SeparatorReturnsToStart(value);
  }

  /** Every `&&` that the chain inserts is read as an operator of the joined command. */
  lemma ChainOperatorsAreRead(parts: seq<string>, i: nat)
    requires Chainable(parts)
    requires NoEarlierStepEndsInQuotes(parts) && i + 1 < |parts|
    ensures ReadAsAnd(Chain(parts), |Lead(parts, i)| + OperatorOffset(parts[i]))
  {
    hide Run, Concat, ReadAsAnd, HasTarget, InQuotes, Separated, OperatorOffset;
    ChainKeepsStepsApart(parts);
    assert Run(START, Lead(parts, i)) == START;
    StepReadsAnd(parts[i]);
    SeparatedPrefix(parts, i);
    ConcatReadsAnd(SeparatedSteps(parts[..|parts| - 1]), i, OperatorOffset(parts[i]), parts[|parts| - 1]);
  }

  /** The steps of a command set as they are joined. */
  function PreparedSteps(raw: seq<string>): seq<string> { seq(|raw|, i requires 0 <= i < |raw| => Prepared(raw[i])) }

  /** Any list of steps, once prepared, can be joined, and is then kept apart unless an earlier one ends in quotes. */
  lemma PreparedStepsChain(raw: seq<string>)
    requires raw != []
    ensures Chainable(PreparedSteps(raw))
    ensures EveryStepStartsFresh(PreparedSteps(raw)) <==> NoEarlierStepEndsInQuotes(PreparedSteps(raw))
  {
    forall i | 0 <= i < |raw| ensures HasTarget(PreparedSteps(raw)[i]) { PreparedHasTarget(raw[i]); }
    ChainKeepsStepsApart(PreparedSteps(raw));
  }
}
