/** The shell scanner of `app/command_set_manager.py`: quotes, escapes, word starts and comments. */
module ShellScan {

  import opened Lines

  /** The five flags that the scanner carries from one character to the next. */
  datatype Lex = Lex(single: bool, double: bool, escaped: bool, wordStart: bool, comment: bool)

  const START := Lex(false, false, false, true, false)

  predicate InQuotes(st: Lex) { st.single || st.double }

  predicate Plain(st: Lex) { !InQuotes(st) && !st.escaped && !st.comment }

  /** Python's `str.isspace` on one character, which is also what `strip` removes. */
  predicate IsSpace(c: char) {
    var n := c as int;
    || 9 <= n <= 13 || 28 <= n <= 32 || n == 0x85 || n == 0xA0 || n == 0x1680
    || 0x2000 <= n <= 0x200A || n == 0x2028 || n == 0x2029 || n == 0x202F || n == 0x205F || n == 0x3000
  }

  predicate IsCommentStart(st: Lex, c: char) { Plain(st) && st.wordStart && c == '#' }

  predicate IsOperator(st: Lex, c: char, op: char) { Plain(st) && c == op }

  function Step(st: Lex, c: char): Lex {
    if st.comment then
      if c == '\n' then st.(comment := false, wordStart := true) else st
    else if st.escaped then
      if c != '\n' then st.(escaped := false, wordStart := false) else st.(escaped := false)
    else if st.single then
      if c == '\'' then st.(single := false) else st
    else if st.double then
      if c == '"' then st.(double := false)
      else if c == '\\' then st.(escaped := true)
      else st
    else if c == '\\' then st.(escaped := true)
    else if c == '\'' then st.(single := true, wordStart := false)
    else if c == '"' then st.(double := true, wordStart := false)
    else if IsSpace(c) then st.(wordStart := true)
    else if c in ";&|()<>" then st.(wordStart := true)
    else if c == '#' && st.wordStart then st.(comment := true)
    else st.(wordStart := false)
  }

  function Run(st: Lex, s: string): Lex
    decreases |s|
  {
    if s == [] then st else Run(Step(st, s[0]), s[1..])
  }

  lemma {:induction false} RunConcat(st: Lex, a: string, b: string)
    ensures Run(st, a + b) == Run(Run(st, a), b)
    decreases |a|
  {
    if a == [] {
      assert a + b == b;
    } else {
      RunConcat(Step(st, a[0]), a[1..], b);
      assert (a + b)[1..] == a[1..] + b;
    }
  }

  lemma RunOne(st: Lex, c: char)
    ensures Run(st, [c]) == Step(st, c)
  {
    assert [c][1..] == [];
  }

  lemma RunSnoc(st: Lex, a: string, c: char)
    ensures Run(st, a + [c]) == Step(Run(st, a), c)
  {
    RunConcat(st, a, [c]);
    assert Run(Run(st, a), [c]) == Run(Step(Run(st, a), c), []);
  }

  predicate Blank(s: string) { forall i | 0 <= i < |s| :: IsSpace(s[i]) }

  /** Blanks on one line open and close nothing. */
  lemma {:induction false} BlankKeepsModes(st: Lex, w: string)
    requires Blank(w)
    ensures var after := Run(st, w); after.single == st.single && after.double == st.double
    ensures '\n' !in w ==> Run(st, w).comment == st.comment
    ensures st == START ==> Run(st, w) == START
    decreases |w|
  {
    if w != [] {
      assert IsSpace(w[0]);
      BlankKeepsModes(Step(st, w[0]), w[1..]);
    }
  }

  /** A comment runs to the end of its line. */
  lemma {:induction false} CommentSwallows(st: Lex, s: string)
    requires st.comment && '\n' !in s
    ensures Run(st, s) == st
  {
    if s != [] {
      CommentSwallows(Step(st, s[0]), s[1..]);
    }
  }

  // ----- what the shell's quoting forms do to the scanner

  lemma {:induction false} InSingle(st: Lex, body: string)
    requires st.single && !st.double && !st.escaped && !st.comment && '\'' !in body
    ensures Run(st, body) == st
  {
    if body != [] { InSingle(Step(st, body[0]), body[1..]); }
  }

  /** What may stand between double quotes: no quote or backslash but behind a backslash. */
  predicate DoubleBody(body: string) {
    body == [] || (if body[0] == '\\' then |body| > 1 && DoubleBody(body[2..])
                   else body[0] != '"' && DoubleBody(body[1..]))
  }

  lemma {:induction false} InDouble(st: Lex, body: string)
    requires st == Lex(false, true, false, false, false) && DoubleBody(body)
    ensures Run(st, body) == st
    decreases |body|
  {
    if body != [] {
      if body[0] == '\\' {
        assert body[1..][1..] == body[2..];
        InDouble(st, body[2..]);
      } else { InDouble(st, body[1..]); }
    }
  }

  lemma RunAround(st: Lex, open: char, body: string, close: char)
    ensures Run(st, [open] + body + [close]) == Step(Run(Step(st, open), body), close)
  {
    RunSnoc(st, [open] + body, close);
    RunConcat(st, [open], body);
    RunOne(st, open);
  }

  lemma QuotedForm(st: Lex, body: string, quote: char)
    requires Plain(st) && ((quote == '\'' && '\'' !in body) || (quote == '"' && DoubleBody(body)))
    ensures Run(st, [quote] + body + [quote]) == st.(wordStart := false)
  {
    RunAround(st, quote, body, quote);
    if quote == '"' { InDouble(Step(st, quote), body); } else { InSingle(Step(st, quote), body); }
  }

  lemma EscapedForm(st: Lex, c: char)
    requires Plain(st)
    ensures Run(st, ['\\', c]) == if c == '\n' then st else st.(wordStart := false)
  {
    RunConcat(st, ['\\'], [c]);
    RunOne(st, '\\');
    RunOne(Step(st, '\\'), c);
    assert ['\\'] + [c] == ['\\', c];
  }

  lemma CommentForm(st: Lex, body: string)
    requires Plain(st) && st.wordStart && '\n' !in body
    ensures Run(st, ['#'] + body + ['\n']) == START
  {
    RunAround(st, '#', body, '\n');
    CommentSwallows(Step(st, '#'), body);
  }

  /**
    Outside quotes, comments and escapes, a quoted text is a part of a word and leaves the scanner outside again, as
    does an escaped character; an escaped newline leaves no trace; and a comment, at a word start only, runs to the
    end of its line, and the next word starts behind it.
   */
  lemma QuotingForms(st: Lex, body: string, c: char)
    requires Plain(st)
    ensures '\'' !in body ==> Run(st, ['\''] + body + ['\'']) == st.(wordStart := false)
    ensures DoubleBody(body) ==> Run(st, ['"'] + body + ['"']) == st.(wordStart := false)
    ensures Run(st, ['\\', c]) == if c == '\n' then st else st.(wordStart := false)
    ensures '\n' !in body && st.wordStart ==> Run(st, ['#'] + body + ['\n']) == START
  {
    hide Run, DoubleBody, Plain;
    if '\'' !in body { QuotedForm(st, body, '\''); }
    if DoubleBody(body) { QuotedForm(st, body, '"'); }
    EscapedForm(st, c);
    if '\n' !in body && st.wordStart { CommentForm(st, body); }
  }

  /** Blanks and the shell's separators end a word, and every other character belongs to one, `#` within it too. */
  lemma WordCharacters(st: Lex, c: char)
    requires Plain(st) && c !in "\\'\"" && !(c == '#' && st.wordStart)
    ensures Step(st, c) == if IsSpace(c) || c in ";&|()<>" then START else st.(wordStart := false)
  {
  }

  // ----- positions on lines

  /** The scanner's state at the first character of line `k`. */
  function LineStart(lines: seq<string>, k: nat): Lex
    requires k <= |lines|
  {
    Run(START, Before(lines, k, '\n'))
  }

  function StateAt(lines: seq<string>, k: nat, column: nat): Lex
    requires k < |lines| && column <= |lines[k]|
  {
    Run(LineStart(lines, k), lines[k][..column])
  }

  datatype Column = NoComment | CommentFrom(at: nat)

  /** The first comment start of `line` at or after column `i`, where `st` is the state there. */
  function CommentColumn(st: Lex, line: string, i: nat): Column
    requires i <= |line|
    decreases |line| - i
  {
    if i == |line| then NoComment
    else if IsCommentStart(st, line[i]) then CommentFrom(i)
    else CommentColumn(Step(st, line[i]), line, i + 1)
  }

  function CommentAt(lines: seq<string>, k: nat): Column
    requires k < |lines|
  {
    CommentColumn(LineStart(lines, k), lines[k], 0)
  }

  predicate OperatorAt(lines: seq<string>, k: int, column: int, op: char) {
    && 0 <= k < |lines| && 0 <= column < |lines[k]|
    && IsOperator(StateAt(lines, k, column), lines[k][column], op)
  }

  lemma LineStartStep(lines: seq<string>, k: nat)
    requires k < |lines|
    ensures LineStart(lines, k + 1) == Step(StateAt(lines, k, |lines[k]|), '\n')
  {
    var before := Before(lines, k, '\n');
    assert lines[k][..|lines[k]|] == lines[k];
    assert Before(lines, k + 1, '\n') == before + lines[k] + ['\n'];
    RunSnoc(START, before + lines[k], '\n');
    RunConcat(START, before, lines[k]);
  }

  lemma StateAtStep(lines: seq<string>, k: nat, column: nat)
    requires k < |lines| && column < |lines[k]|
    ensures StateAt(lines, k, column + 1) == Step(StateAt(lines, k, column), lines[k][column])
  {
    assert lines[k][..column + 1] == lines[k][..column] + [lines[k][column]];
    RunSnoc(LineStart(lines, k), lines[k][..column], lines[k][column]);
  }

  /** No line starts inside a comment or after a pending backslash. */
  lemma LineStartIsOpen(lines: seq<string>, k: nat)
    requires k <= |lines|
    ensures !LineStart(lines, k).comment && !LineStart(lines, k).escaped
  {
    if k > 0 {
      LineStartStep(lines, k - 1);
      NeverBoth(Before(lines, k - 1, '\n') + lines[k - 1]);
      RunConcat(START, Before(lines, k - 1, '\n'), lines[k - 1]);
      assert lines[k - 1][..|lines[k - 1]|] == lines[k - 1];
    }
  }

  /** A comment never overlaps a quote or an escape. */
  lemma {:induction false} NeverBoth(s: string)
    ensures var st := Run(START, s);
            && !(st.comment && (InQuotes(st) || st.escaped))
            && !(st.single && (st.double || st.escaped))
  {
    if s != [] {
      var init := s[..|s| - 1];
      assert s == init + [s[|s| - 1]];
      NeverBoth(init);
      RunSnoc(START, init, s[|s| - 1]);
    }
  }

  /** What `CommentColumn` means: a comment starts exactly there, or nowhere on the line. */
  lemma {:induction false} CommentColumnMeaning(lines: seq<string>, k: nat, i: nat)
    requires k < |lines| && i <= |lines[k]| && '\n' !in lines[k]
    requires !StateAt(lines, k, i).comment
    ensures match CommentColumn(StateAt(lines, k, i), lines[k], i)
            case CommentFrom(c) =>
              i <= c < |lines[k]| && IsCommentStart(StateAt(lines, k, c), lines[k][c])
              && StateAt(lines, k, |lines[k]|).comment
            case NoComment => !StateAt(lines, k, |lines[k]|).comment
    decreases |lines[k]| - i
  {
    var line := lines[k];
    if i < |line| {
      StateAtStep(lines, k, i);
      if IsCommentStart(StateAt(lines, k, i), line[i]) {
        assert line[..|line|] == line[..i + 1] + line[i + 1..];
        RunConcat(LineStart(lines, k), line[..i + 1], line[i + 1..]);
        CommentSwallows(StateAt(lines, k, i + 1), line[i + 1..]);
      } else {
        CommentColumnMeaning(lines, k, i + 1);
      }
    }
  }

  lemma CommentAtMeaning(lines: seq<string>, k: nat)
    requires k < |lines| && '\n' !in lines[k]
    ensures match CommentAt(lines, k)
            case CommentFrom(c) =>
              c < |lines[k]| && IsCommentStart(StateAt(lines, k, c), lines[k][c])
              && StateAt(lines, k, |lines[k]|).comment
            case NoComment => !StateAt(lines, k, |lines[k]|).comment
  {
    LineStartIsOpen(lines, k);
    assert lines[k][..0] == [];
    CommentColumnMeaning(lines, k, 0);
  }

  // ----- the scanning loop

  function OperatorPositions(lines: seq<string>, op: char): set<(int, int)> {
    set k, c | 0 <= k < |lines| && 0 <= c < |lines[k]| && OperatorAt(lines, k, c, op) :: (k, c)
  }

  /** The position `(k, c)` lies before `(line, column)` in reading order. */
  predicate Earlier(k: int, c: int, line: int, column: int) {
    k < line || (k == line && c < column)
  }

  /** Where a scan of `value` stands after `i` characters. */
  ghost predicate ScannedTo(value: string, i: nat, line: nat, column: nat, st: Lex) {
    var lines := Split(value, '\n');
    && i <= |value|
    && line < |lines| && column <= |lines[line]|
    && value[..i] == Before(lines, line, '\n') + lines[line][..column]
    && st == StateAt(lines, line, column)
  }

  lemma ScanPoint(value: string, i: nat, line: nat, column: nat, st: Lex)
    requires ScannedTo(value, i, line, column, st) && i < |value|
    ensures var lines := Split(value, '\n');
            if column < |lines[line]| then value[i] == lines[line][column] && value[i] != '\n'
            else value[i] == '\n' && line + 1 < |lines|
  {
    var lines := Split(value, '\n');
    JoinSplit(value, '\n');
    JoinAt(lines, line, '\n');
    SplitHasNoSep(value, '\n', line);
    var before, after := Before(lines, line, '\n'), After(lines, line + 1, '\n');
    assert value == before + lines[line] + after;
    assert i == |before| + column;
    if column == |lines[line]| {
      assert value[i] == after[0];
    }
  }

  lemma ScanAdvance(value: string, i: nat, line: nat, column: nat, st: Lex)
    requires ScannedTo(value, i, line, column, st) && i < |value| && value[i] != '\n'
    ensures ScannedTo(value, i + 1, line, column + 1, Step(st, value[i]))
  {
    var lines := Split(value, '\n');
    ScanPoint(value, i, line, column, st);
    StateAtStep(lines, line, column);
    assert value[..i + 1] == value[..i] + [value[i]];
    assert lines[line][..column + 1] == lines[line][..column] + [lines[line][column]];
  }

  lemma ScanNewLine(value: string, i: nat, line: nat, column: nat, st: Lex)
    requires ScannedTo(value, i, line, column, st) && i < |value| && value[i] == '\n'
    ensures ScannedTo(value, i + 1, line + 1, 0, Step(st, '\n'))
  {
    var lines := Split(value, '\n');
    ScanPoint(value, i, line, column, st);
    LineStartStep(lines, line);
    assert lines[line][..column] == lines[line];
    assert value[..i + 1] == value[..i] + [value[i]];
    assert lines[line + 1][..0] == [];
  }

  /** The comments seen once the scan reached `(line, column)` in state `st`. */
  ghost predicate CommentsSeen(lines: seq<string>, comments: map<int, int>, line: nat, column: nat, st: Lex)
    requires line < |lines| && column <= |lines[line]|
  {
    && (forall k | k in comments :: 0 <= k <= line && comments[k] >= 0)
    && (forall k: nat | k < line :: CommentAt(lines, k) == Lookup(comments, k))
    && (if line in comments
        then st.comment && CommentAt(lines, line) == Lookup(comments, line)
        else CommentAt(lines, line) == CommentColumn(st, lines[line], column))
  }

  function Lookup(comments: map<int, int>, k: int): Column {
    if k in comments && comments[k] >= 0 then CommentFrom(comments[k]) else NoComment
  }

  lemma CommentsAdvance(value: string, i: nat, line: nat, column: nat, st: Lex, comments: map<int, int>)
    requires ScannedTo(value, i, line, column, st) && i < |value|
    requires CommentsSeen(Split(value, '\n'), comments, line, column, st)
    ensures var lines := Split(value, '\n');
            var now := if IsCommentStart(st, value[i]) then comments[line := column] else comments;
            if value[i] == '\n'
            then line + 1 < |lines| && CommentsSeen(lines, now, line + 1, 0, Step(st, '\n'))
            else column + 1 <= |lines[line]| && CommentsSeen(lines, now, line, column + 1, Step(st, value[i]))
  {
    hide Split;
    ScanPoint(value, i, line, column, st);
    if value[i] == '\n' {
      ScanNewLine(value, i, line, column, st);
      var lines := Split(value, '\n');
      assert Run(LineStart(lines, line + 1), lines[line + 1][..0]) == LineStart(lines, line + 1);
    }
  }

  /** The operators `op` seen once the scan reached `(line, column)`. */
  ghost predicate OperatorsSeen(lines: seq<string>, found: set<(int, int)>, line: nat, column: nat, op: char) {
    forall k, c :: (k, c) in found <==> Earlier(k, c, line, column) && OperatorAt(lines, k, c, op)
  }

  lemma OperatorsAdvance(value: string, i: nat, line: nat, column: nat, st: Lex, found: set<(int, int)>, op: char)
    requires ScannedTo(value, i, line, column, st) && i < |value| && op != '\n'
    requires OperatorsSeen(Split(value, '\n'), found, line, column, op)
    ensures var now := if IsOperator(st, value[i], op) then found + {(line, column)} else found;
            if value[i] == '\n' then OperatorsSeen(Split(value, '\n'), now, line + 1, 0, op)
            else OperatorsSeen(Split(value, '\n'), now, line, column + 1, op)
  {
    hide Run, Step, IsSpace, Split;
    ScanPoint(value, i, line, column, st);
  }

  /**
    `_shell_token_positions`: one pass over the characters, with a line and a column counter. Every recorded
    position is exactly one that the line-by-line reading of the text gives.
   */
  method ShellTokenPositions(value: string)
    returns (comments: map<int, int>, semicolons: set<(int, int)>, ampersands: set<(int, int)>)
    ensures semicolons == OperatorPositions(Split(value, '\n'), ';')
    ensures ampersands == OperatorPositions(Split(value, '\n'), '&')
    ensures forall k | k in comments :: 0 <= k < |Split(value, '\n')| && comments[k] >= 0
    ensures forall k: nat | k < |Split(value, '\n')| :: CommentAt(Split(value, '\n'), k) == Lookup(comments, k)
  {
    hide OperatorPositions, Split;
    ghost var lines := Split(value, '\n');
    var single, double, escaped, wordStart, comment := false, false, false, true, false;
    var line, column := 0, 0;
    comments, semicolons, ampersands := map[], {}, {};
    assert lines[0][..0] == [];
    for i := 0 to |value|
      invariant line >= 0 && column >= 0
      invariant ScannedTo(value, i, line, column, Lex(single, double, escaped, wordStart, comment))
      invariant CommentsSeen(lines, comments, line, column, Lex(single, double, escaped, wordStart, comment))
      invariant OperatorsSeen(lines, semicolons, line, column, ';')
      invariant OperatorsSeen(lines, ampersands, line, column, '&')
    {
      var character := value[i];
      ghost var st := Lex(single, double, escaped, wordStart, comment);
      CommentsAdvance(value, i, line, column, st, comments);
      OperatorsAdvance(value, i, line, column, st, semicolons, ';');
      OperatorsAdvance(value, i, line, column, st, ampersands, '&');
      if character == '\n' {
        ScanNewLine(value, i, line, column, st);
      } else {
        ScanAdvance(value, i, line, column, st);
      }
      if comment {
        if character == '\n' {
          comment := false;
          wordStart := true;
        }
      } else if escaped {
        escaped := false;
        if character != '\n' { wordStart := false; }
      } else if single {
        if character == '\'' { single := false; }
      } else if double {
        if character == '"' {
          double := false;
        } else if character == '\\' {
          escaped := true;
        }
      } else if character == '\\' {
        escaped := true;
      } else if character == '\'' {
        single := true;
        wordStart := false;
      } else if character == '"' {
        double := true;
        wordStart := false;
      } else if character == '\n' || IsSpace(character) {
        wordStart := true;
      } else if character == ';' {
        semicolons := semicolons + {(line, column)};
        wordStart := true;
      } else if character == '&' {
        ampersands := ampersands + {(line, column)};
        wordStart := true;
      } else if character in "|()<>" {
        wordStart := true;
      } else if character == '#' && wordStart {
        comment := true;
        comments := comments[line := column];
      } else {
        wordStart := false;
      }
      if character == '\n' {
        line := line + 1;
        column := 0;
      } else {
        column := column + 1;
      }
    }
    ScanEnds(value, line, column, Lex(single, double, escaped, wordStart, comment));
    OperatorsComplete(lines, semicolons, ';');
    OperatorsComplete(lines, ampersands, '&');
  }

  lemma OperatorsComplete(lines: seq<string>, found: set<(int, int)>, op: char)
    requires |lines| > 0 && OperatorsSeen(lines, found, |lines| - 1, |lines[|lines| - 1]|, op)
    ensures found == OperatorPositions(lines, op)
  {
    forall p: (int, int) ensures p in found <==> p in OperatorPositions(lines, op) {
      var (k, c) := p;
      assert p == (k, c);
      assert (k, c) in found <==> Earlier(k, c, |lines| - 1, |lines[|lines| - 1]|) && OperatorAt(lines, k, c, op);
      assert p in OperatorPositions(lines, op) <==> OperatorAt(lines, k, c, op);
    }
  }

  lemma ScanEnds(value: string, line: nat, column: nat, st: Lex)
    requires ScannedTo(value, |value|, line, column, st)
    ensures line == |Split(value, '\n')| - 1 && column == |Split(value, '\n')[line]|
  {
    var lines := Split(value, '\n');
    JoinSplit(value, '\n');
    JoinAt(lines, line, '\n');
    assert value[..|value|] == value;
    assert |value| == |Before(lines, line, '\n')| + |lines[line]| + |After(lines, line + 1, '\n')|;
  }
}
