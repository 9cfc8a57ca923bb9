/** The backward reader of the audit log, `_iter_log_lines_newest_first` in `app/audit_logger.py`. */
module LogReader {

  import opened Lines

  type Byte = bv8

  const NEWLINE: Byte := 10

  function Reversed<T>(s: seq<T>): seq<T> { if s == [] then [] else Reversed(s[1..]) + [s[0]] }

  function NonEmpty(lines: seq<seq<Byte>>): seq<seq<Byte>> {
    if lines == [] then [] else (if lines[0] == [] then [] else [lines[0]]) + NonEmpty(lines[1..])
  }

  /** What a reader of the whole file would yield: its non-empty lines, newest first. */
  function NewestFirst(content: seq<Byte>): seq<seq<Byte>> { Reversed(NonEmpty(Split(content, NEWLINE))) }

  lemma {:induction false} ReversedAppend<T>(a: seq<T>, b: seq<T>)
    ensures Reversed(a + b) == Reversed(b) + Reversed(a)
  {
    if a == [] { assert a + b == b; }
    else {
      ReversedAppend(a[1..], b);
      assert (a + b)[1..] == a[1..] + b;
    }
  }

  lemma NonEmptyCons(line: seq<Byte>, rest: seq<seq<Byte>>)
    ensures NonEmpty([line] + rest) == (if line == [] then [] else [line]) + NonEmpty(rest)
  {
    assert ([line] + rest)[1..] == rest;
  }

  lemma HeadFirst(a: seq<seq<Byte>>, b: seq<seq<Byte>>)
    requires a != []
    ensures a == [a[0]] + a[1..] && a + b == [a[0]] + (a[1..] + b)
  {
  }

  lemma Regroup(a: seq<seq<Byte>>, b: seq<seq<Byte>>, c: seq<seq<Byte>>)
    ensures a + (b + c) == a + b + c
  {
  }

  lemma {:induction false} NonEmptyAppend(a: seq<seq<Byte>>, b: seq<seq<Byte>>)
    ensures NonEmpty(a + b) == NonEmpty(a) + NonEmpty(b)
  {
    if a == [] { assert a + b == b; }
    else {
      hide NonEmpty;
      HeadFirst(a, b);
      NonEmptyAppend(a[1..], b);
      NonEmptyCons(a[0], a[1..]);
      NonEmptyCons(a[0], a[1..] + b);
      Regroup(if a[0] == [] then [] else [a[0]], NonEmpty(a[1..]), NonEmpty(b));
    }
  }

  /** Two lists of pieces with the last of the one running on into the first of the other. */
  function Glue(front: seq<seq<Byte>>, rest: seq<seq<Byte>>): seq<seq<Byte>>
    requires front != [] && rest != []
  {
    front[..|front| - 1] + [front[|front| - 1] + rest[0]] + rest[1..]
  }

  lemma GlueGrowHead(c: Byte, front: seq<seq<Byte>>, rest: seq<seq<Byte>>)
    requires front != [] && rest != []
    ensures Glue([[c] + front[0]] + front[1..], rest) == [[c] + Glue(front, rest)[0]] + Glue(front, rest)[1..]
  {
    if |front| == 1 { assert [c] + (front[0] + rest[0]) == [c] + front[0] + rest[0]; }
  }

  lemma GlueCons(front: seq<seq<Byte>>, rest: seq<seq<Byte>>)
    requires front != [] && rest != []
    ensures Glue([[]] + front, rest) == [[]] + Glue(front, rest)
  {
  }

  /** The lines of a text are those of its front with the last one running on into the rest. */
  lemma {:induction false} SplitAppend(a: seq<Byte>, b: seq<Byte>)
    ensures Split(a + b, NEWLINE) == Glue(Split(a, NEWLINE), Split(b, NEWLINE))
  {
    var rest := Split(b, NEWLINE);
    if a == [] {
      assert a + b == b;
      assert [] + rest[0] == rest[0] && [rest[0]] + rest[1..] == rest;
    } else {
      SplitAppend(a[1..], b);
      assert (a + b)[1..] == a[1..] + b && (a + b)[0] == a[0];
      if a[0] == NEWLINE { GlueCons(Split(a[1..], NEWLINE), rest); }
        else { GlueGrowHead(a[0], Split(a[1..], NEWLINE), rest); }
      hide Glue;
    }
  }

  /** Reading goes on to the left: what is yielded so far, then the lines of what is left and the pending piece. */
  lemma StepLeft(front: seq<Byte>, chunk: seq<Byte>, pending: seq<Byte>)
    requires NEWLINE !in pending
    ensures var parts := Split(chunk + pending, NEWLINE);
            && NEWLINE !in parts[0]
            && NewestFirst(front + chunk + pending) == Reversed(NonEmpty(parts[1..])) + NewestFirst(front + parts[0])
  {
    var parts := Split(chunk + pending, NEWLINE);
    var head := Split(front, NEWLINE);
    SplitHasNoSep(chunk + pending, NEWLINE, 0);
    SplitAppend(front, chunk + pending);
    assert front + chunk + pending == front + (chunk + pending);
    SplitAppend(front, parts[0]);
    SplitWhole(parts[0], NEWLINE);
    var lines := head[..|head| - 1] + [head[|head| - 1] + parts[0]];
    assert Split(front + parts[0], NEWLINE) == lines;
    NonEmptyAppend(lines, parts[1..]);
    ReversedAppend(NonEmpty(lines), NonEmpty(parts[1..]));
  }

  /** For every content and every chunk size the reader yields exactly the non-empty lines, newest first. */
  method IterLogLinesNewestFirst(content: seq<Byte>, chunkSize: nat) returns (yielded: seq<seq<Byte>>)
    requires chunkSize >= 1
    ensures yielded == NewestFirst(content)
  {
    hide NewestFirst;
    var position, pending := |content|, [];
    yielded := [];
    assert content[..position] + pending == content;
    while position > 0
      invariant 0 <= position <= |content| && NEWLINE !in pending
      invariant NewestFirst(content) == yielded + NewestFirst(content[..position] + pending)
    {
      var size := if chunkSize <= position then chunkSize else position;
      position := position - size;
      var chunk := content[position..position + size];
      assert content[..position + size] == content[..position] + chunk;
      StepLeft(content[..position], chunk, pending);
      var parts := Split(chunk + pending, NEWLINE);
      pending := parts[0];
      var lines := YieldReversed(parts[1..]);
      yielded := yielded + lines;
    }
    assert content[..0] + pending == pending;
    OneLine(pending);
    if pending != [] { yielded := yielded + [pending]; }
  }

  method YieldReversed(parts: seq<seq<Byte>>) returns (lines: seq<seq<Byte>>)
    ensures lines == Reversed(NonEmpty(parts))
  {
    lines := [];
    var i := |parts|;
    while i > 0
      invariant 0 <= i <= |parts| && lines == Reversed(NonEmpty(parts[i..]))
    {
      i := i - 1;
      assert parts[i..] == [parts[i]] + parts[i + 1..];
      NonEmptyAppend([parts[i]], parts[i + 1..]);
      ReversedAppend(NonEmpty([parts[i]]), NonEmpty(parts[i + 1..]));
      if parts[i] != [] { lines := lines + [parts[i]]; }
    }
  }

  lemma OneLine(pending: seq<Byte>)
    requires NEWLINE !in pending
    ensures NewestFirst(pending) == if pending == [] then [] else [pending]
  {
    SplitWhole(pending, NEWLINE);
    NonEmptyCons(pending, []);
    assert [pending] + [] == [pending];
    if pending != [] { assert Reversed([pending]) == [pending]; }
  }

  /** At these places, each later than the next, and at no others. */
  predicate Falling(at: seq<nat>) { forall i, j | 0 <= i < j < |at| :: at[i] > at[j] }

  /** The non-empty lines from line `k` on, with their places, newest first. */
  lemma {:induction false} PlacesFrom(lines: seq<seq<Byte>>, k: nat) returns (at: seq<nat>)
    requires k <= |lines|
    ensures |at| == |Reversed(NonEmpty(lines[k..]))| && Falling(at)
    ensures forall i | 0 <= i < |at| :: k <= at[i] < |lines| && lines[at[i]] == Reversed(NonEmpty(lines[k..]))[i]
    ensures forall n: nat | k <= n < |lines| :: lines[n] != [] <==> n in at
    decreases |lines| - k
  {
    hide Reversed, NonEmpty;
    if k == |lines| {
      at := [];
      NothingNewest(lines[k..]);
    } else {
      at := PlacesFrom(lines, k + 1);
      assert lines[k..] == [lines[k]] + lines[k + 1..];
      NewestLast(lines[k], lines[k + 1..]);
      if lines[k] != [] { at := at + [k]; }
    }
  }

  lemma NothingNewest(lines: seq<seq<Byte>>)
    requires lines == []
    ensures Reversed(NonEmpty(lines)) == []
  {
  }

  lemma NewestLast(line: seq<Byte>, rest: seq<seq<Byte>>)
    ensures Reversed(NonEmpty([line] + rest))
         == Reversed(NonEmpty(rest)) + if line == [] then [] else [line]
  {
    var head := if line == [] then [] else [line];
    NonEmptyCons(line, rest);
    ReversedAppend(head, NonEmpty(rest));
    if line != [] { ReversedOne(line); }
  }

  lemma ReversedOne(line: seq<Byte>)
    ensures Reversed([line]) == [line]
  {
    assert [line][1..] == [];
  }

  /**
    What is yielded are the lines at falling places of the file: every one that is not empty, once, and no other.
    The lines themselves are the pieces without a newline that the file joins with newlines.
   */
  lemma NewestFirstMeaning(content: seq<Byte>) returns (lines: seq<seq<Byte>>, at: seq<nat>)
    ensures lines != [] && Join(lines, NEWLINE) == content && forall k | 0 <= k < |lines| :: NEWLINE !in lines[k]
    ensures |at| == |NewestFirst(content)| && Falling(at)
    ensures forall i | 0 <= i < |at| :: at[i] < |lines| && NewestFirst(content)[i] == lines[at[i]]
    ensures forall n: nat | n < |lines| :: lines[n] != [] <==> n in at
  {
    lines := Split(content, NEWLINE);
    JoinSplit(content, NEWLINE);
    forall k | 0 <= k < |lines| ensures NEWLINE !in lines[k] { SplitHasNoSep(content, NEWLINE, k); }
    at := PlacesFrom(lines, 0);
    assert lines[0..] == lines;
  }
}
