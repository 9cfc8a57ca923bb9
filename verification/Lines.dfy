/** Splitting a text on a separator, and putting the pieces back together. */
module Lines {

  /** The pieces of `s` between occurrences of `sep`; never empty, like Python's `str.split(sep)`. */
  function Split<T(==)>(s: seq<T>, sep: T): (pieces: seq<seq<T>>)
    ensures |pieces| > 0
  {
    if s == [] then [[]]
    else
      var rest := Split(s[1..], sep);
      if s[0] == sep then [[]] + rest else [[s[0]] + rest[0]] + rest[1..]
  }

  /** The first `k` pieces, each followed by the separator. */
  function Before<T>(pieces: seq<seq<T>>, k: nat, sep: T): seq<T>
    requires k <= |pieces|
  {
    if k == 0 then [] else Before(pieces, k - 1, sep) + pieces[k - 1] + [sep]
  }

  /** The pieces from `k` on, each preceded by the separator. */
  function After<T>(pieces: seq<seq<T>>, k: nat, sep: T): seq<T>
    decreases |pieces| - k
  {
    if k >= |pieces| then [] else [sep] + pieces[k] + After(pieces, k + 1, sep)
  }

  function Join<T>(pieces: seq<seq<T>>, sep: T): seq<T>
    requires |pieces| > 0
  {
    pieces[0] + After(pieces, 1, sep)
  }

  lemma {:induction false} AfterCons<T>(x: seq<T>, rest: seq<seq<T>>, k: nat, sep: T)
    ensures After([x] + rest, k + 1, sep) == After(rest, k, sep)
    decreases |rest| - k
  {
    if k < |rest| {
      AfterCons(x, rest, k + 1, sep);
    }
  }

  lemma AfterZero<T>(pieces: seq<seq<T>>, sep: T)
    requires |pieces| > 0
    ensures After(pieces, 0, sep) == [sep] + pieces[0] + After(pieces, 1, sep)
  {
  }

  lemma JoinCons<T>(x: seq<T>, rest: seq<seq<T>>, sep: T)
    requires |rest| > 0
    ensures Join([x] + rest, sep) == x + ([sep] + Join(rest, sep))
  {
    hide After;
    AfterCons(x, rest, 0, sep);
    AfterZero(rest, sep);
    assert [sep] + rest[0] + After(rest, 1, sep) == [sep] + (rest[0] + After(rest, 1, sep));
  }

  lemma JoinGrowHead<T>(c: T, head: seq<T>, rest: seq<seq<T>>, sep: T)
    ensures Join([[c] + head] + rest, sep) == [c] + Join([head] + rest, sep)
  {
    AfterCons([c] + head, rest, 0, sep);
    AfterCons(head, rest, 0, sep);
    assert ([c] + head) + After(rest, 0, sep) == [c] + (head + After(rest, 0, sep));
  }

  /** `Split` loses nothing: joining its pieces gives the text back. */
  lemma {:induction false} JoinSplit<T>(s: seq<T>, sep: T)
    ensures Join(Split(s, sep), sep) == s
  {
    if s != [] {
      var rest := Split(s[1..], sep);
      JoinSplit(s[1..], sep);
      if s[0] == sep {
        JoinCons([], rest, sep);
      } else {
        JoinGrowHead(s[0], rest[0], rest[1..], sep);
        assert [rest[0]] + rest[1..] == rest;
      }
    }
  }

  /** No piece contains the separator. */
  lemma {:induction false} SplitHasNoSep<T>(s: seq<T>, sep: T, k: nat)
    requires k < |Split(s, sep)|
    ensures sep !in Split(s, sep)[k]
  {
    if s != [] {
      var rest := Split(s[1..], sep);
      if s[0] == sep {
        if k > 0 { SplitHasNoSep(s[1..], sep, k - 1); }
      } else {
        SplitHasNoSep(s[1..], sep, k);
      }
    }
  }

  /** A joined text can be cut at any piece. */
  lemma {:induction false} JoinAt<T>(pieces: seq<seq<T>>, k: nat, sep: T)
    requires k < |pieces|
    ensures Join(pieces, sep) == Before(pieces, k, sep) + pieces[k] + After(pieces, k + 1, sep)
  {
    if k == 0 {
      assert Before(pieces, 0, sep) + pieces[0] == pieces[0];
    } else {
      JoinAt(pieces, k - 1, sep);
      calc {
        Join(pieces, sep);
        Before(pieces, k - 1, sep) + pieces[k - 1] + ([sep] + pieces[k] + After(pieces, k + 1, sep));
        Before(pieces, k - 1, sep) + pieces[k - 1] + [sep] + pieces[k] + After(pieces, k + 1, sep);
      }
    }
  }

  lemma {:induction false} BeforeIgnoresLater<T>(a: seq<seq<T>>, b: seq<seq<T>>, k: nat, sep: T)
    requires k <= |a| && k <= |b| && a[..k] == b[..k]
    ensures Before(a, k, sep) == Before(b, k, sep)
  {
    if k > 0 {
      assert a[..k - 1] == a[..k][..k - 1] && b[..k - 1] == b[..k][..k - 1];
      assert a[k - 1] == a[..k][k - 1] && b[k - 1] == b[..k][k - 1];
      BeforeIgnoresLater(a, b, k - 1, sep);
    }
  }

  lemma {:induction false} AfterIgnoresEarlier<T>(a: seq<seq<T>>, b: seq<seq<T>>, k: nat, sep: T)
    requires |a| == |b| && k <= |a| && a[k..] == b[k..]
    ensures After(a, k, sep) == After(b, k, sep)
    decreases |a| - k
  {
    if k < |a| {
      assert a[k] == a[k..][0] && b[k] == b[k..][0];
      assert a[k + 1..] == a[k..][1..] && b[k + 1..] == b[k..][1..];
      AfterIgnoresEarlier(a, b, k + 1, sep);
    }
  }

  /** Replacing one piece changes the joined text only there. */
  lemma JoinUpdate<T>(pieces: seq<seq<T>>, k: nat, piece: seq<T>, sep: T)
    requires k < |pieces|
    ensures Join(pieces[k := piece], sep) == Before(pieces, k, sep) + piece + After(pieces, k + 1, sep)
  {
    var changed := pieces[k := piece];
    JoinAt(changed, k, sep);
    BeforeIgnoresLater(changed, pieces, k, sep);
    AfterIgnoresEarlier(changed, pieces, k + 1, sep);
  }

  lemma {:induction false} SplitGlue<T>(x: seq<T>, tail: seq<T>, sep: T)
    requires sep !in x
    ensures Split(x + [sep] + tail, sep) == [x] + Split(tail, sep)
  {
    var s := x + [sep] + tail;
    if x == [] {
      assert s[1..] == tail;
    } else {
      SplitGlue(x[1..], tail, sep);
      assert s[1..] == x[1..] + [sep] + tail;
      assert [s[0]] + x[1..] == x;
    }
  }

  lemma {:induction false} SplitWhole<T>(x: seq<T>, sep: T)
    requires sep !in x
    ensures Split(x, sep) == [x]
  {
    if x != [] {
      SplitWhole(x[1..], sep);
      assert [x[0]] + x[1..] == x;
    }
  }

  /** Joining then splitting gives the pieces back. */
  lemma {:induction false} SplitJoin<T>(pieces: seq<seq<T>>, sep: T)
    requires |pieces| > 0 && forall i | 0 <= i < |pieces| :: sep !in pieces[i]
    ensures Split(Join(pieces, sep), sep) == pieces
  {
    assert pieces == [pieces[0]] + pieces[1..];
    if |pieces| == 1 {
      assert Join(pieces, sep) == pieces[0];
      SplitWhole(pieces[0], sep);
    } else {
      SplitJoin(pieces[1..], sep);
      JoinCons(pieces[0], pieces[1..], sep);
      var tail := Join(pieces[1..], sep);
      assert pieces[0] + ([sep] + tail) == pieces[0] + [sep] + tail;
      SplitGlue(pieces[0], tail, sep);
    }
  }
}
