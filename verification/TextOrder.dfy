/** The order of texts by code points, and sorted lists of names. */
module TextOrder {

  predicate IsHex(c: char) { '0' <= c <= '9' || 'a' <= c <= 'f' }

  predicate Less(a: string, b: string) {
    b != "" && (a == "" || a[0] < b[0] || (a[0] == b[0] && Less(a[1..], b[1..])))
  }

  lemma {:induction false} LessTotal(a: string, b: string)
    ensures a == b || Less(a, b) || Less(b, a)
  {
    if a != "" && b != "" && a[0] == b[0] {
      LessTotal(a[1..], b[1..]);
      assert a == [a[0]] + a[1..] && b == [b[0]] + b[1..];
    }
  }

  lemma {:induction false} LessTransitive(a: string, b: string, c: string)
    requires Less(a, b) && Less(b, c)
    ensures Less(a, c)
  {
    if a != "" && a[0] == b[0] && b[0] == c[0] { LessTransitive(a[1..], b[1..], c[1..]); }
  }

  lemma {:induction false} LessStrict(a: string, b: string)
    requires Less(a, b)
    ensures a != b && !Less(b, a)
  {
    if a != "" && a[0] == b[0] { LessStrict(a[1..], b[1..]); }
  }

  lemma {:induction false} LessLonger(a: string, b: string, more: string)
    requires Less(a, b)
    ensures Less(a, b + more)
  {
    if a != "" && a[0] == b[0] {
      LessLonger(a[1..], b[1..], more);
      assert (b + more)[1..] == b[1..] + more;
    }
  }

  lemma {:induction false} LessInFront(a: string, b: string, x: string, y: string)
    requires Less(a, b) && |a| == |b|
    ensures Less(a + x, b + y)
  {
    if a[0] == b[0] {
      LessInFront(a[1..], b[1..], x, y);
      assert (a + x)[1..] == a[1..] + x && (b + y)[1..] == b[1..] + y;
    }
  }

  /** Among hexadecimal texts of one length the one of the highest digits comes last. */
  lemma {:induction false} HighestHex(a: string, b: string)
    requires |a| == |b| && a != b && forall i | 0 <= i < |a| :: IsHex(a[i]) && b[i] == 'f'
    ensures Less(a, b)
  {
    assert IsHex(a[0]) && b[0] == 'f';
    if a[0] == b[0] {
      assert a == [a[0]] + a[1..] && b == [b[0]] + b[1..];
      HighestHex(a[1..], b[1..]);
    }
  }

  lemma {:induction false} LessAfterPrefix(prefix: string, x: string, y: string)
    requires Less(x, y)
    ensures Less(prefix + x, prefix + y)
  {
    if prefix == "" { assert prefix + x == x && prefix + y == y; }
    else {
      LessAfterPrefix(prefix[1..], x, y);
      assert (prefix + x)[1..] == prefix[1..] + x && (prefix + y)[1..] == prefix[1..] + y;
    }
  }

  predicate Sorted(names: seq<string>) { forall i, j | 0 <= i < j < |names| :: Less(names[i], names[j]) }

  function Insert(names: seq<string>, x: string): seq<string> {
    if names == [] || Less(x, names[0]) then [x] + names else [names[0]] + Insert(names[1..], x)
  }

  lemma {:induction false} InsertHolds(names: seq<string>, x: string)
    requires Sorted(names) && x !in names
    ensures Sorted(Insert(names, x)) && forall y :: y in Insert(names, x) <==> y == x || y in names
  {
    if names != [] {
      LessTotal(x, names[0]);
      if Less(x, names[0]) {
        forall i | 0 < i < |names| ensures Less(x, names[i]) { LessTransitive(x, names[0], names[i]); }
      } else {
        var rest := Insert(names[1..], x);
        InsertHolds(names[1..], x);
        assert names == [names[0]] + names[1..];
        assert forall i | 0 <= i < |rest| :: rest[i] in rest;
        assert forall y | y in names[1..] :: Less(names[0], y);
      }
    }
  }

  lemma SortedTail(names: seq<string>)
    requires Sorted(names) && names != []
    ensures Sorted(names[1..]) && names[0] !in names[1..]
  {
    forall i | 0 < i < |names| ensures names[i] != names[0] { LessStrict(names[0], names[i]); }
  }

  /** There is only one sorted list of the same names. */
  lemma {:induction false} SortedUnique(a: seq<string>, b: seq<string>)
    requires Sorted(a) && Sorted(b) && forall x :: x in a <==> x in b
    ensures a == b
  {
    if a != [] || b != [] {
      if a != [] { assert a[0] in a; }
      if b != [] { assert b[0] in b; }
      FirstIsLeast(a, b[0]);
      FirstIsLeast(b, a[0]);
      if a[0] != b[0] { LessStrict(a[0], b[0]); }
      SortedTail(a);
      SortedTail(b);
      assert a == [a[0]] + a[1..] && b == [b[0]] + b[1..];
      forall x ensures x in a[1..] <==> x in b[1..] {
        assert x in a <==> x == a[0] || x in a[1..];
        assert x in b <==> x == b[0] || x in b[1..];
      }
      SortedUnique(a[1..], b[1..]);
    }
  }

  lemma FirstIsLeast(names: seq<string>, x: string)
    requires Sorted(names) && x in names
    ensures names[0] == x || Less(names[0], x)
  {
    var i :| 0 <= i < |names| && names[i] == x;
  }
}
