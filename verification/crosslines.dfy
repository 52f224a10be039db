/**
 * The sorted coordinate lists from which the grid's cells are cut: the
 * boundary's two sides together with every cross coordinate, sorted
 * ascending as `list.sort` does.
 */
module CrossLines {

  predicate Sorted(s: seq<real>)
  {
    forall i, j :: 0 <= i < j < |s| ==> s[i] <= s[j]
  }

  /** x inserted before the first element not below it. */
  function Insert(x: real, s: seq<real>): (r: seq<real>)
    requires Sorted(s)
    ensures Sorted(r)
    ensures multiset(r) == multiset(s) + multiset{x}
    ensures |r| == |s| + 1
  {
    if s == [] then [x]
    else if x <= s[0] then [x] + s
    else
      assert s == [s[0]] + s[1..];
      var rest := Insert(x, s[1..]);
      InsertBehindHead(s[0], x, s[1..], rest);
      [s[0]] + rest
  }

  /** Every element of rest is x or one of t, so none is below h. */
  lemma InsertBehindHead(h: real, x: real, t: seq<real>, rest: seq<real>)
    requires Sorted([h] + t) && h < x && Sorted(rest) && multiset(rest) == multiset(t) + multiset{x}
    ensures Sorted([h] + rest)
  {
    forall k | 0 <= k < |rest|
      ensures h <= rest[k]
    {
      assert rest[k] in multiset(rest);
      if rest[k] != x {
        assert rest[k] in t;
        var m :| 0 <= m < |t| && t[m] == rest[k];
        assert ([h] + t)[0] == h && ([h] + t)[m + 1] == t[m];
      }
    }
    var r := [h] + rest;
    forall i, j | 0 <= i < j < |r|
      ensures r[i] <= r[j]
    {
      assert r[j] == rest[j - 1];
      if i > 0 {
        assert r[i] == rest[i - 1];
      }
    }
  }

  /** Insertion sort: the ascending arrangement of s. */
  function SortSeq(s: seq<real>): (r: seq<real>)
    ensures Sorted(r)
    ensures multiset(r) == multiset(s)
    ensures |r| == |s|
  {
    if s == [] then []
    else
      assert s == s[..|s| - 1] + [s[|s| - 1]];
      Insert(s[|s| - 1], SortSeq(s[..|s| - 1]))
  }

  /** Two sorted sequences with the same elements are the same sequence. */
  lemma {:induction false} SortedUnique(a: seq<real>, b: seq<real>)
    requires Sorted(a) && Sorted(b) && multiset(a) == multiset(b)
    ensures a == b
  {
    if a != [] {
      SameHead(a, b);
      SortedUnique(a[1..], b[1..]);
      assert a == [a[0]] + a[1..];
      assert b == [b[0]] + b[1..];
    } else {
      assert |b| == |multiset(b)| == 0;
    }
  }

  /**
   * Two non-empty sorted sequences with the same elements start alike, and
   * their tails are sorted with the same elements.
   */
  lemma SameHead(a: seq<real>, b: seq<real>)
    requires Sorted(a) && Sorted(b) && multiset(a) == multiset(b) && a != []
    ensures b != [] && a[0] == b[0]
    ensures Sorted(a[1..]) && Sorted(b[1..]) && multiset(a[1..]) == multiset(b[1..])
  {
    assert |b| == |multiset(a)| == |a|;
    assert b[0] in multiset(a) && a[0] in multiset(b);
    HeadIsLeast(a, b[0]);
    HeadIsLeast(b, a[0]);
    DropHead(a);
    DropHead(b);
  }

  /** The tail of a sorted sequence is sorted and holds the other elements. */
  lemma DropHead(a: seq<real>)
    requires Sorted(a) && a != []
    ensures Sorted(a[1..])
    ensures multiset(a[1..]) == multiset(a) - multiset{a[0]}
  {
    assert a == [a[0]] + a[1..];
  }

  /** The head of a sorted sequence is at most any of its elements. */
  lemma HeadIsLeast(a: seq<real>, x: real)
    requires Sorted(a) && x in multiset(a)
    ensures a[0] <= x
  {
    assert x in a;
  }

  lemma SomeElement(s: set<real>)
    requires s != {}
    ensures exists x :: x in s
  {
    if forall x :: x !in s {
      assert false;
    }
  }

  /** Some enumeration of a finite set, each element once. */
  ghost function SetToSeq(s: set<real>): (r: seq<real>)
    ensures multiset(r) == multiset(s)
    ensures |r| == |s|
    decreases |s|
  {
    if s == {} then []
    else
      SomeElement(s);
      var x :| x in s;
      var rest := SetToSeq(s - {x});
      assert multiset(s) == multiset(s - {x}) + multiset{x};
      [x] + rest
  }

  /**
   * The grid lines along one axis: lo, hi and every element of `cross`,
   * sorted.  Sorting is unique (`SortedUnique`), so this names one list.
   */
  ghost function Lines(lo: real, cross: set<real>, hi: real): (r: seq<real>)
    ensures Sorted(r)
    ensures multiset(r) == multiset{lo, hi} + multiset(cross)
    ensures |r| == |cross| + 2
  {
    LinesExist(lo, cross, hi);
    var r :| Sorted(r) && multiset(r) == multiset{lo, hi} + multiset(cross);
    assert |r| == |multiset(r)| == |cross| + 2 by {
      SetToSeqLength(cross);
    }
    r
  }

  lemma SetToSeqLength(s: set<real>)
    ensures |multiset(s)| == |s|
  {
    var e := SetToSeq(s);
  }

  /** Sorting lo, the elements of `cross` and hi gives such a list. */
  lemma LinesExist(lo: real, cross: set<real>, hi: real)
    ensures exists r :: Sorted(r) && multiset(r) == multiset{lo, hi} + multiset(cross)
  {
    var e := SetToSeq(cross);
    var r := SortSeq([lo] + e + [hi]);
    assert multiset([lo] + e + [hi]) == multiset{lo} + multiset(e) + multiset{hi};
    assert Sorted(r) && multiset(r) == multiset{lo, hi} + multiset(cross);
  }

  /**
   * Sorting lo, any enumeration of `cross`, and hi gives `Lines`: the order
   * in which a set is walked does not matter once the list is sorted.
   */
  lemma SortedEnumerationIsLines(lo: real, enumeration: seq<real>, cross: set<real>, hi: real)
    requires multiset(enumeration) == multiset(cross)
    ensures SortSeq([lo] + enumeration + [hi]) == Lines(lo, cross, hi)
  {
    SortedUnique(SortSeq([lo] + enumeration + [hi]), Lines(lo, cross, hi));
  }

  /** The first line is the least value and the last the greatest; every value is a line. */
  lemma LinesSpan(lo: real, cross: set<real>, hi: real)
    ensures var r := Lines(lo, cross, hi);
            lo in r && hi in r && (forall c :: c in cross ==> c in r) &&
            (forall k :: 0 <= k < |r| ==> r[0] <= r[k] <= r[|r| - 1])
  {
    var r := Lines(lo, cross, hi);
    assert lo in multiset(r) && hi in multiset(r);
    forall c | c in cross
      ensures c in r
    {
      assert c in multiset(r);
    }
  }

  /** The outer lines lie at or beyond lo and hi. */
  lemma LinesBracket(lo: real, cross: set<real>, hi: real)
    ensures var r := Lines(lo, cross, hi); r[0] <= lo && hi <= r[|r| - 1]
  {
    LinesSpan(lo, cross, hi);
  }
}
