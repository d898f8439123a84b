/**
 * Python's `list.sort` / `sorted` with a key: a stable sort. Modelled as an
 * insertion sort by a comparison `le` ("a may come before b"), proved to
 * permute its input and, for a total preorder, to order it. `sorted(set)`
 * of strings is a method that takes out the least remaining string each time.
 */
module Sorting {
  import opened Text

  ghost predicate Total<T(!new)>(le: (T, T) -> bool) {
    forall a, b :: le(a, b) || le(b, a)
  }

  ghost predicate Transitive<T(!new)>(le: (T, T) -> bool) {
    forall a, b, c :: le(a, b) && le(b, c) ==> le(a, c)
  }

  predicate SortedBy<T>(s: seq<T>, le: (T, T) -> bool) {
    forall i, j :: 0 <= i < j < |s| ==> le(s[i], s[j])
  }

  /** Inserts `x` in front of the first element it may precede, so that `x`
      stays ahead of every element equivalent to it. */
  function Insert<T>(x: T, s: seq<T>, le: (T, T) -> bool): (r: seq<T>)
    ensures |r| == |s| + 1
    ensures multiset(r) == multiset(s) + multiset{x}
  {
    if s == [] || le(x, s[0]) then [x] + s
    else
      assert s == [s[0]] + s[1..];
      [s[0]] + Insert(x, s[1..], le)
  }

  /** A stable sort: elements that compare equal keep their input order. */
  function SortBy<T>(s: seq<T>, le: (T, T) -> bool): (r: seq<T>)
    ensures |r| == |s|
    ensures multiset(r) == multiset(s)
  {
    if s == [] then []
    else
      assert s == [s[0]] + s[1..];
      Insert(s[0], SortBy(s[1..], le), le)
  }

  lemma {:induction false} InsertSorted<T(!new)>(x: T, s: seq<T>, le: (T, T) -> bool)
    requires Total(le) && Transitive(le)
    requires SortedBy(s, le)
    ensures SortedBy(Insert(x, s, le), le)
  {
    if s != [] && !le(x, s[0]) {
      var tail := Insert(x, s[1..], le);
      InsertSorted(x, s[1..], le);
      forall y | y in tail ensures le(s[0], y) {
        assert y in multiset(tail);
        if y != x {
          assert y in multiset(s[1..]);
          var j :| 0 <= j < |s[1..]| && s[1..][j] == y;
          assert s[j + 1] == y;
        }
      }
      assert Insert(x, s, le) == [s[0]] + tail;
    }
  }

  lemma {:induction false} SortBySorted<T(!new)>(s: seq<T>, le: (T, T) -> bool)
    requires Total(le) && Transitive(le)
    ensures SortedBy(SortBy(s, le), le)
  {
    if s != [] {
      SortBySorted(s[1..], le);
      InsertSorted(s[0], SortBy(s[1..], le), le);
    }
  }

  /** `a` and `b` have equal sort keys. */
  predicate Equivalent<T>(a: T, b: T, le: (T, T) -> bool) {
    le(a, b) && le(b, a)
  }

  /** The elements of `s` whose key equals that of `x`, in order. */
  function SameKey<T>(s: seq<T>, x: T, le: (T, T) -> bool): seq<T> {
    if s == [] then []
    else (if Equivalent(s[0], x, le) then [s[0]] else []) + SameKey(s[1..], x, le)
  }

  lemma SameKeyCons<T>(h: T, t: seq<T>, x: T, le: (T, T) -> bool)
    ensures SameKey([h] + t, x, le) == (if Equivalent(h, x, le) then [h] else []) + SameKey(t, x, le)
  {
    assert ([h] + t)[1..] == t;
  }

  lemma {:induction false} SameKeyInsert<T(!new)>(y: T, s: seq<T>, x: T, le: (T, T) -> bool)
    requires Transitive(le)
    ensures SameKey(Insert(y, s, le), x, le) == (if Equivalent(y, x, le) then [y] else []) + SameKey(s, x, le)
  {
    if s == [] || le(y, s[0]) {
      SameKeyCons(y, s, x, le);
    } else {
      var t := Insert(y, s[1..], le);
      var rest := SameKey(s[1..], x, le);
      var ey := if Equivalent(y, x, le) then [y] else [];
      var e0 := if Equivalent(s[0], x, le) then [s[0]] else [];
      assert Equivalent(y, x, le) ==> !Equivalent(s[0], x, le);
      calc {
        SameKey(Insert(y, s, le), x, le);
        { assert Insert(y, s, le) == [s[0]] + t; }
        SameKey([s[0]] + t, x, le);
        { SameKeyCons(s[0], t, x, le); }
        e0 + SameKey(t, x, le);
        { SameKeyInsert(y, s[1..], x, le); }
        e0 + (ey + rest);
        { SwapSingles(e0, ey, rest); }
        ey + (e0 + rest);
        { SameKeyCons(s[0], s[1..], x, le); assert s == [s[0]] + s[1..]; }
        ey + SameKey(s, x, le);
      }
    }
  }

  lemma SwapSingles<T>(a: seq<T>, b: seq<T>, rest: seq<T>)
    requires a == [] || b == []
    ensures a + (b + rest) == b + (a + rest)
  {
    if a == [] {
      assert a + (b + rest) == b + rest == b + (a + rest);
    } else {
      assert a + (b + rest) == a + rest == b + (a + rest);
    }
  }

  /** The sort is stable: the elements of any one key keep their input order. */
  lemma {:induction false} SortByStable<T(!new)>(s: seq<T>, x: T, le: (T, T) -> bool)
    requires Transitive(le)
    ensures SameKey(SortBy(s, le), x, le) == SameKey(s, x, le)
  {
    if s != [] {
      SortByStable(s[1..], x, le);
      SameKeyInsert(s[0], SortBy(s[1..], le), x, le);
    }
  }

  // ------------------------------------------------------- sorted(set of str)

  predicate StrictlyAscending(s: seq<string>) {
    forall i, j :: 0 <= i < j < |s| ==> LexLe(s[i], s[j]) && s[i] != s[j]
  }

  /** A least string of a non-empty set. */
  lemma {:induction false} LeastOf(s: set<string>) returns (m: string)
    requires s != {}
    ensures m in s && forall y :: y in s ==> LexLe(m, y)
    decreases |s|
  {
    var a :| a in s;
    LexLeTotal(a, a);
    if s == {a} {
      m := a;
    } else {
      var least := LeastOf(s - {a});
      LexLeTotal(a, least);
      if LexLe(a, least) {
        m := a;
        forall y | y in s ensures LexLe(a, y) {
          if y != a { LexLeTransitive(a, least, y); }
        }
      } else {
        m := least;
      }
    }
  }

  /** `sorted(s)` for a set of strings: ascending, no duplicates, exactly the set. */
  method SortedStrings(s: set<string>) returns (out: seq<string>)
    ensures StrictlyAscending(out)
    ensures forall x :: x in out <==> x in s
    ensures |out| == |s|
  {
    out := [];
    var rest := s;
    while rest != {}
      invariant rest <= s
      invariant forall x :: x in out <==> x in s && x !in rest
      invariant StrictlyAscending(out)
      invariant forall i, y :: 0 <= i < |out| && y in rest ==> LexLe(out[i], y) && out[i] != y
      invariant |out| + |rest| == |s|
      decreases |rest|
    {
      ghost var least := LeastOf(rest);
      var m :| m in rest && forall y :: y in rest ==> LexLe(m, y);
      forall i, y | 0 <= i < |out| && y in rest - {m}
        ensures LexLe(out[i], y) && out[i] != y
      {
        LexLeTransitive(out[i], m, y);
        if out[i] == y { LexLeAntisymmetric(m, y); }
      }
      out := out + [m];
      rest := rest - {m};
    }
  }
}
