/**
  List comprehensions with a condition, and Python's `sorted` on strings: strings
  compare code point by code point, and a proper prefix sorts first.
*/
module Seqs {

  /** `[x for x in xs if p(x)]`. */
  function Filter<T>(xs: seq<T>, p: T -> bool): (r: seq<T>)
    ensures |r| <= |xs|
    ensures forall i :: 0 <= i < |r| ==> p(r[i])
  {
    if xs == [] then []
    else
      var init := Filter(xs[..|xs| - 1], p);
      var last := xs[|xs| - 1];
      init + (if p(last) then [last] else [])
  }

  /** The filtered list holds exactly the elements of `xs` that satisfy `p`. */
  lemma {:induction false} FilterMembers<T(!new)>(xs: seq<T>, p: T -> bool)
    ensures forall x :: x in Filter(xs, p) <==> x in xs && p(x)
  {
    if xs != [] {
      var init := xs[..|xs| - 1];
      FilterMembers(init, p);
      assert xs == init + [xs[|xs| - 1]];
    }
  }

  /** Filtering a concatenation filters each part. */
  lemma {:induction false} FilterAppend<T(!new)>(a: seq<T>, b: seq<T>, p: T -> bool)
    ensures Filter(a + b, p) == Filter(a, p) + Filter(b, p)
    decreases |b|
  {
    if b == [] {
      assert a + b == a;
    } else {
      var b' := b[..|b| - 1];
      assert (a + b)[..|a + b| - 1] == a + b';
      FilterAppend(a, b', p);
    }
  }

  /** The lists `f(x)` for the `x` of `xs`, one after another. */
  function FlatMap<T, U>(xs: seq<T>, f: T -> seq<U>): (r: seq<U>)
    ensures xs != [] ==> r == FlatMap(xs[..|xs| - 1], f) + f(xs[|xs| - 1])
  {
    if xs == [] then [] else FlatMap(xs[..|xs| - 1], f) + f(xs[|xs| - 1])
  }

  /** `[f(x) for x in xs]`. */
  function Map<T, U>(xs: seq<T>, f: T -> U): (r: seq<U>)
    ensures |r| == |xs|
  {
    if xs == [] then [] else Map(xs[..|xs| - 1], f) + [f(xs[|xs| - 1])]
  }

  /** The i-th element of a map is `f` of the i-th element. */
  lemma {:induction false} MapAt<T, U>(xs: seq<T>, f: T -> U)
    ensures forall i :: 0 <= i < |xs| ==> Map(xs, f)[i] == f(xs[i])
  {
    if xs != [] {
      var init := xs[..|xs| - 1];
      var a := Map(init, f);
      MapAt(init, f);
      assert Map(xs, f) == a + [f(xs[|xs| - 1])];
      forall i | 0 <= i < |xs| ensures Map(xs, f)[i] == f(xs[i]) {
        if i < |init| {
          assert xs[i] == init[i];
        }
      }
    }
  }

  /** `u` is an element of the list `f(x)` of some `x` of `xs`. */
  ghost predicate ComesFrom<T, U>(xs: seq<T>, f: T -> seq<U>, u: U) {
    exists i, j :: 0 <= i < |xs| && 0 <= j < |f(xs[i])| && u == f(xs[i])[j]
  }

  /** Every element of a flat map comes from the list of some `x`. */
  lemma {:induction false} FlatMapFrom<T, U>(xs: seq<T>, f: T -> seq<U>)
    ensures forall k :: 0 <= k < |FlatMap(xs, f)| ==> ComesFrom(xs, f, FlatMap(xs, f)[k])
  {
    if xs != [] {
      var init := xs[..|xs| - 1];
      var a, b := FlatMap(init, f), f(xs[|xs| - 1]);
      FlatMapFrom(init, f);
      assert FlatMap(xs, f) == a + b;
      forall k | 0 <= k < |a + b| ensures ComesFrom(xs, f, (a + b)[k]) {
        if k < |a| {
          assert ComesFrom(init, f, a[k]);
          var i, j :| 0 <= i < |init| && 0 <= j < |f(init[i])| && a[k] == f(init[i])[j];
          assert xs[i] == init[i];
        } else {
          var i, j := |xs| - 1, k - |a|;
          assert (a + b)[k] == f(xs[i])[j];
        }
      }
    }
  }

  /** Every element of the list of each `x` is in the flat map. */
  lemma {:induction false} FlatMapHas<T, U>(xs: seq<T>, f: T -> seq<U>)
    ensures forall i, j :: 0 <= i < |xs| && 0 <= j < |f(xs[i])| ==> f(xs[i])[j] in FlatMap(xs, f)
  {
    if xs != [] {
      var init := xs[..|xs| - 1];
      var a, b := FlatMap(init, f), f(xs[|xs| - 1]);
      FlatMapHas(init, f);
      assert FlatMap(xs, f) == a + b;
      forall i, j | 0 <= i < |xs| && 0 <= j < |f(xs[i])| ensures f(xs[i])[j] in a + b {
        if i < |init| {
          assert xs[i] == init[i];
          assert f(init[i])[j] in a;
        } else {
          assert (a + b)[|a| + j] == b[j];
        }
      }
    }
  }

  /** Python's `a <= b` on strings: lexicographic by code point. */
  predicate LexLe(a: string, b: string)
    decreases |a|
  {
    a == [] || (b != [] && (a[0] < b[0] || (a[0] == b[0] && LexLe(a[1..], b[1..]))))
  }

  /** Any two strings are ordered one way or the other. */
  lemma {:induction false} LexTotal(a: string, b: string)
    ensures LexLe(a, b) || LexLe(b, a)
    decreases |a|
  {
    if a != [] && b != [] && a[0] == b[0] {
      LexTotal(a[1..], b[1..]);
    }
  }

  /** The order is transitive. */
  lemma {:induction false} LexTrans(a: string, b: string, c: string)
    requires LexLe(a, b) && LexLe(b, c)
    ensures LexLe(a, c)
    decreases |a|
  {
    if a != [] && a[0] == b[0] && b[0] == c[0] {
      LexTrans(a[1..], b[1..], c[1..]);
    }
  }

  /** Every string is in order before every later one. */
  predicate Sorted(s: seq<string>) {
    forall i, j :: 0 <= i < j < |s| ==> LexLe(s[i], s[j])
  }

  /** Put `x` before the first element it is not after. */
  function Insert(x: string, s: seq<string>): seq<string>
  {
    if s == [] || LexLe(x, s[0]) then [x] + s else [s[0]] + Insert(x, s[1..])
  }

  /** Inserting into a sorted list keeps it sorted and adds exactly `x`. */
  lemma {:induction false} InsertSorted(x: string, s: seq<string>)
    requires Sorted(s)
    ensures Sorted(Insert(x, s))
    ensures multiset(Insert(x, s)) == multiset(s) + multiset{x}
  {
    if s == [] {
    } else if LexLe(x, s[0]) {
      forall j | 0 <= j < |s| ensures LexLe(x, s[j]) {
        if j > 0 { LexTrans(x, s[0], s[j]); }
      }
      ConsSorted(x, s);
    } else {
      var y, rest := s[0], s[1..];
      assert s == [y] + rest;
      LexTotal(x, y);
      InsertSorted(x, rest);
      var t := Insert(x, rest);
      assert Insert(x, s) == [y] + t;
      assert multiset(t) == multiset(rest) + multiset{x};
      forall k | 0 <= k < |t| ensures LexLe(y, t[k]) {
        assert t[k] in multiset(t);
        assert t[k] == x || t[k] in rest;
      }
      ConsSorted(y, t);
    }
  }

  /** A sorted list stays sorted with an element in front that is before all of it. */
  lemma ConsSorted(y: string, t: seq<string>)
    requires Sorted(t)
    requires forall k :: 0 <= k < |t| ==> LexLe(y, t[k])
    ensures Sorted([y] + t)
  {
    var s := [y] + t;
    forall i, j | 0 <= i < j < |s| ensures LexLe(s[i], s[j]) {
      if i > 0 {
        assert s[i] == t[i - 1] && s[j] == t[j - 1];
      } else {
        assert s[j] == t[j - 1];
      }
    }
  }

  /** `sorted(xs)` on strings: sorted, and a permutation of `xs`. */
  function Sort(xs: seq<string>): (r: seq<string>)
    ensures Sorted(r)
    ensures multiset(r) == multiset(xs)
  {
    if xs == [] then []
    else
      var t := Sort(xs[1..]);
      InsertSorted(xs[0], t);
      assert xs == [xs[0]] + xs[1..];
      Insert(xs[0], t)
  }

  /** Keeping some elements of a sorted list leaves it sorted. */
  lemma {:induction false} FilterSorted(xs: seq<string>, p: string -> bool)
    requires Sorted(xs)
    ensures Sorted(Filter(xs, p))
  {
    if xs != [] {
      var init := xs[..|xs| - 1];
      var last := xs[|xs| - 1];
      FilterSorted(init, p);
      var f := Filter(init, p);
      FilterMembers(init, p);
      forall i | 0 <= i < |f| ensures LexLe(f[i], last) {
        assert f[i] in init;
      }
    }
  }
}
