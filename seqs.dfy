/** Sequence helpers shared by the recommendation routines: prefixes, filters,
    de-duplication in first-appearance order, occurrence counts and the index
    normalisation Python applies to slice bounds. */
module Seqs {

  function Min(a: int, b: int): int
  {
    if a <= b then a else b
  }

  /** The first `k` elements of `s`, or all of `s` when it is shorter
      (Python's `s[:k]` for `k >= 0`, Mongo's `limit(k)` for `k > 0`). */
  function Take<T>(s: seq<T>, k: nat): (r: seq<T>)
    ensures |r| == Min(k, |s|)
    ensures r <= s
  {
    if k < |s| then s[..k] else s
  }

  /** Where Python's slice bound `k` lands in a sequence of length `n`:
      a negative bound counts from the end, and both are clamped to `0..n`. */
  function PySliceIndex(k: int, n: nat): (i: nat)
    ensures i <= n
    ensures 0 <= k <= n ==> i == k
    ensures -(n as int) <= k < 0 ==> i as int == n as int + k
    ensures k > n ==> i == n
    ensures k < -(n as int) ==> i == 0
  {
    if k < 0 then (if n + k < 0 then 0 else n + k) else Min(k, n)
  }

  function Reverse<T>(s: seq<T>): (r: seq<T>)
    ensures |r| == |s|
    ensures forall i :: 0 <= i < |s| ==> r[i] == s[|s| - 1 - i]
  {
    if s == [] then [] else Reverse(s[1..]) + [s[0]]
  }

  /** Reversing the suffix of a reversed sequence gives back a prefix. */
  lemma ReverseSuffixOfReverse<T>(s: seq<T>, i: nat)
    requires i <= |s|
    ensures Reverse(Reverse(s)[i..]) == s[..|s| - i]
  {
  }

  predicate Distinct<T(==)>(s: seq<T>)
  {
    forall i, j :: 0 <= i < j < |s| ==> s[i] != s[j]
  }

  lemma DistinctCons<T>(a: T, s: seq<T>)
    ensures Distinct([a] + s) <==> a !in s && Distinct(s)
  {
    if a !in s && Distinct(s) {
      forall i, j | 0 <= i < j < |[a] + s| ensures ([a] + s)[i] != ([a] + s)[j] {
        if i > 0 {
          assert ([a] + s)[i] == s[i - 1] && ([a] + s)[j] == s[j - 1];
        } else {
          assert ([a] + s)[j] == s[j - 1];
        }
      }
    }
    if Distinct([a] + s) {
      forall i, j | 0 <= i < j < |s| ensures s[i] != s[j] {
        assert s[i] == ([a] + s)[i + 1] && s[j] == ([a] + s)[j + 1];
      }
      forall k | 0 <= k < |s| ensures s[k] != a {
        assert ([a] + s)[0] == a && ([a] + s)[k + 1] == s[k];
      }
    }
  }

  /** One column of a table: `field` read off every row, in row order. */
  function TableColumn<R, V>(rows: seq<R>, field: R -> V): (col: seq<V>)
    ensures |col| == |rows|
    ensures forall i :: 0 <= i < |rows| ==> col[i] == field(rows[i])
  {
    if rows == [] then [] else [field(rows[0])] + TableColumn(rows[1..], field)
  }

  lemma TableColumnConcat<R, V>(a: seq<R>, b: seq<R>, field: R -> V)
    ensures TableColumn(a + b, field) == TableColumn(a, field) + TableColumn(b, field)
  {
  }

  /** The elements of `s` that satisfy `f`, in their original order. */
  function Filter<T(!new)>(f: T -> bool, s: seq<T>): (r: seq<T>)
    ensures |r| <= |s|
    ensures forall x :: x in r <==> x in s && f(x)
  {
    if s == [] then []
    else (if f(s[0]) then [s[0]] else []) + Filter(f, s[1..])
  }

  /** Number of occurrences of `x` in `s`. */
  function Count<T(==)>(s: seq<T>, x: T): (c: nat)
    ensures c <= |s|
    ensures c > 0 <==> x in s
  {
    if s == [] then 0
    else (if s[0] == x then 1 else 0) + Count(s[1..], x)
  }

  /** The distinct elements of `s` in order of first appearance. */
  function Dedup<T(==,!new)>(s: seq<T>): (r: seq<T>)
    ensures Distinct(r)
    ensures forall x :: x in r <==> x in s
    ensures |r| <= |s|
  {
    if s == [] then []
    else
      var d := Dedup(s[..|s| - 1]);
      var last := s[|s| - 1];
      assert forall x :: x in s <==> x in s[..|s| - 1] || x == last by {
        assert s == s[..|s| - 1] + [last];
      }
      if last in d then d else d + [last]
  }

  /** Index of the first occurrence of `x` in `s`. */
  function IndexOf<T(==)>(s: seq<T>, x: T): (i: nat)
    requires x in s
    ensures i < |s| && s[i] == x
    ensures forall j :: 0 <= j < i ==> s[j] != x
  {
    if s[0] == x then 0 else 1 + IndexOf(s[1..], x)
  }

  /** Nothing passes a filter that no element satisfies. */
  lemma {:induction false} FilterNone<T(!new)>(f: T -> bool, s: seq<T>)
    requires forall x :: x in s ==> !f(x)
    ensures Filter(f, s) == []
  {
    if s != [] {
      FilterNone(f, s[1..]);
    }
  }

  lemma CountCons<T>(x: T, s: seq<T>, q: T)
    ensures Count([x] + s, q) == (if x == q then 1 else 0) + Count(s, q)
  {
    assert ([x] + s)[1..] == s;
  }

  lemma {:induction false} CountConcat<T>(a: seq<T>, b: seq<T>, x: T)
    ensures Count(a + b, x) == Count(a, x) + Count(b, x)
  {
    if a == [] {
      assert a + b == b;
    } else {
      assert (a + b)[1..] == a[1..] + b;
      CountConcat(a[1..], b, x);
    }
  }

  lemma {:induction false} FilterConcat<T(!new)>(f: T -> bool, a: seq<T>, b: seq<T>)
    ensures Filter(f, a + b) == Filter(f, a) + Filter(f, b)
  {
    if a == [] {
      assert a + b == b;
    } else {
      assert (a + b)[1..] == a[1..] + b;
      FilterConcat(f, a[1..], b);
    }
  }

  /** Filtering a sequence without duplicates leaves one without duplicates. */
  lemma {:induction false} FilterDistinct<T(!new)>(f: T -> bool, s: seq<T>)
    requires Distinct(s)
    ensures Distinct(Filter(f, s))
  {
    if s != [] {
      FilterDistinct(f, s[1..]);
      var rest := Filter(f, s[1..]);
      assert s[0] !in s[1..];
      assert s[0] !in rest;
    }
  }

  /** A predicate and its negation split `s` without loss. */
  lemma {:induction false} FilterPartition<T(!new)>(f: T -> bool, g: T -> bool, s: seq<T>)
    requires forall x :: g(x) == !f(x)
    ensures |Filter(f, s)| + |Filter(g, s)| == |s|
  {
    if s != [] {
      FilterPartition(f, g, s[1..]);
    }
  }

  /** Removing one value from a sequence without duplicates shortens it by one
      exactly when the value was present. */
  lemma {:induction false} FilterOutOne<T(!new)>(f: T -> bool, s: seq<T>, x: T)
    requires forall y :: f(y) == (y != x)
    requires Distinct(s)
    ensures |Filter(f, s)| == if x in s then |s| - 1 else |s|
  {
    if s != [] {
      FilterOutOne(f, s[1..], x);
      assert s[0] !in s[1..];
    }
  }

  /** Dropping elements keeps every later element after every earlier one:
      any pairwise order that `s` satisfies, its filtered copy satisfies. */
  lemma {:induction false} FilterKeepsOrder<T(!new)>(f: T -> bool, s: seq<T>, ge: (T, T) -> bool)
    requires forall i, j :: 0 <= i < j < |s| ==> ge(s[i], s[j])
    ensures forall i, j :: 0 <= i < j < |Filter(f, s)| ==> ge(Filter(f, s)[i], Filter(f, s)[j])
  {
    if s != [] {
      FilterKeepsOrder(f, s[1..], ge);
      var r := Filter(f, s);
      var rest := Filter(f, s[1..]);
      if f(s[0]) {
        forall i, j | 0 <= i < j < |r| ensures ge(r[i], r[j]) {
          if i == 0 {
            assert r[j] == rest[j - 1];
            assert rest[j - 1] in s[1..];
          } else {
            assert r[i] == rest[i - 1] && r[j] == rest[j - 1];
          }
        }
      } else {
        assert r == rest;
      }
    }
  }

  /** `xs` sits in `s` at the strictly increasing positions `pos`. */
  ghost predicate SubsequenceAt<T>(xs: seq<T>, s: seq<T>, pos: seq<nat>)
  {
    |pos| == |xs| &&
    (forall i :: 0 <= i < |pos| ==> pos[i] < |s| && s[pos[i]] == xs[i]) &&
    (forall i, j :: 0 <= i < j < |pos| ==> pos[i] < pos[j])
  }

  /** The elements of `xs` occur in `s` in the same order. */
  ghost predicate OrderedWithin<T>(xs: seq<T>, s: seq<T>)
  {
    exists pos :: SubsequenceAt(xs, s, pos)
  }

  /** Positions shifted one place to the right, for the tail of a sequence. */
  function Shifted(pos: seq<nat>): (r: seq<nat>)
    ensures |r| == |pos|
    ensures forall i :: 0 <= i < |pos| ==> r[i] == pos[i] + 1
  {
    seq(|pos|, i requires 0 <= i < |pos| => pos[i] + 1)
  }

  /** Positions in the tail of `s` are positions one further on in `s`. */
  lemma ShiftedSubsequence<T>(xs: seq<T>, s: seq<T>, pos: seq<nat>)
    requires s != [] && SubsequenceAt(xs, s[1..], pos)
    ensures SubsequenceAt(xs, s, Shifted(pos))
  {
    var r := Shifted(pos);
    forall i | 0 <= i < |r| ensures r[i] < |s| && s[r[i]] == xs[i] {
      assert s[pos[i] + 1] == s[1..][pos[i]];
    }
  }

  /** Putting the head of `s` in front keeps a subsequence of the tail one. */
  lemma ConsSubsequence<T>(xs: seq<T>, s: seq<T>, pos: seq<nat>)
    requires s != [] && SubsequenceAt(xs, s, Shifted(pos)) && |pos| == |xs|
    ensures SubsequenceAt([s[0]] + xs, s, [0] + Shifted(pos))
  {
    var r := [0] + Shifted(pos);
    var ys := [s[0]] + xs;
    forall i | 0 < i < |r| ensures r[i] < |s| && s[r[i]] == ys[i] {
      assert r[i] == Shifted(pos)[i - 1] && ys[i] == xs[i - 1];
    }
    forall i, j | 0 <= i < j < |r| ensures r[i] < r[j] {
      assert r[j] == Shifted(pos)[j - 1];
      if i > 0 {
        assert r[i] == Shifted(pos)[i - 1];
      }
    }
  }

  /** The positions of `s` that a filter keeps. */
  lemma {:induction false} FilterPositions<T(!new)>(f: T -> bool, s: seq<T>) returns (pos: seq<nat>)
    ensures SubsequenceAt(Filter(f, s), s, pos)
  {
    if s == [] {
      pos := [];
    } else {
      var rest := FilterPositions(f, s[1..]);
      var tail := Filter(f, s[1..]);
      ShiftedSubsequence(tail, s, rest);
      if f(s[0]) {
        ConsSubsequence(tail, s, rest);
        pos := [0] + Shifted(rest);
        assert Filter(f, s) == [s[0]] + tail;
      } else {
        pos := Shifted(rest);
        assert Filter(f, s) == tail;
      }
    }
  }

  /** A filter keeps the order of the sequence it filters, and so does any prefix of it. */
  lemma FilterOrderedWithin<T(!new)>(f: T -> bool, s: seq<T>, k: nat)
    requires k <= |Filter(f, s)|
    ensures OrderedWithin(Filter(f, s)[..k], s)
  {
    var pos := FilterPositions(f, s);
    assert SubsequenceAt(Filter(f, s)[..k], s, pos[..k]);
  }

  /** A sequence has at least as many positions as distinct values. */
  lemma {:induction false} CardinalityOfElements<T>(s: seq<T>)
    ensures |set x | x in s| <= |s|
  {
    if s != [] {
      CardinalityOfElements(s[1..]);
      assert (set x | x in s) == (set x | x in s[1..]) + {s[0]};
    }
  }

  /** A sequence without duplicates has exactly as many distinct values as positions. */
  lemma {:induction false} DistinctCardinality<T>(s: seq<T>)
    requires Distinct(s)
    ensures |set x | x in s| == |s|
  {
    if s != [] {
      assert Distinct(s[1..]) by {
        forall i, j | 0 <= i < j < |s[1..]| ensures s[1..][i] != s[1..][j] {
          assert s[1..][i] == s[i + 1] && s[1..][j] == s[j + 1];
        }
      }
      DistinctCardinality(s[1..]);
      assert forall k :: 0 <= k < |s[1..]| ==> s[1..][k] != s[0] by {
        forall k | 0 <= k < |s[1..]| ensures s[1..][k] != s[0] {
          assert s[1..][k] == s[k + 1];
        }
      }
      assert (set x | x in s) == (set x | x in s[1..]) + {s[0]};
    }
  }

  /** Removing a set takes away at most its size. */
  lemma DifferenceCardinality<T>(a: set<T>, b: set<T>)
    ensures |a - b| >= |a| - |b|
  {
    assert a == (a - b) + (a * b);
    assert a * b <= b;
  }

  /** An element missing from a prefix sits after it. */
  lemma NotInPrefix<T>(s: seq<T>, k: nat, m: nat)
    requires k <= |s| && m < |s| && s[m] !in s[..k]
    ensures m >= k
  {
    forall q | 0 <= q < k ensures s[q] != s[m] {
      assert s[..k][q] == s[q];
    }
  }
}
