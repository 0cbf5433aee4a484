/**
 * JavaScript array operations used by the pages: `filter`, `sort` with a
 * comparator (stable, as the language has required since ES2019; see
 * `SortStable`) and the
 * duplicate removal of `[...new Set(xs)]`. All of them build new sequences, so
 * the input is never changed.
 */
module JsArrays {

  /** `xs.filter(keep)`. */
  function Filter<T(!new)>(xs: seq<T>, keep: T -> bool): (r: seq<T>)
    ensures |r| <= |xs|
    ensures forall i :: 0 <= i < |r| ==> keep(r[i])
  {
    if xs == [] then []
    else (if keep(xs[0]) then [xs[0]] else []) + Filter(xs[1..], keep)
  }

  /** `filter` keeps every occurrence of a kept element and nothing else. */
  lemma {:induction false} FilterCounts<T(!new)>(xs: seq<T>, keep: T -> bool)
    ensures forall x :: multiset(Filter(xs, keep))[x] == if keep(x) then multiset(xs)[x] else 0
  {
    if xs != [] {
      assert xs == [xs[0]] + xs[1..];
      FilterCounts(xs[1..], keep);
    }
  }

  /** A filter that keeps everything returns its input. */
  lemma {:induction false} FilterKeepsAll<T(!new)>(xs: seq<T>, keep: T -> bool)
    requires forall i :: 0 <= i < |xs| ==> keep(xs[i])
    ensures Filter(xs, keep) == xs
  {
    if xs != [] {
      FilterKeepsAll(xs[1..], keep);
    }
  }

  /** A filter that keeps nothing returns the empty sequence. */
  lemma {:induction false} FilterKeepsNone<T(!new)>(xs: seq<T>, keep: T -> bool)
    requires forall i :: 0 <= i < |xs| ==> !keep(xs[i])
    ensures Filter(xs, keep) == []
  {
    if xs != [] {
      FilterKeepsNone(xs[1..], keep);
    }
  }

  /** Puts `x` before the first element it does not compare greater than. */
  function Insert<T>(x: T, xs: seq<T>, cmp: (T, T) -> int): (r: seq<T>)
    ensures multiset(r) == multiset(xs) + multiset{x}
  {
    if xs == [] || cmp(x, xs[0]) <= 0 then [x] + xs
    else
      assert xs == [xs[0]] + xs[1..];
      [xs[0]] + Insert(x, xs[1..], cmp)
  }

  /** `xs.sort(cmp)` on a copy: a stable sort by the comparator. */
  function Sort<T>(xs: seq<T>, cmp: (T, T) -> int): (r: seq<T>)
    ensures multiset(r) == multiset(xs)
  {
    if xs == [] then []
    else
      assert xs == [xs[0]] + xs[1..];
      Insert(xs[0], Sort(xs[1..], cmp), cmp)
  }

  /** Two elements the comparator puts the other way round are swapped. */
  lemma SortSwapsPair<T>(x: T, y: T, cmp: (T, T) -> int)
    requires cmp(x, y) > 0
    ensures Sort([x, y], cmp) == [y, x]
  {
    assert [x, y][1..] == [y];
    assert Sort([y], cmp) == [y] by {
      assert [y][1..] == [];
    }
  }

  /**
   * The comparator is consistent on the elements of `xs`, as `sort` needs for
   * its result to be defined: "greater" is answered by "less" the other way,
   * and "not greater" is transitive.
   */
  ghost predicate ConsistentOn<T>(xs: seq<T>, cmp: (T, T) -> int)
  {
    && (forall a, b :: a in xs && b in xs && cmp(a, b) > 0 ==> cmp(b, a) < 0)
    && (forall a, b, c :: a in xs && b in xs && c in xs && cmp(a, b) <= 0 && cmp(b, c) <= 0 ==> cmp(a, c) <= 0)
  }

  /** No element compares greater than one after it. */
  ghost predicate SortedBy<T>(xs: seq<T>, cmp: (T, T) -> int)
  {
    forall i, j :: 0 <= i < j < |xs| ==> cmp(xs[i], xs[j]) <= 0
  }

  lemma ConsistentOnSmaller<T>(xs: seq<T>, ys: seq<T>, cmp: (T, T) -> int)
    requires ConsistentOn(xs, cmp)
    requires forall y :: y in ys ==> y in xs
    ensures ConsistentOn(ys, cmp)
  {
  }

  /** A lower bound of `x` and of `xs` is a lower bound of everything `Insert` returns. */
  lemma {:induction false} InsertBound<T>(m: T, x: T, xs: seq<T>, cmp: (T, T) -> int)
    requires cmp(m, x) <= 0
    requires forall j :: 0 <= j < |xs| ==> cmp(m, xs[j]) <= 0
    ensures forall j :: 0 <= j < |Insert(x, xs, cmp)| ==> cmp(m, Insert(x, xs, cmp)[j]) <= 0
  {
    if xs != [] && cmp(x, xs[0]) > 0 {
      InsertBound(m, x, xs[1..], cmp);
    }
  }

  /** A sorted sequence behind a lower bound of all of it is still sorted. */
  lemma PrependSorted<T>(m: T, xs: seq<T>, cmp: (T, T) -> int)
    requires SortedBy(xs, cmp)
    requires forall j :: 0 <= j < |xs| ==> cmp(m, xs[j]) <= 0
    ensures SortedBy([m] + xs, cmp)
  {
    var r := [m] + xs;
    forall i, j | 0 <= i < j < |r| ensures cmp(r[i], r[j]) <= 0 {
      if i == 0 {
        assert r[j] == xs[j - 1];
      } else {
        assert r[i] == xs[i - 1] && r[j] == xs[j - 1];
      }
    }
  }

  lemma {:induction false} InsertSorted<T>(x: T, xs: seq<T>, cmp: (T, T) -> int)
    requires SortedBy(xs, cmp)
    requires ConsistentOn([x] + xs, cmp)
    ensures SortedBy(Insert(x, xs, cmp), cmp)
  {
    var all := [x] + xs;
    if xs == [] || cmp(x, xs[0]) <= 0 {
      forall j | 0 <= j < |xs| ensures cmp(x, xs[j]) <= 0 {
        if j > 0 {
          assert all[0] == x && all[1] == xs[0] && all[j + 1] == xs[j];
        }
      }
      PrependSorted(x, xs, cmp);
    } else {
      assert cmp(xs[0], x) < 0 by {
        assert all[0] == x && all[1] == xs[0];
      }
      ConsistentOnSmaller(all, [x] + xs[1..], cmp);
      InsertSorted(x, xs[1..], cmp);
      forall j | 0 <= j < |xs[1..]| ensures cmp(xs[0], xs[1..][j]) <= 0 {
        assert xs[1..][j] == xs[j + 1];
      }
      InsertBound(xs[0], x, xs[1..], cmp);
      PrependSorted(xs[0], Insert(x, xs[1..], cmp), cmp);
    }
  }

  /** With a consistent comparator, `sort` really sorts. */
  lemma {:induction false} SortSorted<T>(xs: seq<T>, cmp: (T, T) -> int)
    requires ConsistentOn(xs, cmp)
    ensures SortedBy(Sort(xs, cmp), cmp)
  {
    if xs != [] {
      ConsistentOnSmaller(xs, xs[1..], cmp);
      SortSorted(xs[1..], cmp);
      var sorted := Sort(xs[1..], cmp);
      forall y | y in [xs[0]] + sorted ensures y in xs {
        if y != xs[0] {
          assert y in multiset(sorted);
        }
      }
      ConsistentOnSmaller(xs, [xs[0]] + sorted, cmp);
      InsertSorted(xs[0], sorted, cmp);
    }
  }

  /** Neither `x` nor `y` compares greater than the other. */
  function TiesWith<T>(x: T, cmp: (T, T) -> int): T -> bool
  {
    y => cmp(x, y) <= 0 && cmp(y, x) <= 0
  }

  /**
   * Inserting `a` adds it to the elements tying with `x` in front of all of
   * them: the elements `Insert` passes over compare less than `a`.
   */
  lemma {:induction false} InsertTies<T(!new)>(x: T, a: T, s: seq<T>, cmp: (T, T) -> int)
    requires forall y :: y in s && cmp(a, x) <= 0 && cmp(x, y) <= 0 ==> cmp(a, y) <= 0
    ensures Filter(Insert(a, s, cmp), TiesWith(x, cmp))
         == (if TiesWith(x, cmp)(a) then [a] else []) + Filter(s, TiesWith(x, cmp))
  {
    if s == [] || cmp(a, s[0]) <= 0 {
      assert ([a] + s)[1..] == s;
    } else {
      assert s[0] in s;
      InsertTies(x, a, s[1..], cmp);
      var r := [s[0]] + Insert(a, s[1..], cmp);
      assert r[1..] == Insert(a, s[1..], cmp);
    }
  }

  /**
   * `sort` is stable: the elements that tie with any `x` come out in the
   * order they went in.
   */
  lemma {:induction false} SortStable<T(!new)>(x: T, xs: seq<T>, cmp: (T, T) -> int)
    requires ConsistentOn([x] + xs, cmp)
    ensures Filter(Sort(xs, cmp), TiesWith(x, cmp)) == Filter(xs, TiesWith(x, cmp))
  {
    if xs != [] {
      var rest := Sort(xs[1..], cmp);
      ConsistentOnSmaller([x] + xs, [x] + xs[1..], cmp);
      SortStable(x, xs[1..], cmp);
      forall y | y in [x, xs[0]] + rest ensures y in [x] + xs {
        if y in rest {
          assert y in multiset(rest);
          assert y in multiset(xs[1..]);
        }
      }
      assert xs[0] in [x] + xs && x in [x] + xs;
      InsertTies(x, xs[0], rest, cmp);
    }
  }

  /** A comparator that never prefers one element leaves the order as it was. */
  lemma {:induction false} SortKeepsOrderWhenAllEqual<T>(xs: seq<T>, cmp: (T, T) -> int)
    requires forall a, b :: a in xs && b in xs ==> cmp(a, b) == 0
    ensures Sort(xs, cmp) == xs
  {
    if xs != [] {
      var rest := xs[1..];
      assert xs == [xs[0]] + rest;
      SortKeepsOrderWhenAllEqual(rest, cmp);
      if rest != [] {
        assert rest[0] in xs;
        assert cmp(xs[0], rest[0]) == 0;
      }
    }
  }

  /** No element occurs twice. */
  predicate Distinct<T(==)>(xs: seq<T>)
  {
    forall i, j :: 0 <= i < j < |xs| ==> xs[i] != xs[j]
  }

  /** `[...new Set(xs)]`: each element once, at its first occurrence. */
  function Dedup<T(==,!new)>(xs: seq<T>): (r: seq<T>)
    ensures forall x :: x in r <==> x in xs
  {
    if xs == [] then []
    else
      var d := Dedup(xs[..|xs| - 1]);
      assert xs == xs[..|xs| - 1] + [xs[|xs| - 1]];
      if xs[|xs| - 1] in d then d else d + [xs[|xs| - 1]]
  }

  /** `Dedup` leaves no element twice. */
  lemma {:induction false} DedupDistinct<T(!new)>(xs: seq<T>)
    ensures Distinct(Dedup(xs))
  {
    if xs != [] {
      var init, last := xs[..|xs| - 1], xs[|xs| - 1];
      DedupDistinct(init);
      var d := Dedup(init);
      if last !in d {
        AppendNewKeepsDistinct(d, last);
      }
    }
  }

  /** Appending an element not yet present keeps a sequence duplicate-free. */
  lemma AppendNewKeepsDistinct<T>(xs: seq<T>, x: T)
    requires Distinct(xs) && x !in xs
    ensures Distinct(xs + [x])
  {
    var r := xs + [x];
    forall i, j | 0 <= i < j < |r| ensures r[i] != r[j] {
      assert r[i] == xs[i];
      if j < |xs| {
        assert r[j] == xs[j];
      } else {
        assert r[j] == x;
      }
    }
  }

  /** A duplicate-free sequence has as many elements as its set of elements. */
  lemma {:induction false} DistinctCardinality<T>(xs: seq<T>)
    requires Distinct(xs)
    ensures |set x | x in xs| == |xs|
  {
    if xs != [] {
      var init := xs[..|xs| - 1];
      DistinctCardinality(init);
      assert (set x | x in xs) == (set x | x in init) + {xs[|xs| - 1]};
      assert xs[|xs| - 1] !in init;
    }
  }

  /** An element of a duplicate-free sequence occurs at most once. */
  lemma {:induction false} DistinctCountAtMostOne<T>(xs: seq<T>, x: T)
    requires Distinct(xs)
    ensures multiset(xs)[x] <= 1
  {
    if xs != [] {
      assert xs == [xs[0]] + xs[1..];
      DistinctCountAtMostOne(xs[1..], x);
      if xs[0] == x {
        assert x !in xs[1..];
      }
    }
  }

  /** A rearrangement of a duplicate-free sequence is duplicate-free. */
  lemma PermutationKeepsDistinct<T>(xs: seq<T>, ys: seq<T>)
    requires Distinct(xs) && multiset(xs) == multiset(ys)
    ensures Distinct(ys)
  {
    forall i, j | 0 <= i < j < |ys| ensures ys[i] != ys[j] {
      var x := ys[i];
      assert ys == ys[..j] + ys[j..];
      assert ys[..j][i] == x;
      assert x in multiset(ys[..j]);
      DistinctCountAtMostOne(xs, x);
      assert multiset(ys[j..])[x] == 0;
      assert ys[j..][0] == ys[j];
    }
  }
}
