/** Sequence operations the editor takes from Rust's `Vec`: `retain` (a filter that keeps
    order), `sort_by` (a stable sort), `dedup` (drops consecutive repeats) and `contains`. */
module Seqs {
  import opened Geometry

  /** `v.retain(keep)`: the elements satisfying `keep`, in their original order. */
  function Filter<T(!new)>(s: seq<T>, keep: T -> bool): (r: seq<T>)
    ensures |r| <= |s|
    ensures forall i :: 0 <= i < |r| ==> r[i] in s && keep(r[i])
    ensures forall i :: 0 <= i < |s| && keep(s[i]) ==> s[i] in r
    ensures forall x :: x in r ==> x in s && keep(x)
  {
    if |s| == 0 then [] else if keep(s[0]) then [s[0]] + Filter(s[1..], keep) else Filter(s[1..], keep)
  }

  /** `r` is `s` with some elements dropped, the rest kept in order. */
  ghost predicate IsSubsequence<T>(r: seq<T>, s: seq<T>)
  {
    |r| == 0 || (|s| > 0 && ((r[0] == s[0] && IsSubsequence(r[1..], s[1..])) || IsSubsequence(r, s[1..])))
  }

  lemma {:induction false} SubsequenceReflexive<T>(s: seq<T>)
    ensures IsSubsequence(s, s)
  {
    if |s| > 0 {
      SubsequenceReflexive(s[1..]);
    }
  }

  lemma {:induction false} FilterIsSubsequence<T(!new)>(s: seq<T>, keep: T -> bool)
    ensures IsSubsequence(Filter(s, keep), s)
  {
    if |s| > 0 {
      FilterIsSubsequence(s[1..], keep);
      if keep(s[0]) {
        assert Filter(s, keep)[1..] == Filter(s[1..], keep);
      }
    }
  }

  /** Filtering twice by the same test changes nothing the second time. */
  lemma {:induction false} FilterIdempotent<T(!new)>(s: seq<T>, keep: T -> bool)
    ensures Filter(Filter(s, keep), keep) == Filter(s, keep)
  {
    if |s| > 0 {
      FilterIdempotent(s[1..], keep);
      if keep(s[0]) {
        assert Filter(s, keep)[1..] == Filter(s[1..], keep);
      }
    }
  }

  /** Filtering a concatenation filters each part. */
  lemma {:induction false} FilterAppend<T(!new)>(a: seq<T>, b: seq<T>, keep: T -> bool)
    ensures Filter(a + b, keep) == Filter(a, keep) + Filter(b, keep)
  {
    if |a| > 0 {
      assert (a + b)[1..] == a[1..] + b;
      FilterAppend(a[1..], b, keep);
    } else {
      assert a + b == b;
    }
  }

  /** Extending a prefix by one element extends its filtered form by that element when kept. */
  lemma FilterPrefixStep<T(!new)>(s: seq<T>, i: nat, keep: T -> bool)
    requires i < |s|
    ensures Filter(s[..i + 1], keep) == Filter(s[..i], keep) + (if keep(s[i]) then [s[i]] else [])
  {
    FilterAppend(s[..i], [s[i]], keep);
    assert s[..i + 1] == s[..i] + [s[i]];
    assert [s[i]][1..] == [];
  }

  /** The number of elements satisfying `p`. */
  function Count<T>(s: seq<T>, p: T -> bool): (n: nat)
    ensures n <= |s|
    ensures n == 0 <==> forall i :: 0 <= i < |s| ==> !p(s[i])
  {
    if |s| == 0 then 0 else (if p(s[0]) then 1 else 0) + Count(s[1..], p)
  }

  lemma {:induction false} CountAppend<T>(a: seq<T>, b: seq<T>, p: T -> bool)
    ensures Count(a + b, p) == Count(a, p) + Count(b, p)
  {
    if |a| > 0 {
      assert (a + b)[1..] == a[1..] + b;
      CountAppend(a[1..], b, p);
    } else {
      assert a + b == b;
    }
  }

  lemma {:induction false} CountIsFilterLength<T(!new)>(s: seq<T>, p: T -> bool)
    ensures Count(s, p) == |Filter(s, p)|
  {
    if |s| > 0 {
      CountIsFilterLength(s[1..], p);
    }
  }

  /** Sorted with respect to `le`: every earlier element is `le` every later one. */
  predicate SortedBy<T>(s: seq<T>, le: (T, T) -> bool)
  {
    forall i, j :: 0 <= i < j < |s| ==> le(s[i], s[j])
  }

  /** `le` is total and transitive, as any `Ord`-style comparison used for sorting. */
  ghost predicate TotalPreorder<T(!new)>(le: (T, T) -> bool)
  {
    (forall a, b :: le(a, b) || le(b, a)) &&
    (forall a, b, c :: le(a, b) && le(b, c) ==> le(a, c))
  }

  /** Puts `x` in front of the first element it is `le`; equal elements stay behind `x`. */
  function Insert<T>(x: T, r: seq<T>, le: (T, T) -> bool): (out: seq<T>)
    ensures |out| == |r| + 1
    ensures multiset(out) == multiset(r) + multiset{x}
  {
    if |r| == 0 || le(x, r[0]) then [x] + r
    else
      assert r == [r[0]] + r[1..];
      [r[0]] + Insert(x, r[1..], le)
  }

  /** A stable sort, as `slice::sort_by`: elements that compare equal keep their order. */
  function SortBy<T>(s: seq<T>, le: (T, T) -> bool): (r: seq<T>)
    ensures |r| == |s|
    ensures multiset(r) == multiset(s)
  {
    if |s| == 0 then []
    else
      assert s == [s[0]] + s[1..];
      Insert(s[0], SortBy(s[1..], le), le)
  }

  lemma {:induction false} InsertSorted<T(!new)>(x: T, r: seq<T>, le: (T, T) -> bool)
    requires TotalPreorder(le)
    requires SortedBy(r, le)
    ensures SortedBy(Insert(x, r, le), le)
  {
    if |r| == 0 || le(x, r[0]) {
    } else {
      InsertSorted(x, r[1..], le);
      var out := Insert(x, r, le);
      var tail := Insert(x, r[1..], le);
      assert out == [r[0]] + tail;
      assert le(r[0], x);
      forall k | 0 <= k < |tail|
        ensures le(r[0], tail[k])
      {
        assert tail[k] in multiset(tail);
        assert tail[k] in multiset(r[1..]) + multiset{x};
        if tail[k] != x {
          assert tail[k] in multiset(r[1..]);
          assert tail[k] in r[1..];
        }
      }
    }
  }

  /** The sort yields a sorted permutation of its input. */
  lemma {:induction false} SortBySorted<T(!new)>(s: seq<T>, le: (T, T) -> bool)
    requires TotalPreorder(le)
    ensures SortedBy(SortBy(s, le), le)
  {
    if |s| > 0 {
      SortBySorted(s[1..], le);
      InsertSorted(s[0], SortBy(s[1..], le), le);
    }
  }

  /** An already sorted input comes back unchanged (the sort is stable). */
  lemma {:induction false} SortByKeepsSorted<T>(s: seq<T>, le: (T, T) -> bool)
    requires SortedBy(s, le)
    ensures SortBy(s, le) == s
  {
    if |s| > 0 {
      assert SortedBy(s[1..], le);
      SortByKeepsSorted(s[1..], le);
      if |s| > 1 {
        assert le(s[0], s[1]);
      }
      assert s == [s[0]] + s[1..];
    }
  }

  /** `v.dedup()`: drops every element equal to the one just before it. */
  function Dedup<T(==)>(s: seq<T>): (r: seq<T>)
    ensures |r| <= |s|
    ensures forall i :: 0 <= i < |r| ==> r[i] in s
    ensures forall i :: 0 <= i < |s| ==> s[i] in r
    ensures |s| > 0 ==> |r| > 0 && r[0] == s[0]
  {
    if |s| <= 1 then s
    else if s[0] == s[1] then Dedup(s[1..])
    else [s[0]] + Dedup(s[1..])
  }

  /** After `dedup` no two neighbours are equal. */
  lemma {:induction false} DedupNoAdjacentRepeats<T>(s: seq<T>)
    ensures forall i :: 0 <= i < |Dedup(s)| - 1 ==> Dedup(s)[i] != Dedup(s)[i + 1]
  {
    if |s| > 1 {
      DedupNoAdjacentRepeats(s[1..]);
    }
  }

  /** `dedup` keeps a sorted sequence sorted, since it only drops elements. */
  lemma {:induction false} DedupKeepsSorted<T>(s: seq<T>, le: (T, T) -> bool)
    requires SortedBy(s, le)
    ensures SortedBy(Dedup(s), le)
  {
    if |s| > 1 {
      assert SortedBy(s[1..], le);
      DedupKeepsSorted(s[1..], le);
      if s[0] != s[1] {
        var d := Dedup(s[1..]);
        forall k | 0 <= k < |d|
          ensures le(s[0], d[k])
        {
          assert d[k] in s[1..];
        }
      }
    }
  }

  /** No element occurs twice. */
  predicate Distinct<T(==)>(s: seq<T>)
  {
    forall i, j :: 0 <= i < j < |s| ==> s[i] != s[j]
  }

  lemma {:induction false} DistinctCountsAtMostOne<T>(s: seq<T>, x: T)
    requires Distinct(s)
    ensures multiset(s)[x] <= 1
  {
    if |s| > 0 {
      assert s == [s[0]] + s[1..];
      assert Distinct(s[1..]);
      DistinctCountsAtMostOne(s[1..], x);
      if x == s[0] {
        assert x !in s[1..];
      }
    }
  }

  /** Reordering cannot create a repeat: a permutation of a repeat-free sequence is
      repeat-free, so a sort keeps a list free of duplicates. */
  lemma DistinctPermutation<T>(a: seq<T>, b: seq<T>)
    requires Distinct(a) && multiset(a) == multiset(b)
    ensures Distinct(b)
  {
    forall i, j | 0 <= i < j < |b|
      ensures b[i] != b[j]
    {
      if b[i] == b[j] {
        var x := b[i];
        assert b == b[..j] + [b[j]] + b[j + 1..];
        assert x in b[..j];
        assert multiset(b)[x] >= 2 by {
          assert multiset(b) == multiset(b[..j]) + multiset{x} + multiset(b[j + 1..]);
        }
        DistinctCountsAtMostOne(a, x);
        assert false;
      }
    }
  }

  /** `if !v.contains(&x) { v.push(x) }`. */
  function PushNew<T(==,!new)>(s: seq<T>, x: T): (r: seq<T>)
    ensures forall y :: y in r <==> y in s || y == x
    ensures Distinct(s) ==> Distinct(r)
    ensures x in s ==> r == s
  {
    if x in s then s else s + [x]
  }

  /** Some element of `xs` yields `y` under `f`. */
  ghost predicate Produces<A, B>(xs: seq<A>, f: A -> Option<B>, y: B)
  {
    exists k :: 0 <= k < |xs| && f(xs[k]) == Some(y)
  }

  /** What a sequence yields is what all but its last element yield, or what the last does. */
  lemma ProducesStep<A, B>(xs: seq<A>, f: A -> Option<B>, y: B)
    requires |xs| > 0
    ensures Produces(xs, f, y) <==> Produces(xs[..|xs| - 1], f, y) || f(xs[|xs| - 1]) == Some(y)
  {
    var prefix := xs[..|xs| - 1];
    if Produces(prefix, f, y) {
      var k :| 0 <= k < |prefix| && f(prefix[k]) == Some(y);
      assert xs[k] == prefix[k];
    }
    if Produces(xs, f, y) {
      var k :| 0 <= k < |xs| && f(xs[k]) == Some(y);
      if k < |prefix| {
        assert prefix[k] == xs[k];
      }
    }
  }

  /** `(k, l)` comes before `(i, j)` in row-major order, the order of two nested loops. */
  predicate Before(k: int, l: int, i: int, j: int)
  {
    k < i || (k == i && l < j)
  }

  /** `(bi, bj)` is the first pair, in nested-loop order, of minimal score among the pairs of
      rows before `(i, j)`: what a best-so-far search with a strict `<` has found at `(i, j)`. */
  ghost predicate FirstMinUpTo<A, B>(xs: seq<A>, ys: seq<B>, score: (A, B) -> real, bi: int, bj: int, i: int, j: int)
  {
    0 <= bi < |xs| && 0 <= bj < |ys| && Before(bi, bj, i, j) &&
    forall k, l :: 0 <= k < |xs| && 0 <= l < |ys| && Before(k, l, i, j) ==>
      score(xs[bi], ys[bj]) <= score(xs[k], ys[l]) &&
      (Before(k, l, bi, bj) ==> score(xs[bi], ys[bj]) < score(xs[k], ys[l]))
  }

  /** The first pair of minimal score over all of `xs` × `ys`. */
  ghost predicate IsFirstMinPair<A, B>(xs: seq<A>, ys: seq<B>, score: (A, B) -> real, bi: int, bj: int)
  {
    FirstMinUpTo(xs, ys, score, bi, bj, |xs|, 0)
  }

  /** The first pair tried is the best so far. */
  lemma FirstMinUpToFirst<A, B>(xs: seq<A>, ys: seq<B>, score: (A, B) -> real)
    requires |xs| > 0 && |ys| > 0
    ensures FirstMinUpTo(xs, ys, score, 0, 0, 0, 1)
  {
  }

  /** One step of the search at `(i, j)`: the pair tried replaces the best so far exactly when
      its score is strictly smaller. */
  lemma FirstMinUpToStep<A, B>(xs: seq<A>, ys: seq<B>, score: (A, B) -> real, bi: int, bj: int, i: int, j: int)
    requires 0 <= i < |xs| && 0 <= j < |ys|
    requires FirstMinUpTo(xs, ys, score, bi, bj, i, j)
    ensures score(xs[i], ys[j]) < score(xs[bi], ys[bj]) ==> FirstMinUpTo(xs, ys, score, i, j, i, j + 1)
    ensures score(xs[bi], ys[bj]) <= score(xs[i], ys[j]) ==> FirstMinUpTo(xs, ys, score, bi, bj, i, j + 1)
  {
  }

  /** Finishing a row is the same as starting the next. */
  lemma FirstMinUpToNextRow<A, B>(xs: seq<A>, ys: seq<B>, score: (A, B) -> real, bi: int, bj: int, i: int)
    requires FirstMinUpTo(xs, ys, score, bi, bj, i, |ys|)
    ensures FirstMinUpTo(xs, ys, score, bi, bj, i + 1, 0)
  {
  }

  /** Every non-empty grid of pairs has a first pair of minimal score: the search run as a
      proof, row by row. */
  lemma FirstMinPairExists<A, B>(xs: seq<A>, ys: seq<B>, score: (A, B) -> real)
    requires |xs| > 0 && |ys| > 0
    ensures exists bi, bj :: IsFirstMinPair(xs, ys, score, bi, bj)
  {
    FirstMinUpToFirst(xs, ys, score);
    var bi, bj := 0, 0;
    var i, j := 0, 1;
    while i < |xs|
      invariant 0 <= i <= |xs| && 0 <= j <= |ys|
      invariant i == |xs| ==> j == 0
      invariant i == 0 ==> j >= 1
      invariant FirstMinUpTo(xs, ys, score, bi, bj, i, j)
      decreases |xs| - i, |ys| - j
    {
      if j == |ys| {
        FirstMinUpToNextRow(xs, ys, score, bi, bj, i);
        i, j := i + 1, 0;
      } else {
        FirstMinUpToStep(xs, ys, score, bi, bj, i, j);
        if score(xs[i], ys[j]) < score(xs[bi], ys[bj]) {
          bi, bj := i, j;
        }
        j := j + 1;
      }
    }
    assert IsFirstMinPair(xs, ys, score, bi, bj);
  }

  /** The first pair of minimal score is unique. */
  lemma FirstMinPairUnique<A, B>(xs: seq<A>, ys: seq<B>, score: (A, B) -> real, a: int, b: int, c: int, d: int)
    requires IsFirstMinPair(xs, ys, score, a, b) && IsFirstMinPair(xs, ys, score, c, d)
    ensures a == c && b == d
  {
    assert Before(a, b, |xs|, 0) && Before(c, d, |xs|, 0);
  }

  /** The indices of the first pair of minimal score, as a function of the grid. */
  ghost function FirstMinPairOf<A, B>(xs: seq<A>, ys: seq<B>, score: (A, B) -> real): (r: (int, int))
    requires |xs| > 0 && |ys| > 0
    ensures IsFirstMinPair(xs, ys, score, r.0, r.1)
  {
    FirstMinPairExists(xs, ys, score);
    var bi, bj :| IsFirstMinPair(xs, ys, score, bi, bj);
    (bi, bj)
  }

  /** Tries every pair of `xs` × `ys` in nested-loop order, keeping the best so far and replacing
      it only on a strictly smaller score (the best score starts at infinity). The result is the
      first pair of minimal score, or None when either sequence is empty. */
  method ArgMinPair<A, B>(xs: seq<A>, ys: seq<B>, score: (A, B) -> real)
    returns (best: Option<(A, B)>, ghost bi: int, ghost bj: int)
    ensures best.None? <==> |xs| == 0 || |ys| == 0
    ensures best.Some? ==> IsFirstMinPair(xs, ys, score, bi, bj) && best.value == (xs[bi], ys[bj])
  {
    best := None;
    var bestScore: real := 0.0;
    bi, bj := 0, 0;
    var i := 0;
    while i < |xs|
      invariant 0 <= i <= |xs|
      invariant best.None? <==> i == 0 || |ys| == 0
      invariant best.Some? ==>
        FirstMinUpTo(xs, ys, score, bi, bj, i, 0) && best.value == (xs[bi], ys[bj]) && bestScore == score(xs[bi], ys[bj])
    {
      var j := 0;
      while j < |ys|
        invariant 0 <= j <= |ys|
        invariant best.None? <==> (i == 0 || |ys| == 0) && j == 0
        invariant best.Some? ==>
          FirstMinUpTo(xs, ys, score, bi, bj, i, j) && best.value == (xs[bi], ys[bj]) && bestScore == score(xs[bi], ys[bj])
      {
        var s := score(xs[i], ys[j]);
        if best.None? || s < bestScore {
          best, bestScore := Some((xs[i], ys[j])), s;
          bi, bj := i, j;
        }
        j := j + 1;
      }
      i := i + 1;
    }
  }

  /** The first element of minimal score, as a best-so-far loop with a strict `<` finds it. */
  ghost predicate IsFirstMin<A>(xs: seq<A>, score: A -> real, b: int)
  {
    0 <= b < |xs| &&
    forall k :: 0 <= k < |xs| ==> score(xs[b]) <= score(xs[k]) && (k < b ==> score(xs[b]) < score(xs[k]))
  }

  method ArgMin<A>(xs: seq<A>, score: A -> real) returns (best: Option<A>, ghost b: int)
    ensures best.None? <==> |xs| == 0
    ensures best.Some? ==> IsFirstMin(xs, score, b) && best.value == xs[b]
  {
    best := None;
    var bestScore: real := 0.0;
    b := 0;
    var i := 0;
    while i < |xs|
      invariant 0 <= i <= |xs|
      invariant best.None? <==> i == 0
      invariant best.Some? ==> 0 <= b < i && best.value == xs[b] && bestScore == score(xs[b])
      invariant best.Some? ==> forall k :: 0 <= k < i ==> score(xs[b]) <= score(xs[k]) && (k < b ==> score(xs[b]) < score(xs[k]))
    {
      var s := score(xs[i]);
      if best.None? || s < bestScore {
        best, bestScore, b := Some(xs[i]), s, i;
      }
      i := i + 1;
    }
  }
}
