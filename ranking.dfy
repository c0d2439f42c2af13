/**
 * Ranking partitions by a comparator.
 *
 * The collector orders records with `PurgeStatistics.PURGE_COMPARATOR`, whose
 * definition is not part of this model. It is taken here as a parameter
 * `le`, where `le(a, b)` means `compare(a, b) <= 0`: `a` ranks at least as
 * high as `b` (it is listed no later than `b` in the report). The only
 * assumption made about it is that it is a total preorder, as every
 * `java.util.Comparator` consistent with its contract is.
 */
module Ranking {

  /** `le` is total and transitive (and hence reflexive). */
  ghost predicate TotalPreorder<T(!new)>(le: (T, T) -> bool) {
    && (forall a, b :: le(a, b) || le(b, a))
    && (forall a, b, c :: le(a, b) && le(b, c) ==> le(a, c))
  }

  /**
   * No two distinct records of `pool` rank equally: the comparator breaks
   * every tie among them.
   */
  ghost predicate DistinctRanks<T>(le: (T, T) -> bool, pool: multiset<T>) {
    forall a, b :: a in pool && b in pool && le(a, b) && le(b, a) ==> a == b
  }

  function Min(a: int, b: int): int {
    if a <= b then a else b
  }

  /** Best-ranked first: every element ranks at least as high as each later one. */
  ghost predicate Sorted<T>(le: (T, T) -> bool, s: seq<T>) {
    forall i, j :: 0 <= i < j < |s| ==> le(s[i], s[j])
  }

  /** Every element of `kept` ranks at least as high as every element of `dropped`. */
  ghost predicate Dominates<T>(le: (T, T) -> bool, kept: multiset<T>, dropped: multiset<T>) {
    forall a, b :: a in kept && b in dropped ==> le(a, b)
  }

  /** `m` is a lowest-ranked element of `s` (a greatest one under the comparator). */
  ghost predicate IsGreatest<T>(le: (T, T) -> bool, m: T, s: multiset<T>) {
    m in s && forall y :: y in s ==> le(y, m)
  }

  /** `m` is a best-ranked element of `s` (a least one under the comparator). */
  ghost predicate IsLeast<T>(le: (T, T) -> bool, m: T, s: multiset<T>) {
    m in s && forall y :: y in s ==> le(m, y)
  }

  /** Index `i` holds a greatest element of `s`; this form can be evaluated. */
  predicate GreatestAt<T>(le: (T, T) -> bool, s: seq<T>, i: int) {
    0 <= i < |s| && forall j :: 0 <= j < |s| ==> le(s[j], s[i])
  }

  /** Index `i` holds a least element of `s`; this form can be evaluated. */
  predicate LeastAt<T>(le: (T, T) -> bool, s: seq<T>, i: int) {
    0 <= i < |s| && forall j :: 0 <= j < |s| ==> le(s[i], s[j])
  }

  /** A non-empty collection has a greatest element. */
  lemma {:induction false} GreatestExists<T(!new)>(le: (T, T) -> bool, s: seq<T>) returns (i: nat)
    requires TotalPreorder(le) && |s| > 0
    ensures GreatestAt(le, s, i)
  {
    if |s| == 1 {
      i := 0;
      assert le(s[0], s[0]);
    } else {
      var init := s[..|s| - 1];
      var k := GreatestExists(le, init);
      if le(init[k], s[|s| - 1]) {
        i := |s| - 1;
        forall j | 0 <= j < |s| ensures le(s[j], s[i]) {
          if j < |s| - 1 {
            assert s[j] == init[j];
          }
        }
      } else {
        i := k;
        forall j | 0 <= j < |s| ensures le(s[j], s[i]) {
          if j < |s| - 1 {
            assert s[j] == init[j];
          }
        }
      }
    }
  }

  /** A non-empty collection has a least element. */
  lemma {:induction false} LeastExists<T(!new)>(le: (T, T) -> bool, s: seq<T>) returns (i: nat)
    requires TotalPreorder(le) && |s| > 0
    ensures LeastAt(le, s, i)
  {
    if |s| == 1 {
      i := 0;
      assert le(s[0], s[0]);
    } else {
      var init := s[..|s| - 1];
      var k := LeastExists(le, init);
      if le(s[|s| - 1], init[k]) {
        i := |s| - 1;
        forall j | 0 <= j < |s| ensures le(s[i], s[j]) {
          if j < |s| - 1 {
            assert s[j] == init[j];
          }
        }
      } else {
        i := k;
        forall j | 0 <= j < |s| ensures le(s[i], s[j]) {
          if j < |s| - 1 {
            assert s[j] == init[j];
          }
        }
      }
    }
  }

  /** An index holding a greatest element names a greatest element of the collection. */
  lemma GreatestAtIsGreatest<T>(le: (T, T) -> bool, s: seq<T>, i: int)
    requires GreatestAt(le, s, i)
    ensures IsGreatest(le, s[i], multiset(s))
  {
    forall y | y in multiset(s) ensures le(y, s[i]) {
      var j :| 0 <= j < |s| && s[j] == y;
    }
  }

  /** An index holding a least element names a least element of the collection. */
  lemma LeastAtIsLeast<T>(le: (T, T) -> bool, s: seq<T>, i: int)
    requires LeastAt(le, s, i)
    ensures IsLeast(le, s[i], multiset(s))
  {
    forall y | y in multiset(s) ensures le(s[i], y) {
      var j :| 0 <= j < |s| && s[j] == y;
    }
  }

  /**
   * Admitting `x` into a full selection and then evicting a greatest
   * element `m` of the result keeps the selection ranked at least as high as
   * everything evicted so far, `m` included.
   */
  lemma EvictionKeepsDominance<T(!new)>(le: (T, T) -> bool, kept: multiset<T>, dropped: multiset<T>, x: T, m: T)
    requires TotalPreorder(le)
    requires Dominates(le, kept, dropped)
    requires IsGreatest(le, m, kept + multiset{x})
    ensures Dominates(le, kept + multiset{x} - multiset{m}, dropped + multiset{m})
  {
    var kept' := kept + multiset{x} - multiset{m};
    forall a, b | a in kept' && b in dropped + multiset{m} ensures le(a, b) {
      if b == m {
        assert a in kept + multiset{x};
      } else if a in kept {
        assert b in dropped;
      } else {
        // a is the newcomer, and what left was an older element ranking no higher than it
        assert a == x && m != x && m in kept;
        assert le(x, m) && le(m, b);
      }
    }
  }

  /**
   * Moving a least element `x` of the remaining bag to the output keeps the
   * output ranked at least as high as what remains.
   */
  lemma TakeLeastKeepsDominance<T>(le: (T, T) -> bool, done: multiset<T>, x: T, rest: multiset<T>)
    requires Dominates(le, done, rest + multiset{x})
    requires IsLeast(le, x, rest + multiset{x})
    ensures forall y :: y in done ==> le(y, x)
    ensures Dominates(le, done + multiset{x}, rest)
  {
    forall a, b | a in done + multiset{x} && b in rest ensures le(a, b) {
      assert b in rest + multiset{x};
    }
  }

  /**
   * `rows` lists, best-ranked first, a selection from `pool` that ranks at
   * least as high as everything in `pool` it leaves out.
   */
  ghost predicate IsTopSelection<T>(le: (T, T) -> bool, pool: multiset<T>, rows: seq<T>) {
    && Sorted(le, rows)
    && multiset(rows) <= pool
    && Dominates(le, multiset(rows), pool - multiset(rows))
  }

  /** `rows` is a top-`k` of `stream`, listed best first. */
  ghost predicate IsTopK<T>(le: (T, T) -> bool, k: nat, stream: seq<T>, rows: seq<T>) {
    |rows| == Min(|stream|, k) && IsTopSelection(le, multiset(stream), rows)
  }

  /** The first row of a top selection is a best-ranked element of the whole pool. */
  lemma HeadOfTopSelection<T(!new)>(le: (T, T) -> bool, pool: multiset<T>, rows: seq<T>)
    requires TotalPreorder(le) && IsTopSelection(le, pool, rows) && |rows| > 0
    ensures IsLeast(le, rows[0], pool)
  {
    forall y | y in pool ensures le(rows[0], y) {
      if y in multiset(rows) {
        var j :| 0 <= j < |rows| && rows[j] == y;
        if j == 0 {
          assert le(y, y);
        }
      } else {
        assert y in pool - multiset(rows);
      }
    }
  }

  /** Dropping the first row of a top selection gives a top selection of the rest of the pool. */
  lemma TailOfTopSelection<T(!new)>(le: (T, T) -> bool, pool: multiset<T>, rows: seq<T>)
    requires IsTopSelection(le, pool, rows) && |rows| > 0
    ensures IsTopSelection(le, pool - multiset{rows[0]}, rows[1..])
  {
    assert rows == [rows[0]] + rows[1..];
    assert multiset(rows) == multiset{rows[0]} + multiset(rows[1..]);
    var pool' := pool - multiset{rows[0]};
    assert pool' - multiset(rows[1..]) == pool - multiset(rows);
  }

  /** When no two records of the pool tie, two non-empty top selections of it start alike. */
  lemma HeadsAgree<T(!new)>(le: (T, T) -> bool, pool: multiset<T>, r1: seq<T>, r2: seq<T>)
    requires TotalPreorder(le) && DistinctRanks(le, pool)
    requires IsTopSelection(le, pool, r1) && IsTopSelection(le, pool, r2) && |r1| > 0 && |r2| > 0
    ensures r1[0] == r2[0]
  {
    HeadOfTopSelection(le, pool, r1);
    HeadOfTopSelection(le, pool, r2);
    assert r1[0] in multiset(r1) && r2[0] in multiset(r2);
    assert le(r1[0], r2[0]) && le(r2[0], r1[0]);
  }

  /**
   * When no two records of the pool tie, a top selection of a given length
   * is unique: arrival order cannot change what is reported.
   */
  lemma {:induction false} TopSelectionUnique<T(!new)>(le: (T, T) -> bool, pool: multiset<T>, r1: seq<T>, r2: seq<T>)
    requires TotalPreorder(le) && DistinctRanks(le, pool)
    requires IsTopSelection(le, pool, r1) && IsTopSelection(le, pool, r2) && |r1| == |r2|
    ensures r1 == r2
  {
    if |r1| > 0 {
      HeadsAgree(le, pool, r1, r2);
      TailOfTopSelection(le, pool, r1);
      TailOfTopSelection(le, pool, r2);
      TopSelectionUnique(le, pool - multiset{r1[0]}, r1[1..], r2[1..]);
      HeadAndTail(r1, r2);
    }
  }

  /** Two non-empty sequences with the same first element and the same rest are equal. */
  lemma HeadAndTail<T>(r1: seq<T>, r2: seq<T>)
    requires |r1| > 0 && |r2| > 0 && r1[0] == r2[0] && r1[1..] == r2[1..]
    ensures r1 == r2
  {
    assert r1 == [r1[0]] + r1[1..] && r2 == [r2[0]] + r2[1..];
  }

  /**
   * Two streams holding the same records, in any arrival order, have the
   * same top-`k` when no two of those records tie.
   */
  lemma TopKDeterministic<T(!new)>(le: (T, T) -> bool, k: nat, s1: seq<T>, s2: seq<T>, r1: seq<T>, r2: seq<T>)
    requires TotalPreorder(le) && DistinctRanks(le, multiset(s1))
    requires multiset(s1) == multiset(s2)
    requires IsTopK(le, k, s1, r1) && IsTopK(le, k, s2, r2)
    ensures r1 == r2
  {
    assert |s1| == |multiset(s1)| == |multiset(s2)| == |s2|;
    TopSelectionUnique(le, multiset(s1), r1, r2);
  }

  // ---------------------------------------------------------------------------
  // Reference: sort the whole stream, then take the first k.

  function Insert<T>(le: (T, T) -> bool, x: T, s: seq<T>): (r: seq<T>)
    ensures |r| == |s| + 1 && multiset(r) == multiset(s) + multiset{x}
  {
    if s == [] then [x]
    else if le(x, s[0]) then [x] + s
    else
      assert s == [s[0]] + s[1..];
      [s[0]] + Insert(le, x, s[1..])
  }

  /** Insertion sort of the whole stream: the in-memory reference the top-K is compared with. */
  function SortBy<T>(le: (T, T) -> bool, s: seq<T>): (r: seq<T>)
    ensures |r| == |s| && multiset(r) == multiset(s)
  {
    if s == [] then []
    else
      assert s == [s[0]] + s[1..];
      Insert(le, s[0], SortBy(le, s[1..]))
  }

  /** Putting in front an element that ranks at least as high as all the rest keeps a sequence sorted. */
  lemma PrependSorted<T>(le: (T, T) -> bool, x: T, s: seq<T>)
    requires Sorted(le, s) && forall y :: y in multiset(s) ==> le(x, y)
    ensures Sorted(le, [x] + s)
  {
    var r := [x] + s;
    forall i, j | 0 <= i < j < |r| ensures le(r[i], r[j]) {
      assert r[j] == s[j - 1] && r[j] in multiset(s);
      if i > 0 {
        assert r[i] == s[i - 1];
      }
    }
  }

  /** Putting at the end an element that ranks no higher than all the rest keeps a sequence sorted. */
  lemma AppendSorted<T>(le: (T, T) -> bool, s: seq<T>, x: T)
    requires Sorted(le, s) && forall y :: y in multiset(s) ==> le(y, x)
    ensures Sorted(le, s + [x])
  {
    var r := s + [x];
    forall i, j | 0 <= i < j < |r| ensures le(r[i], r[j]) {
      assert r[i] == s[i] && r[i] in multiset(s);
    }
  }

  lemma {:induction false} InsertSorted<T(!new)>(le: (T, T) -> bool, x: T, s: seq<T>)
    requires TotalPreorder(le) && Sorted(le, s)
    ensures Sorted(le, Insert(le, x, s))
  {
    if s == [] {
    } else if le(x, s[0]) {
      forall y | y in multiset(s) ensures le(x, y) {
        var j :| 0 <= j < |s| && s[j] == y;
        if j > 0 {
          assert le(s[0], s[j]);
        }
      }
      PrependSorted(le, x, s);
    } else {
      var tail := Insert(le, x, s[1..]);
      assert Sorted(le, s[1..]) by {
        forall i, j | 0 <= i < j < |s[1..]| ensures le(s[1..][i], s[1..][j]) {
          assert s[1..][i] == s[i + 1] && s[1..][j] == s[j + 1];
        }
      }
      InsertSorted(le, x, s[1..]);
      forall y | y in multiset(tail) ensures le(s[0], y) {
        if y == x {
          assert le(x, s[0]) || le(s[0], x);
        } else {
          assert y in multiset(s[1..]);
          var j :| 0 <= j < |s[1..]| && s[1..][j] == y;
          assert s[1..][j] == s[j + 1];
        }
      }
      PrependSorted(le, s[0], tail);
    }
  }

  lemma {:induction false} SortBySorted<T(!new)>(le: (T, T) -> bool, s: seq<T>)
    requires TotalPreorder(le)
    ensures Sorted(le, SortBy(le, s))
  {
    if s != [] {
      SortBySorted(le, s[1..]);
      InsertSorted(le, s[0], SortBy(le, s[1..]));
    }
  }

  /** Any prefix of a sorted sequence is a top selection of the whole sequence. */
  lemma SortedPrefixIsTopSelection<T(!new)>(le: (T, T) -> bool, t: seq<T>, k: nat)
    requires Sorted(le, t) && k <= |t|
    ensures IsTopSelection(le, multiset(t), t[..k])
  {
    assert t == t[..k] + t[k..];
    assert multiset(t) == multiset(t[..k]) + multiset(t[k..]);
    assert multiset(t) - multiset(t[..k]) == multiset(t[k..]);
    forall a, b | a in multiset(t[..k]) && b in multiset(t[k..]) ensures le(a, b) {
      var i :| 0 <= i < k && t[..k][i] == a;
      var j :| 0 <= j < |t| - k && t[k..][j] == b;
      assert t[i] == a && t[k + j] == b;
    }
  }

  /** The first `min(N, k)` records of a full sort are a valid top-`k`. */
  lemma FullSortPrefixIsTopK<T(!new)>(le: (T, T) -> bool, k: nat, stream: seq<T>)
    requires TotalPreorder(le)
    ensures IsTopK(le, k, stream, SortBy(le, stream)[..Min(|stream|, k)])
  {
    var t := SortBy(le, stream);
    SortBySorted(le, stream);
    assert |t| == |multiset(t)| == |multiset(stream)| == |stream|;
    SortedPrefixIsTopSelection(le, t, Min(|stream|, k));
  }

  /**
   * When no two records of the stream tie, a top-`k` is exactly what a full
   * sort followed by truncation would report.
   */
  lemma TopKMatchesFullSort<T(!new)>(le: (T, T) -> bool, k: nat, stream: seq<T>, rows: seq<T>)
    requires TotalPreorder(le) && DistinctRanks(le, multiset(stream))
    requires IsTopK(le, k, stream, rows)
    ensures rows == SortBy(le, stream)[..Min(|stream|, k)]
  {
    FullSortPrefixIsTopK(le, k, stream);
    TopKDeterministic(le, k, stream, stream, rows, SortBy(le, stream)[..Min(|stream|, k)]);
  }
}
