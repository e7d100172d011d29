/**
 The two orders the source sorts by: JavaScript's default string comparison
 (`Array.prototype.sort()` with no comparator, used on day labels) and a
 stable sort by an integer rank (`sort((a, b) => b.count - a.count)` and the
 database's `sort({ createdAt: -1 })`).
 */
module Order {

  // ---------------------------------------------------------------------------
  // String order

  /** `a < b` for strings: character by character, a proper prefix first. */
  predicate StrLt(a: string, b: string) {
    |b| > 0 && (|a| == 0 || a[0] < b[0] || (a[0] == b[0] && StrLt(a[1..], b[1..])))
  }

  lemma {:induction false} StrLtIrreflexive(a: string)
    ensures !StrLt(a, a)
  {
    if |a| > 0 {
      StrLtIrreflexive(a[1..]);
    }
  }

  lemma {:induction false} StrLtTransitive(a: string, b: string, c: string)
    requires StrLt(a, b) && StrLt(b, c)
    ensures StrLt(a, c)
  {
    if |a| > 0 && a[0] == b[0] && b[0] == c[0] {
      StrLtTransitive(a[1..], b[1..], c[1..]);
    }
  }

  /** Two different strings are ordered one way or the other. */
  lemma {:induction false} StrLtTotal(a: string, b: string)
    ensures a == b || StrLt(a, b) || StrLt(b, a)
  {
    if |a| > 0 && |b| > 0 && a[0] == b[0] {
      StrLtTotal(a[1..], b[1..]);
      if a[1..] == b[1..] {
        assert a == [a[0]] + a[1..] && b == [b[0]] + b[1..];
      }
    }
  }

  lemma StrLtAsymmetric(a: string, b: string)
    requires StrLt(a, b)
    ensures !StrLt(b, a)
  {
    if StrLt(b, a) {
      StrLtTransitive(a, b, a);
      StrLtIrreflexive(a);
    }
  }

  // ---------------------------------------------------------------------------
  // Stable sort by an integer rank

  ghost predicate SortedBy<T>(s: seq<T>, rank: T -> int) {
    forall i, j :: 0 <= i < j < |s| ==> rank(s[i]) <= rank(s[j])
  }

  /** The elements of `s` whose rank is `k`, in their order in `s`. */
  function WithRank<T>(s: seq<T>, rank: T -> int, k: int): seq<T> {
    if |s| == 0 then []
    else WithRank(s[..|s| - 1], rank, k) + (if rank(s[|s| - 1]) == k then [s[|s| - 1]] else [])
  }

  lemma {:induction false} WithRankAppend<T>(a: seq<T>, b: seq<T>, rank: T -> int, k: int)
    ensures WithRank(a + b, rank, k) == WithRank(a, rank, k) + WithRank(b, rank, k)
    decreases |b|
  {
    if |b| == 0 {
      assert a + b == a;
    } else {
      var b' := b[..|b| - 1];
      assert (a + b)[..|a + b| - 1] == a + b';
      WithRankAppend(a, b', rank, k);
    }
  }

  /** Inserts `x` into `s` after the last element whose rank is at most x's (scanning from the end). */
  function InsertByRank<T>(x: T, s: seq<T>, rank: T -> int): (r: seq<T>)
    ensures multiset(r) == multiset(s) + multiset{x}
    ensures |r| == |s| + 1
  {
    if |s| == 0 then [x]
    else
      var last := s[|s| - 1];
      var init := s[..|s| - 1];
      assert s == init + [last];
      if rank(x) < rank(last) then InsertByRank(x, init, rank) + [last]
      else s + [x]
  }

  lemma {:induction false} InsertByRankSorted<T>(x: T, s: seq<T>, rank: T -> int)
    requires SortedBy(s, rank)
    ensures SortedBy(InsertByRank(x, s, rank), rank)
    decreases |s|
  {
    if |s| > 0 {
      var last := s[|s| - 1];
      var init := s[..|s| - 1];
      assert s == init + [last];
      if rank(x) < rank(last) {
        var r' := InsertByRank(x, init, rank);
        InsertByRankSorted(x, init, rank);
        var r := r' + [last];
        forall i | 0 <= i < |r'|
          ensures rank(r'[i]) <= rank(last)
        {
          assert r'[i] in multiset(r');
          if r'[i] != x {
            assert r'[i] in multiset(init);
            var m :| 0 <= m < |init| && init[m] == r'[i];
            assert s[m] == r'[i];
          }
        }
        assert InsertByRank(x, s, rank) == r;
      } else {
        assert InsertByRank(x, s, rank) == s + [x];
      }
    }
  }

  /**
   Insertion sort by ascending rank: the result is ordered, holds the same
   elements, and keeps elements of equal rank in their input order.
   */
  function SortByRank<T>(s: seq<T>, rank: T -> int): (r: seq<T>)
    ensures SortedBy(r, rank)
    ensures multiset(r) == multiset(s)
    ensures |r| == |s|
  {
    if |s| == 0 then []
    else
      assert s == s[..|s| - 1] + [s[|s| - 1]];
      var sorted := SortByRank(s[..|s| - 1], rank);
      InsertByRankSorted(s[|s| - 1], sorted, rank);
      InsertByRank(s[|s| - 1], sorted, rank)
  }

  lemma {:induction false} InsertByRankStable<T>(x: T, s: seq<T>, rank: T -> int, k: int)
    ensures WithRank(InsertByRank(x, s, rank), rank, k) == WithRank(s + [x], rank, k)
    decreases |s|
  {
    WithRankAppend(s, [x], rank, k);
    if |s| > 0 {
      var last := s[|s| - 1];
      var init := s[..|s| - 1];
      assert s == init + [last];
      if rank(x) < rank(last) {
        var r' := InsertByRank(x, init, rank);
        InsertByRankStable(x, init, rank, k);
        WithRankAppend(r', [last], rank, k);
        WithRankAppend(init, [x], rank, k);
        WithRankAppend(init, [last], rank, k);
      } else {
        assert InsertByRank(x, s, rank) == s + [x];
      }
    }
  }

  /** Stability: for every rank, the elements of that rank keep their input order. */
  lemma {:induction false} SortByRankStable<T>(s: seq<T>, rank: T -> int, k: int)
    ensures WithRank(SortByRank(s, rank), rank, k) == WithRank(s, rank, k)
    decreases |s|
  {
    if |s| > 0 {
      var init := s[..|s| - 1];
      var x := s[|s| - 1];
      assert s == init + [x];
      SortByRankStable(init, rank, k);
      InsertByRankStable(x, SortByRank(init, rank), rank, k);
      WithRankAppend(SortByRank(init, rank), [x], rank, k);
      WithRankAppend(init, [x], rank, k);
    }
  }
}
