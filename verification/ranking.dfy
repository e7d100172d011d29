/**
 Ranking of tag groups: `Object.values(map).sort((a, b) => b.count - a.count).slice(0, n)`.

 `Object.values` lists an object's own keys in the order ECMAScript fixes
 for ordinary objects (section 10.1.11.1 of ECMA-262, OrdinaryOwnPropertyKeys):
 first the keys that are array indices, in ascending numeric order, then the
 other string keys in insertion order. The sort is stable (section 23.1.3.30
 of ECMA-262), so groups with equal counts keep that order.
 */
module Ranking {
  import opened Base
  import opened Text
  import opened Order
  import opened Model
  import opened Tags

  /** 2^32 - 1: array indices are the canonical numerals below it. */
  const IndexBound: nat := 4294967295

  /** `k` is an array index: a canonical decimal numeral (no leading zero unless "0") below 2^32 - 1. */
  predicate IsIndexKey(k: string) {
    && |k| > 0
    && AllDigits(k)
    && (k[0] != '0' || |k| == 1)
    && ParseNat(k) < IndexBound
  }

  predicate IndexKeyed(g: TagGroup) {
    IsIndexKey(Key(g))
  }

  function IndexRank(g: TagGroup): int {
    ParseNat(Key(g))
  }

  /** The groups whose key is an array index, in their order in `groups`. */
  function IndexGroups(groups: seq<TagGroup>): (r: seq<TagGroup>)
    ensures forall g :: g in r <==> g in groups && IndexKeyed(g)
  {
    if |groups| == 0 then []
    else
      var g := groups[|groups| - 1];
      IndexGroups(groups[..|groups| - 1]) + (if IndexKeyed(g) then [g] else [])
  }

  /** The groups whose key is not an array index, in their order in `groups`. */
  function NamedGroups(groups: seq<TagGroup>): (r: seq<TagGroup>)
    ensures forall g :: g in r <==> g in groups && !IndexKeyed(g)
  {
    if |groups| == 0 then []
    else
      var g := groups[|groups| - 1];
      NamedGroups(groups[..|groups| - 1]) + (if IndexKeyed(g) then [] else [g])
  }

  lemma {:induction false} SplitByKeyKind(groups: seq<TagGroup>)
    ensures multiset(IndexGroups(groups)) + multiset(NamedGroups(groups)) == multiset(groups)
    decreases |groups|
  {
    if |groups| > 0 {
      var init := groups[..|groups| - 1];
      var g := groups[|groups| - 1];
      assert groups == init + [g];
      SplitByKeyKind(init);
      if IndexKeyed(g) {
        assert IndexGroups(groups) == IndexGroups(init) + [g];
        assert NamedGroups(groups) == NamedGroups(init);
      } else {
        assert IndexGroups(groups) == IndexGroups(init);
        assert NamedGroups(groups) == NamedGroups(init) + [g];
      }
    }
  }

  /** The order `Object.values` lists the groups of a map filled in the order of `groups`. */
  function EnumerationOrder(groups: seq<TagGroup>): seq<TagGroup> {
    SortByRank(IndexGroups(groups), IndexRank) + NamedGroups(groups)
  }

  /** The sorted index-keyed run holds index-keyed groups in ascending numeric order. */
  lemma IndexRun(a: seq<TagGroup>, groups: seq<TagGroup>)
    requires a == SortByRank(IndexGroups(groups), IndexRank)
    ensures forall i :: 0 <= i < |a| ==> IndexKeyed(a[i])
    ensures forall i, j :: 0 <= i < j < |a| ==> IndexRank(a[i]) <= IndexRank(a[j])
  {
    forall i | 0 <= i < |a|
      ensures IndexKeyed(a[i])
    {
      assert a[i] in multiset(IndexGroups(groups));
    }
    assert SortedBy(a, IndexRank);
  }

  lemma NamedRun(b: seq<TagGroup>, groups: seq<TagGroup>)
    requires b == NamedGroups(groups)
    ensures forall j :: 0 <= j < |b| ==> !IndexKeyed(b[j])
  {
    assert forall j :: 0 <= j < |b| ==> b[j] in b;
  }

  /**
   The enumeration order is a permutation of the groups that puts every
   index-keyed group first, the index-keyed ones in ascending numeric order and
   the others exactly in insertion order.
   */
  lemma EnumerationOrderSpec(groups: seq<TagGroup>)
    ensures var r := EnumerationOrder(groups);
      && multiset(r) == multiset(groups)
      && |r| == |groups|
      && (forall i, j :: 0 <= i < j < |r| && !IndexKeyed(r[i]) ==> !IndexKeyed(r[j]))
      && (forall i, j :: 0 <= i < j < |r| && IndexKeyed(r[j]) ==> IndexRank(r[i]) <= IndexRank(r[j]))
      && r[|IndexGroups(groups)|..] == NamedGroups(groups)
  {
    EnumerationPermutation(groups);
    EnumerationPartitioned(groups);
  }

  lemma EnumerationPermutation(groups: seq<TagGroup>)
    ensures multiset(EnumerationOrder(groups)) == multiset(groups)
    ensures |EnumerationOrder(groups)| == |groups|
  {
    var r := EnumerationOrder(groups);
    SplitByKeyKind(groups);
    assert |multiset(r)| == |multiset(groups)|;
  }

  lemma EnumerationPartitioned(groups: seq<TagGroup>)
    ensures var r := EnumerationOrder(groups);
      && (forall i, j :: 0 <= i < j < |r| && !IndexKeyed(r[i]) ==> !IndexKeyed(r[j]))
      && (forall i, j :: 0 <= i < j < |r| && IndexKeyed(r[j]) ==> IndexRank(r[i]) <= IndexRank(r[j]))
      && r[|IndexGroups(groups)|..] == NamedGroups(groups)
  {
    var a := SortByRank(IndexGroups(groups), IndexRank);
    var b := NamedGroups(groups);
    assert EnumerationOrder(groups) == a + b;
    IndexRun(a, groups);
    NamedRun(b, groups);
    ConcatPartitioned(a, b);
  }

  /** Concatenating a sorted run of index-keyed groups and a run of others keeps the index-keyed ones first and sorted. */
  lemma ConcatPartitioned(a: seq<TagGroup>, b: seq<TagGroup>)
    requires forall i, j :: 0 <= i < j < |a| ==> IndexRank(a[i]) <= IndexRank(a[j])
    requires forall i :: 0 <= i < |a| ==> IndexKeyed(a[i])
    requires forall j :: 0 <= j < |b| ==> !IndexKeyed(b[j])
    ensures forall i, j :: 0 <= i < j < |a + b| && !IndexKeyed((a + b)[i]) ==> !IndexKeyed((a + b)[j])
    ensures forall i, j :: 0 <= i < j < |a + b| && IndexKeyed((a + b)[j]) ==> IndexRank((a + b)[i]) <= IndexRank((a + b)[j])
  {
    var r := a + b;
    assert forall i :: 0 <= i < |a| ==> r[i] == a[i];
    assert forall j :: |a| <= j < |r| ==> r[j] == b[j - |a|];
  }

  function CountRank(g: TagGroup): int {
    -(g.count as int)
  }

  /** `sort((a, b) => b.count - a.count)` applied to the enumeration order. */
  function RankByCount(groups: seq<TagGroup>): (r: seq<TagGroup>)
    ensures multiset(r) == multiset(groups)
    ensures |r| == |groups|
    ensures forall i, j :: 0 <= i < j < |r| ==> r[i].count >= r[j].count
  {
    var e := EnumerationOrder(groups);
    EnumerationPermutation(groups);
    var r := SortByRank(e, CountRank);
    assert SortedBy(r, CountRank);
    r
  }

  /** `s.slice(0, n)`. */
  function Prefix<T>(s: seq<T>, n: nat): (r: seq<T>)
    ensures |r| == Min(n, |s|)
    ensures forall i :: 0 <= i < |r| ==> r[i] == s[i]
  {
    if n < |s| then s[..n] else s
  }

  /** `topTags(entries, n)`: the first `n` groups of the `{}`-keyed grouping by descending count. */
  function TopTags(entries: seq<Entry>, n: nat): (r: seq<TagGroup>)
    ensures |r| <= n
  {
    var ranked := RankByCount(GroupTagsAsWritten(Occurrences(entries)));
    Prefix(ranked, n)
  }

  /**
   What `topTags` returns: `min(n, number of distinct keys other than the
   inherited ones)` groups, each a correct summary of its key's occurrences,
   in non-increasing count order; every group left out has a count no larger
   than any group kept; a key "constructor" or "__proto__" never appears.
   */
  lemma TopTagsSpec(entries: seq<Entry>, n: nat)
    ensures var occs := Occurrences(entries);
      var all := GroupTagsAsWritten(occs);
      var r := TopTags(entries, n);
      && |r| == Min(n, |OccKeys(occs) - InheritedKeys|)
      && (forall i :: 0 <= i < |r| ==> Summarises(r[i], OwnKeyed(occs)) && r[i] in all)
      && (forall i :: 0 <= i < |r| ==> Key(r[i]) !in InheritedKeys && r[i].count == CountKey(occs, Key(r[i])) && r[i].sum == SumKey(occs, Key(r[i])))
      && (forall i, j :: 0 <= i < j < |r| ==> r[i].count >= r[j].count)
      && (forall g :: g in all && g !in r ==> forall i :: 0 <= i < |r| ==> g.count <= r[i].count)
  {
    var occs := Occurrences(entries);
    var own := OwnKeyed(occs);
    var all := GroupTagsAsWritten(occs);
    AsWrittenDropsInherited(occs);
    GroupTagsCorrect(own);
    OwnKeyedKeys(occs);
    var ranked := RankByCount(all);
    assert TopTags(entries, n) == Prefix(ranked, n);
    var m := Min(n, |ranked|);
    TopOfRanking(own, all, ranked, m);
    assert Prefix(ranked, n) == ranked[..m];
    OwnGroups(occs, ranked[..m]);
  }

  /** A group of the `{}`-keyed grouping has a non-inherited key, whose count and sum are those of all occurrences. */
  lemma OwnGroups(occs: seq<Occurrence>, r: seq<TagGroup>)
    requires forall i :: 0 <= i < |r| ==> r[i] in GroupTagsAsWritten(occs) && Summarises(r[i], OwnKeyed(occs))
    ensures forall i :: 0 <= i < |r| ==> Key(r[i]) !in InheritedKeys && r[i].count == CountKey(occs, Key(r[i])) && r[i].sum == SumKey(occs, Key(r[i]))
  {
    AsWrittenGroups(occs);
    forall i | 0 <= i < |r|
      ensures Key(r[i]) !in InheritedKeys && r[i].count == CountKey(occs, Key(r[i])) && r[i].sum == SumKey(occs, Key(r[i]))
    {
      assert Key(r[i]) in KeySet(GroupTagsAsWritten(occs));
      OwnKeyedCounts(occs, Key(r[i]));
    }
  }

  lemma TopOfRanking(occs: seq<Occurrence>, all: seq<TagGroup>, ranked: seq<TagGroup>, m: nat)
    requires GroupsOf(all, occs)
    requires multiset(ranked) == multiset(all) && |ranked| == |all|
    requires forall i, j :: 0 <= i < j < |ranked| ==> ranked[i].count >= ranked[j].count
    requires m <= |ranked|
    ensures var r := ranked[..m];
      && |r| == m
      && (forall i :: 0 <= i < |r| ==> Summarises(r[i], occs) && r[i] in all)
      && (forall i, j :: 0 <= i < j < |r| ==> r[i].count >= r[j].count)
      && (forall g :: g in all && g !in r ==> forall i :: 0 <= i < |r| ==> g.count <= r[i].count)
  {
    PrefixMembers(all, ranked, m);
    PrefixIsTop(ranked, m);
    assert AllSummarise(all, occs);
    forall i | 0 <= i < m
      ensures Summarises(ranked[i], occs)
    {
      var j :| 0 <= j < |all| && all[j] == ranked[i];
    }
  }

  /** The full ranking holds one correct group per distinct key that is not an inherited property name. */
  lemma RankingSpec(occs: seq<Occurrence>)
    ensures var all := GroupTagsAsWritten(occs);
      var r := RankByCount(all);
      && |r| == |OccKeys(occs) - InheritedKeys|
      && (forall i :: 0 <= i < |r| ==> Summarises(r[i], OwnKeyed(occs)) && r[i] in all)
      && (forall i :: 0 <= i < |r| ==> Key(r[i]) !in InheritedKeys && r[i].count == CountKey(occs, Key(r[i])) && r[i].sum == SumKey(occs, Key(r[i])))
  {
    var all := GroupTagsAsWritten(occs);
    RankedAsWritten(occs, all, RankByCount(all));
  }

  lemma RankedAsWritten(occs: seq<Occurrence>, all: seq<TagGroup>, ranked: seq<TagGroup>)
    requires all == GroupTagsAsWritten(occs)
    requires multiset(ranked) == multiset(all) && |ranked| == |all|
    requires forall i, j :: 0 <= i < j < |ranked| ==> ranked[i].count >= ranked[j].count
    ensures |ranked| == |OccKeys(occs) - InheritedKeys|
    ensures forall i :: 0 <= i < |ranked| ==> Summarises(ranked[i], OwnKeyed(occs)) && ranked[i] in all
    ensures forall i :: 0 <= i < |ranked| ==> Key(ranked[i]) !in InheritedKeys && ranked[i].count == CountKey(occs, Key(ranked[i])) && ranked[i].sum == SumKey(occs, Key(ranked[i]))
  {
    var own := OwnKeyed(occs);
    AsWrittenDropsInherited(occs);
    GroupTagsCorrect(own);
    OwnKeyedKeys(occs);
    TopOfRanking(own, all, ranked, |ranked|);
    assert ranked[..|ranked|] == ranked;
    OwnGroups(occs, ranked);
  }

  /** A prefix of a permutation of `all` holds members of `all`. */
  lemma PrefixMembers(all: seq<TagGroup>, ranked: seq<TagGroup>, m: nat)
    requires multiset(ranked) == multiset(all) && m <= |ranked|
    ensures forall i :: 0 <= i < m ==> ranked[i] in all
    ensures forall g :: g in all ==> g in ranked
  {
    forall i | 0 <= i < m
      ensures ranked[i] in all
    {
      assert ranked[i] in multiset(all);
    }
    forall g | g in all
      ensures g in ranked
    {
      assert g in multiset(ranked);
    }
  }

  /** In a list sorted by descending count, whatever lies beyond a prefix counts no more than the prefix. */
  lemma PrefixIsTop(ranked: seq<TagGroup>, m: nat)
    requires m <= |ranked|
    requires forall i, j :: 0 <= i < j < |ranked| ==> ranked[i].count >= ranked[j].count
    ensures forall g :: g in ranked && g !in ranked[..m] ==> forall i :: 0 <= i < m ==> g.count <= ranked[i].count
  {
    forall g | g in ranked && g !in ranked[..m]
      ensures forall i :: 0 <= i < m ==> g.count <= ranked[i].count
    {
      assert forall k :: 0 <= k < m ==> ranked[..m][k] == ranked[k];
      var j :| 0 <= j < |ranked| && ranked[j] == g;
    }
  }

  /** Groups of equal count appear in the ranking in enumeration order. */
  lemma RankByCountStable(groups: seq<TagGroup>, k: int)
    ensures WithRank(RankByCount(groups), CountRank, k) == WithRank(EnumerationOrder(groups), CountRank, k)
  {
    var e := EnumerationOrder(groups);
    assert RankByCount(groups) == SortByRank(e, CountRank);
    SortByRankStable(e, CountRank, k);
  }
}
