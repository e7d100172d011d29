/**
 `aggregateForUser` (aggregateController.js): the number of entries, the
 sum and average of their amounts, the day series and every tag group
 ranked by count.

 As written, the handler never produces these figures for a user with an
 entry. The statement `byDayMap[day] = (byDayMap[day] || 0) + num` is
 followed by a line that starts with `(`, so no semicolon is inserted
 (section 12.10 of ECMA-262, automatic semicolon insertion) and the two
 lines parse as one expression that calls `num(e.tags || [])`. `num` is a
 number, the call throws a TypeError on the first entry, and the catch
 block answers 500 "Aggregation failed". `AggregateAsWritten` models that;
 `Aggregate` models the evident intent, and the rest of the model uses it.
 */
module Aggregate {
  import opened Base
  import opened Order
  import opened Model
  import opened Series
  import opened Tags
  import opened Ranking

  datatype Aggregates = Aggregates(totalEntries: nat, sumNumeric: int, avgNumeric: real, byDay: seq<DayPoint>, byTag: seq<TagGroup>)

  datatype AggregateResponse =
    | AggregateOk(body: Aggregates)
    | AggregateFailed(status: nat, message: string)

  const FailureStatus: nat := 500
  const FailureMessage: string := "Aggregation failed"

  /** `totalEntries ? (sumNumeric / totalEntries) : 0`, exactly. */
  function Average(sum: int, n: nat): (r: real)
    ensures n == 0 ==> r == 0.0
    ensures n > 0 ==> r * (n as real) == sum as real
  {
    if n == 0 then 0.0 else (sum as real) / (n as real)
  }

  /**
   The aggregates the handler is evidently meant to compute for `user`: the
   statement boundary is restored, and the tags are still grouped in a plain
   object literal, so "constructor" and "__proto__" get no group.
   */
  function Aggregate(store: seq<Entry>, user: UserId, day: int -> string): (r: AggregateResponse)
    ensures r.AggregateOk?
    ensures r.body.totalEntries == |OwnedBy(store, user)|
  {
    var entries := OwnedBy(store, user);
    var sum := TotalValue(entries, MissingIsZero);
    AggregateOk(Aggregates(
      |entries|,
      sum,
      Average(sum, |entries|),
      DailySeries(entries, day, MissingIsZero),
      RankByCount(GroupTagsAsWritten(Occurrences(entries)))))
  }

  /** The handler as written: the loop body throws on the first entry. */
  function AggregateAsWritten(store: seq<Entry>, user: UserId, day: int -> string): (r: AggregateResponse)
    ensures r.AggregateFailed? <==> |OwnedBy(store, user)| > 0
    ensures r.AggregateFailed? ==> r.status == 500 && r.message == "Aggregation failed"
    ensures r.AggregateOk? ==> r.body.totalEntries == 0 && r.body.sumNumeric == 0 && r.body.byDay == [] && r.body.byTag == []
  {
    var entries := OwnedBy(store, user);
    if |entries| == 0 then AggregateOk(Aggregates(0, 0, 0.0, [], []))
    else AggregateFailed(FailureStatus, FailureMessage)
  }

  /**
   The intended aggregates: the average is that of the sum over the count,
   and the day series is in strictly ascending day order and adds up to the sum.
   */
  lemma AggregateSums(store: seq<Entry>, user: UserId, day: int -> string)
    ensures var a := Aggregate(store, user, day).body;
      && a.totalEntries == |OwnedBy(store, user)|
      && a.avgNumeric == Average(a.sumNumeric, a.totalEntries)
      && SeriesTotal(a.byDay) == a.sumNumeric
      && StrictlySorted(a.byDay)
  {
    var entries := OwnedBy(store, user);
    var sum := TotalValue(entries, MissingIsZero);
    var avg := Average(sum, |entries|);
    var series := DailySeries(entries, day, MissingIsZero);
    AscendingIsStrict(series);
    assert Aggregate(store, user, day).body == Aggregates(|entries|, sum, avg, series, RankByCount(GroupTagsAsWritten(Occurrences(entries))));
  }

  /**
   The tag ranking holds one correct group per distinct key other than
   "constructor" and "__proto__", in non-increasing count order.
   */
  lemma AggregateTags(store: seq<Entry>, user: UserId, day: int -> string)
    ensures var a := Aggregate(store, user, day).body;
      var occs := Occurrences(OwnedBy(store, user));
      && |a.byTag| == |OccKeys(occs) - InheritedKeys|
      && (forall i :: 0 <= i < |a.byTag| ==> Summarises(a.byTag[i], OwnKeyed(occs)))
      && (forall i :: 0 <= i < |a.byTag| ==> Key(a.byTag[i]) !in InheritedKeys && a.byTag[i].count == CountKey(occs, Key(a.byTag[i])) && a.byTag[i].sum == SumKey(occs, Key(a.byTag[i])))
      && (forall i, j :: 0 <= i < j < |a.byTag| ==> a.byTag[i].count >= a.byTag[j].count)
  {
    var occs := Occurrences(OwnedBy(store, user));
    assert Aggregate(store, user, day).body.byTag == RankByCount(GroupTagsAsWritten(occs));
    RankingSpec(occs);
  }

  /** The detailed analysis reports the same day series and the first ten groups of the same tag ranking. */
  lemma AggregateAgreesWithDetailed(store: seq<Entry>, user: UserId, day: int -> string)
    ensures var a := Aggregate(store, user, day).body;
      var entries := OwnedBy(store, user);
      && a.byDay == DailySeries(entries, day, MissingIsZero)
      && TopTags(entries, 10) == Prefix(a.byTag, 10)
  {
  }

  /** As written, the handler answers correctly only for a user with no entries, and fails for every other user. */
  lemma AsWrittenOnlyWithoutEntries(store: seq<Entry>, user: UserId, day: int -> string)
    ensures |OwnedBy(store, user)| == 0 ==> AggregateAsWritten(store, user, day) == Aggregate(store, user, day)
    ensures |OwnedBy(store, user)| > 0 ==> AggregateAsWritten(store, user, day) == AggregateFailed(500, "Aggregation failed")
  {
    var entries := OwnedBy(store, user);
    if |entries| == 0 {
      assert Occurrences(entries) == [];
      assert GroupTagsAsWritten([]) == [];
      assert EnumerationOrder([]) == [];
    }
  }

  /** One entry of the user is enough to see the difference. */
  lemma AsWrittenFailsOnOneEntry(e: Entry, day: int -> string)
    ensures AggregateAsWritten([e], e.owner, day).AggregateFailed?
    ensures Aggregate([e], e.owner, day).AggregateOk?
    ensures Aggregate([e], e.owner, day).body.totalEntries == 1
  {
    assert [e][..0] == [];
  }
}
