/**
 Day bucketing: `dailySeries` (aiAnalysisController.js), the `byDay` map of
 `aggregateForUser` and the `byDay` map of `simpleAnalyze`. Entries are
 grouped by the UTC day of `createdAt`, each day's amounts are added, and the
 days are listed in ascending string order.

 The calendar conversion `new Date(createdAt).toISOString().slice(0, 10)` is
 the parameter `day`.
 */
module Series {
  import opened Base
  import opened Order
  import opened Model

  /** Sum of the amounts of all entries: the `sum`/`total` of the analyses. */
  function TotalValue(entries: seq<Entry>, policy: MissingValue): int {
    if |entries| == 0 then 0
    else TotalValue(entries[..|entries| - 1], policy) + EntryValue(policy, entries[|entries| - 1])
  }

  /** Sum of the amounts of the entries created on day `d`. */
  function DaySum(entries: seq<Entry>, day: int -> string, policy: MissingValue, d: string): int {
    if |entries| == 0 then 0
    else
      var e := entries[|entries| - 1];
      DaySum(entries[..|entries| - 1], day, policy, d) + (if day(e.createdAt) == d then EntryValue(policy, e) else 0)
  }

  /** The days on which some entry was created. */
  function Days(entries: seq<Entry>, day: int -> string): set<string> {
    set e | e in entries :: day(e.createdAt)
  }

  /** Adjacent points are in strictly ascending day order. */
  predicate Ascending(series: seq<DayPoint>) {
    forall i :: 0 <= i < |series| - 1 ==> StrLt(series[i].day, series[i + 1].day)
  }

  /** Any two points are in strictly ascending day order (so no day repeats). */
  predicate StrictlySorted(series: seq<DayPoint>) {
    forall i, j :: 0 <= i < j < |series| ==> StrLt(series[i].day, series[j].day)
  }

  /** The total of the points labelled `d` (the value at `d` when days do not repeat). */
  function ValueAt(series: seq<DayPoint>, d: string): int {
    if |series| == 0 then 0
    else (if series[0].day == d then series[0].value else 0) + ValueAt(series[1..], d)
  }

  /** The days the series has a point for. */
  function DaysOf(series: seq<DayPoint>): set<string> {
    if |series| == 0 then {} else {series[0].day} + DaysOf(series[1..])
  }

  lemma {:induction false} DaysOfMember(series: seq<DayPoint>, d: string)
    ensures d in DaysOf(series) <==> exists i :: 0 <= i < |series| && series[i].day == d
    decreases |series|
  {
    if |series| > 0 {
      DaysOfMember(series[1..], d);
      if exists i :: 0 <= i < |series| && series[i].day == d {
        var i :| 0 <= i < |series| && series[i].day == d;
        if i > 0 {
          assert series[1..][i - 1].day == d;
        }
      }
      if exists i :: 0 <= i < |series| - 1 && series[1..][i].day == d {
        var i :| 0 <= i < |series| - 1 && series[1..][i].day == d;
        assert series[i + 1].day == d;
      }
    }
  }

  function SeriesTotal(series: seq<DayPoint>): int {
    if |series| == 0 then 0 else series[0].value + SeriesTotal(series[1..])
  }

  /** `map[d] = (map[d] || 0) + v` on a series kept in ascending day order. */
  function AddToDay(series: seq<DayPoint>, d: string, v: int): (r: seq<DayPoint>)
    requires Ascending(series)
    ensures Ascending(r)
    ensures |r| > 0 && (r[0].day == d || (|series| > 0 && r[0].day == series[0].day))
  {
    if |series| == 0 then [DayPoint(d, v)]
    else if series[0].day == d then [DayPoint(d, series[0].value + v)] + series[1..]
    else if StrLt(d, series[0].day) then [DayPoint(d, v)] + series
    else
      StrLtTotal(d, series[0].day);
      [series[0]] + AddToDay(series[1..], d, v)
  }

  /** Adding `v` on day `d` adds `d` to the days, `v` to that day's value and to the total, and nothing else. */
  lemma AddToDayContents(series: seq<DayPoint>, d: string, v: int)
    requires Ascending(series)
    ensures var r := AddToDay(series, d, v);
      && DaysOf(r) == DaysOf(series) + {d}
      && (forall x :: ValueAt(r, x) == ValueAt(series, x) + (if x == d then v else 0))
      && SeriesTotal(r) == SeriesTotal(series) + v
  {
    AddToDayDays(series, d, v);
    AddToDayTotal(series, d, v);
    forall x
      ensures ValueAt(AddToDay(series, d, v), x) == ValueAt(series, x) + (if x == d then v else 0)
    {
      AddToDayValue(series, d, v, x);
    }
  }

  lemma {:induction false} AddToDayDays(series: seq<DayPoint>, d: string, v: int)
    requires Ascending(series)
    ensures DaysOf(AddToDay(series, d, v)) == DaysOf(series) + {d}
    decreases |series|
  {
    if |series| > 0 {
      var r := AddToDay(series, d, v);
      if series[0].day == d {
        assert r[1..] == series[1..];
      } else if StrLt(d, series[0].day) {
        assert r[1..] == series;
      } else {
        assert r[1..] == AddToDay(series[1..], d, v);
        AddToDayDays(series[1..], d, v);
      }
    }
  }

  lemma {:induction false} AddToDayValue(series: seq<DayPoint>, d: string, v: int, x: string)
    requires Ascending(series)
    ensures ValueAt(AddToDay(series, d, v), x) == ValueAt(series, x) + (if x == d then v else 0)
    decreases |series|
  {
    if |series| > 0 {
      var r := AddToDay(series, d, v);
      if series[0].day == d {
        assert r[1..] == series[1..];
      } else if StrLt(d, series[0].day) {
        assert r[1..] == series;
      } else {
        assert r[1..] == AddToDay(series[1..], d, v);
        AddToDayValue(series[1..], d, v, x);
      }
    }
  }

  lemma {:induction false} AddToDayTotal(series: seq<DayPoint>, d: string, v: int)
    requires Ascending(series)
    ensures SeriesTotal(AddToDay(series, d, v)) == SeriesTotal(series) + v
    decreases |series|
  {
    if |series| > 0 {
      var r := AddToDay(series, d, v);
      if series[0].day == d {
        assert r[1..] == series[1..];
      } else if StrLt(d, series[0].day) {
        assert r[1..] == series;
      } else {
        assert r[1..] == AddToDay(series[1..], d, v);
        AddToDayTotal(series[1..], d, v);
      }
    }
  }

  /**
   The day series of `entries`: `Object.keys(map).sort().map(k => ({ label: k, value: map[k] }))`
   after adding every entry's amount to the bucket of its day.
   */
  function DailySeries(entries: seq<Entry>, day: int -> string, policy: MissingValue): (r: seq<DayPoint>)
    ensures Ascending(r)
    ensures DaysOf(r) == Days(entries, day)
    ensures forall d :: ValueAt(r, d) == DaySum(entries, day, policy, d)
    ensures SeriesTotal(r) == TotalValue(entries, policy)
  {
    if |entries| == 0 then []
    else
      var init := entries[..|entries| - 1];
      var e := entries[|entries| - 1];
      assert entries == init + [e];
      assert Days(entries, day) == Days(init, day) + {day(e.createdAt)};
      AddToDayContents(DailySeries(init, day, policy), day(e.createdAt), EntryValue(policy, e));
      AddToDay(DailySeries(init, day, policy), day(e.createdAt), EntryValue(policy, e))
  }

  lemma {:induction false} AscendingIsStrict(series: seq<DayPoint>)
    requires Ascending(series)
    ensures StrictlySorted(series)
    decreases |series|
  {
    if |series| > 1 {
      var rest := series[1..];
      AscendingIsStrict(rest);
      forall j | 1 <= j < |series|
        ensures StrLt(series[0].day, series[j].day)
      {
        if j > 1 {
          assert rest[0] == series[1] && rest[j - 1] == series[j];
          StrLtTransitive(series[0].day, series[1].day, series[j].day);
        }
      }
    }
  }

  lemma {:induction false} StrictValueAt(series: seq<DayPoint>, i: nat)
    requires StrictlySorted(series) && i < |series|
    ensures ValueAt(series, series[i].day) == series[i].value
    decreases |series|
  {
    var rest := series[1..];
    assert StrictlySorted(rest);
    if i == 0 {
      StrictAbsent(rest, series[0].day);
    } else {
      StrictValueAt(rest, i - 1);
      StrLtIrreflexive(series[i].day);
      assert series[0].day != series[i].day;
    }
  }

  lemma {:induction false} StrictAbsent(series: seq<DayPoint>, d: string)
    requires StrictlySorted(series)
    requires |series| == 0 || StrLt(d, series[0].day)
    ensures ValueAt(series, d) == 0
    ensures d !in DaysOf(series)
    decreases |series|
  {
    StrLtIrreflexive(d);
    if |series| > 0 {
      var rest := series[1..];
      assert StrictlySorted(rest);
      if |rest| > 0 {
        StrLtTransitive(d, series[0].day, rest[0].day);
      }
      StrictAbsent(rest, d);
    }
  }

  lemma {:induction false} StrictCount(series: seq<DayPoint>)
    requires StrictlySorted(series)
    ensures |DaysOf(series)| == |series|
    decreases |series|
  {
    if |series| > 0 {
      var rest := series[1..];
      assert StrictlySorted(rest);
      StrictCount(rest);
      StrictAbsent(rest, series[0].day);
    }
  }

  /**
   The day series as the source promises it: days strictly ascending (so
   each appears once), exactly the days some entry was created on, each
   point holding the sum of that day's amounts, and the points adding up to
   the total of all amounts.
   */
  lemma DailySeriesSpec(entries: seq<Entry>, day: int -> string, policy: MissingValue)
    ensures var r := DailySeries(entries, day, policy);
      && StrictlySorted(r)
      && |r| == |Days(entries, day)|
      && (forall d :: d in Days(entries, day) <==> exists i :: 0 <= i < |r| && r[i].day == d)
      && (forall i :: 0 <= i < |r| ==> r[i].value == DaySum(entries, day, policy, r[i].day))
      && SeriesTotal(r) == TotalValue(entries, policy)
  {
    var r := DailySeries(entries, day, policy);
    AscendingIsStrict(r);
    StrictCount(r);
    forall i | 0 <= i < |r|
      ensures r[i].value == DaySum(entries, day, policy, r[i].day)
    {
      StrictValueAt(r, i);
    }
    forall d | d in Days(entries, day)
      ensures exists i :: 0 <= i < |r| && r[i].day == d
    {
      DaysOfMember(r, d);
    }
    forall d | exists i :: 0 <= i < |r| && r[i].day == d
      ensures d in Days(entries, day)
    {
      DaysOfMember(r, d);
    }
  }
}
