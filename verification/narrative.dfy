/**
 The text of the detailed analysis (`detailedAnalyze`, aiAnalysisController.js):
 up to three sentences joined by one space. The first reports the number of
 entries, their total and their average to two decimals; the second, present
 only when some entry has a tag, names the top tags with their counts; the
 third, present only when there is an entry, names the first and last day.
 */
module Narrative {
  import opened Base
  import opened Text
  import opened Order
  import opened Model
  import opened Series
  import opened Tags

  /** `(totalEntries ? sum / totalEntries : 0).toFixed(2)`. */
  function AverageText(sum: int, n: nat): string {
    if n == 0 then "0.00" else ToFixed2(sum, n)
  }

  /**
   The average text is "0.00" with no entries; otherwise it is the exact
   average rounded to hundredths (halves away from zero): its digits `v`
   satisfy `|sum / n| * 100` in `[v - 1/2, v + 1/2)`, and it carries a minus
   sign exactly when the total is negative.
   */
  lemma AverageTextSpec(sum: int, n: nat)
    ensures n == 0 ==> AverageText(sum, n) == "0.00"
    ensures n > 0 ==>
      var r := AverageText(sum, n);
      var v := ParseNat(DigitsOf(r));
      && r[|r| - 3] == '.'
      && (r[0] == '-' <==> sum < 0)
      && 2 * n * v <= 200 * Abs(sum) + n < 2 * n * (v + 1)
  {
    if n > 0 {
      ToFixed2Accurate(sum, n);
    }
  }

  const CountLead: string := "You have "
  const TotalLead: string := " entries with total value "

  function CountSentence(n: nat, sum: int): string {
    CountLead + ShowNat(n) + TotalLead + ShowInt(sum) + AverageClause(sum, n)
  }

  function AverageClause(sum: int, n: nat): string {
    " and average " + AverageText(sum, n) + "."
  }

  /** `${t.tag} (${t.count})`. */
  function TagMention(g: TagGroup): string {
    g.tag + " (" + ShowNat(g.count) + ")"
  }

  function TagMentions(tags: seq<TagGroup>): (r: seq<string>)
    ensures |r| == |tags|
    ensures forall i :: 0 <= i < |r| ==> r[i] == TagMention(tags[i])
  {
    seq(|tags|, i requires 0 <= i < |tags| => TagMention(tags[i]))
  }

  function TopTagsSentence(tags: seq<TagGroup>): string {
    "Top tags: " + Join(TagMentions(tags), ", ")
  }

  function SpanSentence(first: string, last: string): string {
    "Data spans " + first + " to " + last + "."
  }

  /** `summaryParts`: the count sentence, then the tag and span sentences when there is something to say. */
  function SummaryParts(n: nat, sum: int, tags: seq<TagGroup>, series: seq<DayPoint>): (r: seq<string>)
    ensures 1 <= |r| <= 3
    ensures r[0] == CountSentence(n, sum)
    ensures |r| == 1 + (if |tags| > 0 then 1 else 0) + (if |series| > 0 then 1 else 0)
  {
    [CountSentence(n, sum)]
    + (if |tags| > 0 then [TopTagsSentence(tags)] else [])
    + (if |series| > 0 then [SpanSentence(series[0].day, series[|series| - 1].day)] else [])
  }

  /** `summaryParts.join(' ')`. */
  function DetailedSummary(n: nat, sum: int, tags: seq<TagGroup>, series: seq<DayPoint>): string {
    Join(SummaryParts(n, sum, tags, series), " ")
  }

  lemma JoinUpToThree(parts: seq<string>, sep: string)
    requires 1 <= |parts| <= 3
    ensures |parts| == 1 ==> Join(parts, sep) == parts[0]
    ensures |parts| == 2 ==> Join(parts, sep) == parts[0] + (sep + parts[1])
    ensures |parts| == 3 ==> Join(parts, sep) == parts[0] + (sep + parts[1]) + (sep + parts[2])
  {
    if |parts| >= 2 {
      assert parts[1..][0] == parts[1];
      if |parts| == 3 {
        assert parts[1..][1..] == [parts[2]];
        assert Join(parts, sep) == parts[0] + sep + (parts[1] + sep + parts[2]);
      }
    }
  }

  /** The summary is the count sentence, followed by each optional sentence after one space. */
  lemma DetailedSummaryShape(n: nat, sum: int, tags: seq<TagGroup>, series: seq<DayPoint>)
    ensures DetailedSummary(n, sum, tags, series)
      == CountSentence(n, sum)
      + (if |tags| > 0 then " " + TopTagsSentence(tags) else "")
      + (if |series| > 0 then " " + SpanSentence(series[0].day, series[|series| - 1].day) else "")
  {
    var parts := SummaryParts(n, sum, tags, series);
    JoinUpToThree(parts, " ");
    var c := CountSentence(n, sum);
    var t := TopTagsSentence(tags);
    var sp := if |series| > 0 then SpanSentence(series[0].day, series[|series| - 1].day) else "";
    if |tags| > 0 && |series| > 0 {
      assert parts == [c, t, sp];
      assert DetailedSummary(n, sum, tags, series) == c + (" " + t) + (" " + sp);
    } else if |tags| > 0 {
      assert parts == [c, t];
      assert DetailedSummary(n, sum, tags, series) == c + (" " + t);
      assert c + (" " + t) + "" == c + (" " + t);
    } else if |series| > 0 {
      assert parts == [c, sp];
      assert DetailedSummary(n, sum, tags, series) == c + (" " + sp);
      assert c + "" == c;
    } else {
      assert parts == [c];
      assert c + "" + "" == c;
    }
  }

  /** Reading the second and the fourth piece back out of a concatenation of five. */
  lemma PiecesOfFive(a: string, b: string, c: string, d: string, e: string)
    ensures var s := a + b + c + d + e;
      && s[|a|..|a| + |b|] == b
      && s[|a| + |b| + |c|..|a| + |b| + |c| + |d|] == d
  {
    var s := a + b + c + d + e;
    assert forall i :: 0 <= i < |b| ==> s[|a| + i] == b[i];
    assert forall i :: 0 <= i < |d| ==> s[|a| + |b| + |c| + i] == d[i];
  }

  /**
   The count sentence can be read back: after "You have " come the digits of
   the number of entries, and after " entries with total value " the total.
   */
  lemma CountSentenceReadBack(n: nat, sum: int)
    ensures var s := CountSentence(n, sum);
      var p := |CountLead|;
      var q := p + |ShowNat(n)| + |TotalLead|;
      && |s| >= q + |ShowInt(sum)|
      && ParseNat(s[p..p + |ShowNat(n)|]) == n
      && ParseInt(s[q..q + |ShowInt(sum)|]) == sum
  {
    ParseShowNat(n);
    ParseShowInt(sum);
    ReadBackFive(CountLead, ShowNat(n), TotalLead, ShowInt(sum), AverageClause(sum, n), n, sum);
  }

  lemma ReadBackFive(a: string, b: string, c: string, d: string, e: string, x: nat, y: int)
    requires ParseNat(b) == x && ParseInt(d) == y
    ensures var s := a + b + c + d + e;
      && |s| >= |a| + |b| + |c| + |d|
      && ParseNat(s[|a|..|a| + |b|]) == x
      && ParseInt(s[|a| + |b| + |c|..|a| + |b| + |c| + |d|]) == y
  {
    PiecesOfFive(a, b, c, d, e);
  }

  /**
   For a day series built from entries, the span sentence names the earliest
   and the latest day on which an entry was created.
   */
  lemma SpanIsEarliestToLatest(entries: seq<Entry>, day: int -> string, policy: MissingValue)
    requires |entries| > 0
    ensures var r := DailySeries(entries, day, policy);
      && |r| > 0
      && r[0].day in Days(entries, day)
      && r[|r| - 1].day in Days(entries, day)
      && (forall d :: d in Days(entries, day) ==> d == r[0].day || StrLt(r[0].day, d))
      && (forall d :: d in Days(entries, day) ==> d == r[|r| - 1].day || StrLt(d, r[|r| - 1].day))
  {
    var r := DailySeries(entries, day, policy);
    DailySeriesSpec(entries, day, policy);
    assert day(entries[0].createdAt) in Days(entries, day);
    forall d | d in Days(entries, day)
      ensures d == r[0].day || StrLt(r[0].day, d)
      ensures d == r[|r| - 1].day || StrLt(d, r[|r| - 1].day)
    {
      var i :| 0 <= i < |r| && r[i].day == d;
    }
  }

  /** The summary of the basic analysis (`simpleAnalyze`, aiController.js). */
  function SimpleSummary(n: nat, total: int): string {
    CountLead + ShowNat(n) + TotalLead + ShowInt(total) + "."
  }

  /** The basic summary reads back the same way as the count sentence of the detailed one. */
  lemma SimpleSummaryReadBack(n: nat, total: int)
    ensures var s := SimpleSummary(n, total);
      var p := |CountLead|;
      var q := p + |ShowNat(n)| + |TotalLead|;
      && |s| == q + |ShowInt(total)| + 1
      && ParseNat(s[p..p + |ShowNat(n)|]) == n
      && ParseInt(s[q..q + |ShowInt(total)|]) == total
      && s[|s| - 1] == '.'
  {
    PiecesOfFive(CountLead, ShowNat(n), TotalLead, ShowInt(total), ".");
    assert ParseNat(ShowNat(n)) == n by {
      ParseShowNat(n);
    }
    assert ParseInt(ShowInt(total)) == total by {
      ParseShowInt(total);
    }
  }
}
