/**
 The analysis endpoints and the snapshot store they share:
 `detailedAnalyze` (aiAnalysisController.js), `runAnalysis` and `getLatest`
 (aiController.js) and `powerbiDataset` (powerbiController.js).

 The entry and snapshot collections are sequences in store order; the
 request's user, the clock reading `now` that becomes `createdAt`, the
 identifier the database assigns and the calendar function `day` are
 parameters.
 */
module Analysis {
  import opened Base
  import opened Text
  import opened Order
  import opened Model
  import opened Series
  import opened Tags
  import opened Ranking
  import opened Narrative

  /** `topTags(entries, 10)` in `detailedAnalyze`. */
  const TopTagLimit: nat := 10

  /** The JSON body of `detailedAnalyze`. */
  datatype Report = Report(summary: string, dataset: seq<DayPoint>, topTags: seq<TagGroup>, analysisId: SnapshotId)

  /** The JSON body of `getLatest`: `summary` is `null` when the user has no snapshot. */
  datatype LatestView = LatestView(dataset: seq<DayPoint>, summary: Option<string>)

  /** The JSON body of `powerbiDataset`. */
  datatype PowerBiView = PowerBiView(dataset: seq<DayPoint>, summary: string, embedUrl: Option<string>, embedToken: Option<string>)

  // ---------------------------------------------------------------------------
  // The latest snapshot of a user

  /**
   `Analysis.findOne({ user }).sort({ createdAt: -1 })`: the position of a
   snapshot of `user` with the greatest `createdAt`; of several with that
   time, the first in store order.
   */
  function LatestIndex(snaps: seq<Snapshot>, user: UserId): (r: Option<nat>)
    ensures r.None? <==> forall j :: 0 <= j < |snaps| ==> snaps[j].owner != user
    ensures r.Some? ==> r.value < |snaps| && snaps[r.value].owner == user
    ensures r.Some? ==> forall j :: 0 <= j < |snaps| && snaps[j].owner == user ==> snaps[j].createdAt <= snaps[r.value].createdAt
    ensures r.Some? ==> forall j :: 0 <= j < r.value && snaps[j].owner == user ==> snaps[j].createdAt < snaps[r.value].createdAt
  {
    if |snaps| == 0 then None
    else
      var init := snaps[..|snaps| - 1];
      var last := snaps[|snaps| - 1];
      var l := LatestIndex(init, user);
      assert forall j :: 0 <= j < |init| ==> init[j] == snaps[j];
      if last.owner == user && (l.None? || init[l.value].createdAt < last.createdAt) then Some(|snaps| - 1)
      else l
  }

  function Latest(snaps: seq<Snapshot>, user: UserId): Option<Snapshot> {
    match LatestIndex(snaps, user)
    case None => None
    case Some(i) => Some(snaps[i])
  }

  /** A snapshot stored later than all of the user's snapshots becomes the latest. */
  lemma LatestAfterAppend(snaps: seq<Snapshot>, s: Snapshot)
    requires forall j :: 0 <= j < |snaps| && snaps[j].owner == s.owner ==> snaps[j].createdAt < s.createdAt
    ensures Latest(snaps + [s], s.owner) == Some(s)
  {
    var t := snaps + [s];
    assert t[..|t| - 1] == snaps;
  }

  /** Storing a snapshot of another user does not change a user's latest snapshot. */
  lemma LatestOtherUser(snaps: seq<Snapshot>, s: Snapshot, user: UserId)
    requires s.owner != user
    ensures Latest(snaps + [s], user) == Latest(snaps, user)
  {
    var t := snaps + [s];
    assert t[..|t| - 1] == snaps;
  }

  // ---------------------------------------------------------------------------
  // Endpoints

  /**
   `detailedAnalyze`: the user's entries are summarised (amounts read with
   `|| 0`), the day series and the ten top tags are computed, and a snapshot
   holding the summary and the series is stored and reported.
   */
  function DetailedAnalyze(store: seq<Entry>, snaps: seq<Snapshot>, user: UserId, day: int -> string, now: int, id: SnapshotId): (r: (Report, seq<Snapshot>))
    ensures r.1 == snaps + [Snapshot(r.0.analysisId, user, r.0.summary, r.0.dataset, now)]
    ensures r.0.analysisId == id
    ensures |r.0.topTags| <= TopTagLimit
    ensures Ascending(r.0.dataset)
  {
    var entries := OwnedBy(store, user);
    var sum := TotalValue(entries, MissingIsZero);
    var tags := TopTags(entries, TopTagLimit);
    var series := DailySeries(entries, day, MissingIsZero);
    var summary := DetailedSummary(|entries|, sum, tags, series);
    (Report(summary, series, tags, id), snaps + [Snapshot(id, user, summary, series, now)])
  }

  /**
   What the detailed report says about the user's entries: the summary opens
   with their number and total (and mentions tags and a span exactly when
   there are tags and entries), the series holds each day's total, and the
   top tags are the ten most frequent keys among the user's entries only,
   none of them "constructor" or "__proto__".
   */
  lemma DetailedAnalyzeSpec(store: seq<Entry>, snaps: seq<Snapshot>, user: UserId, day: int -> string, now: int, id: SnapshotId)
    ensures var rep := DetailedAnalyze(store, snaps, user, day, now, id).0;
      var entries := OwnedBy(store, user);
      var occs := Occurrences(entries);
      && rep.summary == CountSentence(|entries|, TotalValue(entries, MissingIsZero))
        + (if |rep.topTags| > 0 then " " + TopTagsSentence(rep.topTags) else "")
        + (if |entries| > 0 then " " + SpanSentence(rep.dataset[0].day, rep.dataset[|rep.dataset| - 1].day) else "")
      && (|rep.topTags| > 0 <==> |OccKeys(occs) - InheritedKeys| > 0)
      && |rep.dataset| == |Days(entries, day)|
      && (forall i :: 0 <= i < |rep.dataset| ==> rep.dataset[i].value == DaySum(entries, day, MissingIsZero, rep.dataset[i].day))
      && (forall i :: 0 <= i < |rep.topTags| ==> Summarises(rep.topTags[i], OwnKeyed(occs)) && Key(rep.topTags[i]) !in InheritedKeys)
  {
    var entries := OwnedBy(store, user);
    var rep := DetailedAnalyze(store, snaps, user, day, now, id).0;
    DetailedSummaryShape(|entries|, TotalValue(entries, MissingIsZero), rep.topTags, rep.dataset);
    DailySeriesSpec(entries, day, MissingIsZero);
    TopTagsSpec(entries, TopTagLimit);
    if |entries| > 0 {
      assert day(entries[0].createdAt) in Days(entries, day);
    }
  }

  /** `simpleAnalyze` and `runAnalysis`: amounts read with `|| 1`, the series and the one-sentence summary stored. */
  function RunAnalysis(store: seq<Entry>, snaps: seq<Snapshot>, user: UserId, day: int -> string, now: int, id: SnapshotId): (r: (Snapshot, seq<Snapshot>))
    ensures r.1 == snaps + [r.0]
    ensures r.0.owner == user && r.0.createdAt == now && r.0.id == id
    ensures Ascending(r.0.dataset)
  {
    var entries := OwnedBy(store, user);
    var dataset := DailySeries(entries, day, MissingIsOne);
    var summary := SimpleSummary(|entries|, TotalValue(entries, MissingIsOne));
    var a := Snapshot(id, user, summary, dataset, now);
    (a, snaps + [a])
  }

  /**
   Under `|| 1` every entry contributes a non-zero amount, so every day of the
   basic series has a point, and the points add up to the total the summary
   reports.
   */
  lemma RunAnalysisSpec(store: seq<Entry>, snaps: seq<Snapshot>, user: UserId, day: int -> string, now: int, id: SnapshotId)
    ensures var a := RunAnalysis(store, snaps, user, day, now, id).0;
      var entries := OwnedBy(store, user);
      && a.summary == SimpleSummary(|entries|, SeriesTotal(a.dataset))
      && |a.dataset| == |Days(entries, day)|
      && (forall i :: 0 <= i < |a.dataset| ==> a.dataset[i].value == DaySum(entries, day, MissingIsOne, a.dataset[i].day))
  {
    DailySeriesSpec(OwnedBy(store, user), day, MissingIsOne);
  }

  /** `getLatest`: the latest snapshot's series and summary, or an empty series and `null`. */
  function GetLatest(snaps: seq<Snapshot>, user: UserId): (r: LatestView)
    ensures r.summary.None? ==> r.dataset == []
    ensures r == LatestView([], None) <==> forall j :: 0 <= j < |snaps| ==> snaps[j].owner != user
    ensures r.summary.Some? ==> exists j :: (0 <= j < |snaps| && snaps[j].owner == user && r.dataset == snaps[j].dataset && r.summary.value == snaps[j].summary
      && forall k :: 0 <= k < |snaps| && snaps[k].owner == user ==> snaps[k].createdAt <= snaps[j].createdAt)
  {
    match Latest(snaps, user)
    case None => LatestView([], None)
    case Some(a) => LatestView(a.dataset, Some(a.summary))
  }

  /** `process.env.X || null`: an unset or empty setting becomes `null`. */
  function SettingOrNull(v: Option<string>): (r: Option<string>)
    ensures r.Some? <==> v.Some? && v.value != ""
    ensures r.Some? ==> r == v
  {
    if v.Some? && v.value != "" then v else None
  }

  /** `powerbiDataset`: like `getLatest`, but a missing summary is `''`, plus the two embed settings. */
  function PowerBiDataset(snaps: seq<Snapshot>, user: UserId, embedUrl: Option<string>, embedToken: Option<string>): (r: PowerBiView)
    ensures r.embedUrl == SettingOrNull(embedUrl) && r.embedToken == SettingOrNull(embedToken)
    ensures (forall j :: 0 <= j < |snaps| ==> snaps[j].owner != user) ==> r.dataset == [] && r.summary == ""
    ensures (exists j :: 0 <= j < |snaps| && snaps[j].owner == user) ==> exists j :: (0 <= j < |snaps| && snaps[j].owner == user && r.dataset == snaps[j].dataset && r.summary == snaps[j].summary
      && forall k :: 0 <= k < |snaps| && snaps[k].owner == user ==> snaps[k].createdAt <= snaps[j].createdAt)
  {
    match Latest(snaps, user)
    case None => PowerBiView([], "", SettingOrNull(embedUrl), SettingOrNull(embedToken))
    case Some(a) => PowerBiView(a.dataset, a.summary, SettingOrNull(embedUrl), SettingOrNull(embedToken))
  }

  /** The Power BI view carries the same series as `getLatest`, and its summary with `null` read as `''`. */
  lemma PowerBiMatchesLatest(snaps: seq<Snapshot>, user: UserId, embedUrl: Option<string>, embedToken: Option<string>)
    ensures var p := PowerBiDataset(snaps, user, embedUrl, embedToken);
      var l := GetLatest(snaps, user);
      && p.dataset == l.dataset
      && p.summary == l.summary.GetOr("")
  {
  }

  /**
   Run at a time later than all of the user's snapshots, `detailedAnalyze`
   is followed by `getLatest` and `powerbiDataset` reporting exactly its
   summary and series.
   */
  lemma DetailedThenLatest(store: seq<Entry>, snaps: seq<Snapshot>, user: UserId, day: int -> string, now: int, id: SnapshotId,
                           embedUrl: Option<string>, embedToken: Option<string>)
    requires forall j :: 0 <= j < |snaps| && snaps[j].owner == user ==> snaps[j].createdAt < now
    ensures var (rep, snaps') := DetailedAnalyze(store, snaps, user, day, now, id);
      && GetLatest(snaps', user) == LatestView(rep.dataset, Some(rep.summary))
      && PowerBiDataset(snaps', user, embedUrl, embedToken).dataset == rep.dataset
      && PowerBiDataset(snaps', user, embedUrl, embedToken).summary == rep.summary
  {
    var (rep, snaps') := DetailedAnalyze(store, snaps, user, day, now, id);
    LatestAfterAppend(snaps, Snapshot(id, user, rep.summary, rep.dataset, now));
  }

  /** The same for `runAnalysis`. */
  lemma RunThenLatest(store: seq<Entry>, snaps: seq<Snapshot>, user: UserId, day: int -> string, now: int, id: SnapshotId)
    requires forall j :: 0 <= j < |snaps| && snaps[j].owner == user ==> snaps[j].createdAt < now
    ensures var (a, snaps') := RunAnalysis(store, snaps, user, day, now, id);
      GetLatest(snaps', user) == LatestView(a.dataset, Some(a.summary))
  {
    var (a, snaps') := RunAnalysis(store, snaps, user, day, now, id);
    LatestAfterAppend(snaps, a);
  }

  /** An analysis run by one user leaves what every other user's `getLatest` returns unchanged. */
  lemma RunIsolated(store: seq<Entry>, snaps: seq<Snapshot>, user: UserId, other: UserId, day: int -> string, now: int, id: SnapshotId)
    requires other != user
    ensures GetLatest(RunAnalysis(store, snaps, user, day, now, id).1, other) == GetLatest(snaps, other)
    ensures GetLatest(DetailedAnalyze(store, snaps, user, day, now, id).1, other) == GetLatest(snaps, other)
  {
    LatestOtherUser(snaps, RunAnalysis(store, snaps, user, day, now, id).0, other);
    var rep := DetailedAnalyze(store, snaps, user, day, now, id).0;
    LatestOtherUser(snaps, Snapshot(id, user, rep.summary, rep.dataset, now), other);
  }
}
