/**
 The two persisted records: an Entry (one financial line item of one user)
 and an Analysis snapshot (one stored run of the analysis), with the rules
 the controllers use to read an entry's amount.
 */
module Model {
  import opened Base

  /** Opaque identifiers, as their string renderings. */
  type UserId = string
  type EntryId = string
  type SnapshotId = string

  /**
   One entry. `createdAt` is milliseconds since the Unix epoch. The schema
   does not require `numericValue`, and the analyses read a missing amount
   differently from a zero one, so it is optional here.
   */
  datatype Entry = Entry(
    id: EntryId,
    owner: UserId,
    title: string,
    content: string,
    numericValue: Option<int>,
    tags: seq<string>,
    createdAt: int)

  /** One point of the day-bucketed series, `{ label, value }`: a `YYYY-MM-DD` day and that day's total. */
  datatype DayPoint = DayPoint(day: string, value: int)

  /** One stored analysis run. */
  datatype Snapshot = Snapshot(
    id: SnapshotId,
    owner: UserId,
    summary: string,
    dataset: seq<DayPoint>,
    createdAt: int)

  /** How an analysis reads an amount that is missing or zero. */
  datatype MissingValue =
    | MissingIsZero   // `Number(e.numericValue || 0)`
    | MissingIsOne    // `e.numericValue || 1`: a zero amount also becomes 1

  function AmountOf(policy: MissingValue, v: Option<int>): (r: int)
    ensures policy == MissingIsZero ==> r == v.GetOr(0)
    ensures policy == MissingIsOne ==> r != 0 && (v.Some? && v.value != 0 ==> r == v.value)
  {
    match policy
    case MissingIsZero => v.GetOr(0)
    case MissingIsOne => if v.Some? && v.value != 0 then v.value else 1
  }

  function EntryValue(policy: MissingValue, e: Entry): int {
    AmountOf(policy, e.numericValue)
  }

  /** The entries of `owner`, in store order: `Entry.find({ user })`. */
  function OwnedBy(store: seq<Entry>, owner: UserId): (r: seq<Entry>)
    ensures forall e :: e in r <==> e in store && e.owner == owner
    ensures |r| <= |store|
  {
    if |store| == 0 then []
    else
      var last := store[|store| - 1];
      OwnedBy(store[..|store| - 1], owner) + (if last.owner == owner then [last] else [])
  }

  lemma {:induction false} OwnedByAppend(a: seq<Entry>, b: seq<Entry>, owner: UserId)
    ensures OwnedBy(a + b, owner) == OwnedBy(a, owner) + OwnedBy(b, owner)
    decreases |b|
  {
    if |b| == 0 {
      assert a + b == a;
    } else {
      var b' := b[..|b| - 1];
      assert (a + b)[..|a + b| - 1] == a + b';
      OwnedByAppend(a, b', owner);
    }
  }
}
