/**
 Tag grouping: `topTags` (aiAnalysisController.js) and the `byTagMap` loop of
 `aggregateForUser`. Every tag of every entry, in order, is an occurrence;
 occurrences with an empty tag are skipped; the rest are grouped by their
 lower-cased tag, each group keeping the first spelling met, the number of
 occurrences and the sum of the full amounts of the entries they come from.
 */
module Tags {
  import opened Base
  import opened Text
  import opened Order
  import opened Model

  /** One group of `byTagMap`: `{ tag, count, sum }`. */
  datatype TagGroup = TagGroup(tag: string, count: nat, sum: int)

  /** The map key of a group: its lower-cased tag. */
  function Key(g: TagGroup): string {
    Lower(g.tag)
  }

  /** One tag of one entry, with that entry's amount (`Number(e.numericValue || 0)`). */
  datatype Occurrence = Occurrence(tag: string, value: int)

  /** The occurrence is counted under key `k`: its tag is not empty (`if (!t) return`) and lower-cases to `k`. */
  predicate Counts(o: Occurrence, k: string) {
    o.tag != "" && Lower(o.tag) == k
  }

  function EntryOccurrences(e: Entry): (r: seq<Occurrence>)
    ensures |r| == |e.tags|
    ensures forall i :: 0 <= i < |r| ==> r[i] == Occurrence(e.tags[i], e.numericValue.GetOr(0))
  {
    seq(|e.tags|, i requires 0 <= i < |e.tags| => Occurrence(e.tags[i], e.numericValue.GetOr(0)))
  }

  /** A tag and its lower-cased spelling are counted under the same keys: the grouping ignores letter case. */
  lemma LowerSpellingSameKey(o: Occurrence)
    ensures forall k :: Counts(o, k) <==> Counts(Occurrence(Lower(o.tag), o.value), k)
  {
    LowerIdempotent(o.tag);
  }

  /** All occurrences, entry by entry and tag by tag, in the order the loops visit them. */
  function Occurrences(entries: seq<Entry>): seq<Occurrence> {
    if |entries| == 0 then []
    else Occurrences(entries[..|entries| - 1]) + EntryOccurrences(entries[|entries| - 1])
  }

  /** Number of occurrences counted under `k`. */
  function CountKey(occs: seq<Occurrence>, k: string): nat {
    if |occs| == 0 then 0
    else CountKey(occs[..|occs| - 1], k) + (if Counts(occs[|occs| - 1], k) then 1 else 0)
  }

  /** Sum of the values of the occurrences counted under `k`. */
  function SumKey(occs: seq<Occurrence>, k: string): int {
    if |occs| == 0 then 0
    else SumKey(occs[..|occs| - 1], k) + (if Counts(occs[|occs| - 1], k) then occs[|occs| - 1].value else 0)
  }

  /** The keys some occurrence is counted under. */
  function OccKeys(occs: seq<Occurrence>): set<string> {
    set i | 0 <= i < |occs| && occs[i].tag != "" :: Lower(occs[i].tag)
  }

  /** Position of the first occurrence counted under `k`, or `|occs|` if there is none. */
  function FirstIndex(occs: seq<Occurrence>, k: string): (r: nat)
    ensures r <= |occs|
    ensures r < |occs| ==> Counts(occs[r], k)
    ensures forall i :: 0 <= i < r ==> !Counts(occs[i], k)
  {
    if |occs| == 0 then 0
    else if Counts(occs[0], k) then 0
    else 1 + FirstIndex(occs[1..], k)
  }

  /** Position of the group with key `k`: `map[key]`. */
  function FindGroup(groups: seq<TagGroup>, k: string): (r: Option<nat>)
    ensures r.Some? ==> r.value < |groups| && Key(groups[r.value]) == k
    ensures r.None? ==> forall i :: 0 <= i < |groups| ==> Key(groups[i]) != k
  {
    if |groups| == 0 then None
    else if Key(groups[0]) == k then Some(0)
    else match FindGroup(groups[1..], k)
      case None => None
      case Some(i) => Some(i + 1)
  }

  /** One turn of the inner loop: skip an empty tag, else start or update the group of its key. */
  function AddOccurrence(groups: seq<TagGroup>, o: Occurrence): seq<TagGroup> {
    if o.tag == "" then groups
    else match FindGroup(groups, Lower(o.tag))
      case None => groups + [TagGroup(o.tag, 1, o.value)]
      case Some(i) => groups[i := TagGroup(groups[i].tag, groups[i].count + 1, groups[i].sum + o.value)]
  }

  /** The groups in insertion order, as the map holds them. */
  function GroupTags(occs: seq<Occurrence>): (r: seq<TagGroup>)
    ensures |r| <= |occs|
    ensures forall i :: 0 <= i < |r| ==> r[i].tag != "" && r[i].count >= 1
  {
    if |occs| == 0 then []
    else AddOccurrence(GroupTags(occs[..|occs| - 1]), occs[|occs| - 1])
  }

  function KeySet(groups: seq<TagGroup>): set<string> {
    set g | g in groups :: Key(g)
  }

  predicate UniqueKeys(groups: seq<TagGroup>) {
    forall i, j :: 0 <= i < j < |groups| ==> Key(groups[i]) != Key(groups[j])
  }

  /** What one group says about the occurrences it summarises. */
  ghost predicate Summarises(g: TagGroup, occs: seq<Occurrence>) {
    && g.tag != ""
    && g.count == CountKey(occs, Key(g)) >= 1
    && g.sum == SumKey(occs, Key(g))
    && FirstIndex(occs, Key(g)) < |occs|
    && g.tag == occs[FirstIndex(occs, Key(g))].tag
  }

  ghost predicate AllSummarise(groups: seq<TagGroup>, occs: seq<Occurrence>) {
    forall i :: 0 <= i < |groups| ==> Summarises(groups[i], occs)
  }

  /** The groups are in order of the first occurrence of their keys. */
  ghost predicate FirstOrdered(groups: seq<TagGroup>, occs: seq<Occurrence>) {
    forall i, j :: 0 <= i < j < |groups| ==> FirstIndex(occs, Key(groups[i])) < FirstIndex(occs, Key(groups[j]))
  }

  /** `groups` is exactly the grouping of `occs`, in order of first appearance of each key. */
  ghost predicate GroupsOf(groups: seq<TagGroup>, occs: seq<Occurrence>) {
    && UniqueKeys(groups)
    && KeySet(groups) == OccKeys(occs)
    && |groups| == |OccKeys(occs)|
    && AllSummarise(groups, occs)
    && FirstOrdered(groups, occs)
  }

  // ---------------------------------------------------------------------------
  // Facts about appending one occurrence

  lemma AppendOne(occs: seq<Occurrence>, o: Occurrence, k: string)
    ensures CountKey(occs + [o], k) == CountKey(occs, k) + (if Counts(o, k) then 1 else 0)
    ensures SumKey(occs + [o], k) == SumKey(occs, k) + (if Counts(o, k) then o.value else 0)
    ensures FirstIndex(occs, k) < |occs| ==> FirstIndex(occs + [o], k) == FirstIndex(occs, k)
    ensures FirstIndex(occs, k) == |occs| && Counts(o, k) ==> FirstIndex(occs + [o], k) == |occs|
    ensures OccKeys(occs + [o]) == OccKeys(occs) + (if o.tag != "" then {Lower(o.tag)} else {})
  {
    assert (occs + [o])[..|occs|] == occs;
    AppendOneFirst(occs, o, k);
    AppendOneKeys(occs, o);
  }

  lemma AppendOneFirst(occs: seq<Occurrence>, o: Occurrence, k: string)
    ensures FirstIndex(occs, k) < |occs| ==> FirstIndex(occs + [o], k) == FirstIndex(occs, k)
    ensures FirstIndex(occs, k) == |occs| && Counts(o, k) ==> FirstIndex(occs + [o], k) == |occs|
  {
    var s := occs + [o];
    var f0 := FirstIndex(occs, k);
    assert forall i :: 0 <= i < |occs| ==> s[i] == occs[i];
    if f0 == |occs| {
      assert s[|occs|] == o;
    }
  }

  lemma AppendOneKeys(occs: seq<Occurrence>, o: Occurrence)
    ensures OccKeys(occs + [o]) == OccKeys(occs) + (if o.tag != "" then {Lower(o.tag)} else {})
  {
    var s := occs + [o];
    forall x | x in OccKeys(s)
      ensures x in OccKeys(occs) + (if o.tag != "" then {Lower(o.tag)} else {})
    {
      var i :| 0 <= i < |s| && s[i].tag != "" && Lower(s[i].tag) == x;
      if i < |occs| {
        assert occs[i] == s[i];
      }
    }
    forall x | x in OccKeys(occs)
      ensures x in OccKeys(s)
    {
      var i :| 0 <= i < |occs| && occs[i].tag != "" && Lower(occs[i].tag) == x;
      assert s[i] == occs[i];
    }
    if o.tag != "" {
      assert s[|occs|] == o;
    }
  }

  /** A key with no occurrence has a zero count and sum and no first occurrence. */
  lemma {:induction false} AbsentKey(occs: seq<Occurrence>, k: string)
    requires k !in OccKeys(occs)
    ensures CountKey(occs, k) == 0 && SumKey(occs, k) == 0
    ensures FirstIndex(occs, k) == |occs|
    decreases |occs|
  {
    if |occs| > 0 {
      var init := occs[..|occs| - 1];
      var o := occs[|occs| - 1];
      assert occs == init + [o];
      AppendOne(init, o, k);
      AbsentKey(init, k);
    }
  }

  lemma KeySetAppend(groups: seq<TagGroup>, g: TagGroup)
    ensures KeySet(groups + [g]) == KeySet(groups) + {Key(g)}
  {
    var u := groups + [g];
    forall x | x in KeySet(u)
      ensures x in KeySet(groups) + {Key(g)}
    {
      var h :| h in u && Key(h) == x;
      var j :| 0 <= j < |u| && u[j] == h;
      if j < |groups| {
        assert groups[j] == h;
      }
    }
    forall x | x in KeySet(groups)
      ensures x in KeySet(u)
    {
      var h :| h in groups && Key(h) == x;
      assert h in u;
    }
    assert g in u;
  }

  lemma KeySetUpdate(groups: seq<TagGroup>, i: nat, g: TagGroup)
    requires i < |groups| && Key(g) == Key(groups[i])
    ensures KeySet(groups[i := g]) == KeySet(groups)
  {
    var u := groups[i := g];
    forall x | x in KeySet(groups)
      ensures x in KeySet(u)
    {
      var h :| h in groups && Key(h) == x;
      var j :| 0 <= j < |groups| && groups[j] == h;
      if j == i {
        assert Key(u[i]) == x;
      } else {
        assert u[j] == h;
      }
    }
    forall x | x in KeySet(u)
      ensures x in KeySet(groups)
    {
      var h :| h in u && Key(h) == x;
      var j :| 0 <= j < |u| && u[j] == h;
      if j == i {
        assert Key(groups[i]) == x;
      } else {
        assert groups[j] == h;
      }
    }
  }

  /** A group other than the one `o` is counted under summarises `occs + [o]` as it did `occs`. */
  lemma OtherGroupUnchanged(g: TagGroup, occs: seq<Occurrence>, o: Occurrence)
    requires Summarises(g, occs)
    requires !Counts(o, Key(g))
    ensures Summarises(g, occs + [o])
    ensures FirstIndex(occs + [o], Key(g)) == FirstIndex(occs, Key(g))
  {
    AppendOne(occs, o, Key(g));
    var f := FirstIndex(occs, Key(g));
    assert (occs + [o])[f] == occs[f];
  }

  /** Groups whose keys `o` is not counted under summarise `occs + [o]` as they did `occs`. */
  lemma OtherGroupsUnchanged(groups: seq<TagGroup>, occs: seq<Occurrence>, o: Occurrence)
    requires AllSummarise(groups, occs)
    requires forall j :: 0 <= j < |groups| ==> !Counts(o, Key(groups[j]))
    ensures AllSummarise(groups, occs + [o])
    ensures forall j :: 0 <= j < |groups| ==>
      FirstIndex(occs + [o], Key(groups[j])) == FirstIndex(occs, Key(groups[j])) < |occs|
  {
    forall j | 0 <= j < |groups|
      ensures Summarises(groups[j], occs + [o])
      ensures FirstIndex(occs + [o], Key(groups[j])) == FirstIndex(occs, Key(groups[j])) < |occs|
    {
      OtherGroupUnchanged(groups[j], occs, o);
    }
  }

  lemma UniqueAppend(groups: seq<TagGroup>, g: TagGroup)
    requires UniqueKeys(groups)
    requires forall j :: 0 <= j < |groups| ==> Key(groups[j]) != Key(g)
    ensures UniqueKeys(groups + [g])
  {
    var r := groups + [g];
    forall a, b | 0 <= a < b < |r|
      ensures Key(r[a]) != Key(r[b])
    {
      assert r[a] == groups[a];
      if b < |groups| {
        assert r[b] == groups[b];
      }
    }
  }

  lemma OrderAppend(groups: seq<TagGroup>, g: TagGroup, s: seq<Occurrence>, n: nat)
    requires FirstOrdered(groups, s)
    requires forall j :: 0 <= j < |groups| ==> FirstIndex(s, Key(groups[j])) < n
    requires FirstIndex(s, Key(g)) == n
    ensures FirstOrdered(groups + [g], s)
  {
    var r := groups + [g];
    forall a, b | 0 <= a < b < |r|
      ensures FirstIndex(s, Key(r[a])) < FirstIndex(s, Key(r[b]))
    {
      assert r[a] == groups[a];
      if b < |groups| {
        assert r[b] == groups[b];
      }
    }
  }

  lemma AddEmptyTag(groups: seq<TagGroup>, occs: seq<Occurrence>, o: Occurrence)
    requires GroupsOf(groups, occs) && o.tag == ""
    ensures GroupsOf(AddOccurrence(groups, o), occs + [o])
  {
    AppendOne(occs, o, "");
    OtherGroupsUnchanged(groups, occs, o);
  }

  lemma AddNewKey(groups: seq<TagGroup>, occs: seq<Occurrence>, o: Occurrence)
    requires GroupsOf(groups, occs) && o.tag != ""
    requires FindGroup(groups, Lower(o.tag)).None?
    ensures GroupsOf(AddOccurrence(groups, o), occs + [o])
  {
    var s := occs + [o];
    var k := Lower(o.tag);
    var g := TagGroup(o.tag, 1, o.value);
    var r := groups + [g];
    assert AddOccurrence(groups, o) == r;
    assert k !in KeySet(groups);
    AbsentKey(occs, k);
    AppendOne(occs, o, k);
    KeySetAppend(groups, g);
    UniqueAppend(groups, g);
    OtherGroupsUnchanged(groups, occs, o);
    NewGroupSummarises(occs, o);
    SummariseAppend(groups, g, s);
    OrderAppend(groups, g, s, |occs|);
  }

  /** The group started by an occurrence of a new key summarises the occurrences up to it. */
  lemma NewGroupSummarises(occs: seq<Occurrence>, o: Occurrence)
    requires o.tag != "" && Lower(o.tag) !in OccKeys(occs)
    ensures Summarises(TagGroup(o.tag, 1, o.value), occs + [o])
    ensures FirstIndex(occs + [o], Lower(o.tag)) == |occs|
  {
    AbsentKey(occs, Lower(o.tag));
    AppendOne(occs, o, Lower(o.tag));
    assert (occs + [o])[|occs|] == o;
  }

  lemma SummariseAppend(groups: seq<TagGroup>, g: TagGroup, s: seq<Occurrence>)
    requires AllSummarise(groups, s) && Summarises(g, s)
    ensures AllSummarise(groups + [g], s)
  {
    var r := groups + [g];
    forall j | 0 <= j < |r|
      ensures Summarises(r[j], s)
    {
      if j < |groups| {
        assert r[j] == groups[j];
      }
    }
  }

  lemma OrderUpdate(groups: seq<TagGroup>, occs: seq<Occurrence>, r: seq<TagGroup>, s: seq<Occurrence>)
    requires FirstOrdered(groups, occs) && |r| == |groups|
    requires forall j :: 0 <= j < |r| ==> FirstIndex(s, Key(r[j])) == FirstIndex(occs, Key(groups[j]))
    ensures FirstOrdered(r, s)
  {
  }

  lemma UniqueUpdate(groups: seq<TagGroup>, i: nat, g: TagGroup)
    requires UniqueKeys(groups) && i < |groups| && Key(g) == Key(groups[i])
    ensures UniqueKeys(groups[i := g])
  {
    var r := groups[i := g];
    assert forall j :: 0 <= j < |r| ==> Key(r[j]) == Key(groups[j]);
  }

  /** A group one more occurrence of its key is added to summarises the longer sequence. */
  lemma KnownGroupSummarises(h: TagGroup, occs: seq<Occurrence>, o: Occurrence)
    requires Summarises(h, occs) && Counts(o, Key(h))
    ensures Summarises(TagGroup(h.tag, h.count + 1, h.sum + o.value), occs + [o])
    ensures FirstIndex(occs + [o], Key(h)) == FirstIndex(occs, Key(h))
  {
    AppendOne(occs, o, Key(h));
    var f := FirstIndex(occs, Key(h));
    assert (occs + [o])[f] == occs[f];
  }

  lemma UpdatedGroupsSummarise(groups: seq<TagGroup>, occs: seq<Occurrence>, o: Occurrence, i: nat)
    requires AllSummarise(groups, occs) && UniqueKeys(groups)
    requires i < |groups| && Counts(o, Key(groups[i]))
    ensures var r := groups[i := TagGroup(groups[i].tag, groups[i].count + 1, groups[i].sum + o.value)];
      && AllSummarise(r, occs + [o])
      && forall j :: 0 <= j < |r| ==> FirstIndex(occs + [o], Key(r[j])) == FirstIndex(occs, Key(groups[j]))
  {
    var r := groups[i := TagGroup(groups[i].tag, groups[i].count + 1, groups[i].sum + o.value)];
    forall j | 0 <= j < |r|
      ensures Summarises(r[j], occs + [o])
      ensures FirstIndex(occs + [o], Key(r[j])) == FirstIndex(occs, Key(groups[j]))
    {
      if j == i {
        KnownGroupSummarises(groups[i], occs, o);
      } else {
        OtherGroupUnchanged(groups[j], occs, o);
      }
    }
  }

  lemma UnfoldAddKnown(groups: seq<TagGroup>, o: Occurrence, i: nat)
    requires o.tag != "" && FindGroup(groups, Lower(o.tag)) == Some(i)
    ensures AddOccurrence(groups, o) == groups[i := TagGroup(groups[i].tag, groups[i].count + 1, groups[i].sum + o.value)]
  {
  }

  lemma AddKnownKey(groups: seq<TagGroup>, occs: seq<Occurrence>, o: Occurrence, i: nat)
    requires GroupsOf(groups, occs) && o.tag != ""
    requires FindGroup(groups, Lower(o.tag)) == Some(i)
    ensures GroupsOf(AddOccurrence(groups, o), occs + [o])
  {
    var s := occs + [o];
    var k := Lower(o.tag);
    var g := TagGroup(groups[i].tag, groups[i].count + 1, groups[i].sum + o.value);
    var r := groups[i := g];
    UnfoldAddKnown(groups, o, i);
    KeySetUpdate(groups, i, g);
    AppendOne(occs, o, k);
    assert k in OccKeys(occs) by {
      assert groups[i] in groups;
    }
    UpdatedGroupsSummarise(groups, occs, o, i);
    UniqueUpdate(groups, i, g);
    OrderUpdate(groups, occs, r, s);
  }

  lemma AddOccurrenceStep(groups: seq<TagGroup>, occs: seq<Occurrence>, o: Occurrence)
    requires GroupsOf(groups, occs)
    ensures GroupsOf(AddOccurrence(groups, o), occs + [o])
  {
    if o.tag == "" {
      AddEmptyTag(groups, occs, o);
    } else {
      match FindGroup(groups, Lower(o.tag))
      case None => AddNewKey(groups, occs, o);
      case Some(i) => AddKnownKey(groups, occs, o, i);
    }
  }

  /**
   Grouping, as the source promises it: one group per distinct lower-cased
   non-empty tag, none for an empty tag; each group's count and sum are those
   of the occurrences under its key, its displayed tag is the first spelling
   met, and the groups are in order of first appearance.
   */
  lemma {:induction false} GroupTagsCorrect(occs: seq<Occurrence>)
    ensures GroupsOf(GroupTags(occs), occs)
    decreases |occs|
  {
    if |occs| > 0 {
      var init := occs[..|occs| - 1];
      assert occs == init + [occs[|occs| - 1]];
      GroupTagsCorrect(init);
      AddOccurrenceStep(GroupTags(init), init, occs[|occs| - 1]);
    } else {
      assert OccKeys(occs) == {};
    }
  }

  // ---------------------------------------------------------------------------
  // Amounts are not apportioned between tags

  lemma {:induction false} SameValueSum(occs: seq<Occurrence>, k: string, v: int)
    requires forall i :: 0 <= i < |occs| ==> occs[i].value == v
    ensures SumKey(occs, k) == CountKey(occs, k) * v
    decreases |occs|
  {
    if |occs| > 0 {
      SameValueSum(occs[..|occs| - 1], k, v);
    }
  }

  /**
   Each tag of an entry adds the entry's full amount to its group: an entry
   tagged twice under one key adds its amount twice, and an entry with two
   keys adds its whole amount to both.
   */
  lemma EntryTagSum(e: Entry, k: string)
    ensures SumKey(EntryOccurrences(e), k) == CountKey(EntryOccurrences(e), k) * e.numericValue.GetOr(0)
  {
    SameValueSum(EntryOccurrences(e), k, e.numericValue.GetOr(0));
  }

  lemma {:induction false} OccurrencesAppend(a: seq<Entry>, b: seq<Entry>)
    ensures Occurrences(a + b) == Occurrences(a) + Occurrences(b)
    decreases |b|
  {
    if |b| == 0 {
      assert a + b == a;
    } else {
      var b' := b[..|b| - 1];
      assert (a + b)[..|a + b| - 1] == a + b';
      OccurrencesAppend(a, b');
    }
  }

  lemma {:induction false} SumKeyAppend(a: seq<Occurrence>, b: seq<Occurrence>, k: string)
    ensures SumKey(a + b, k) == SumKey(a, k) + SumKey(b, k)
    ensures CountKey(a + b, k) == CountKey(a, k) + CountKey(b, k)
    decreases |b|
  {
    if |b| == 0 {
      assert a + b == a;
    } else {
      var b' := b[..|b| - 1];
      assert (a + b)[..|a + b| - 1] == a + b';
      SumKeyAppend(a, b', k);
    }
  }

  /** The sum of a tag group is, over the entries, each entry's amount times the times it carries that key. */
  function WeightedSum(entries: seq<Entry>, k: string): int {
    if |entries| == 0 then 0
    else
      var e := entries[|entries| - 1];
      WeightedSum(entries[..|entries| - 1], k) + CountKey(EntryOccurrences(e), k) * e.numericValue.GetOr(0)
  }

  lemma {:induction false} TagSumIsWeighted(entries: seq<Entry>, k: string)
    ensures SumKey(Occurrences(entries), k) == WeightedSum(entries, k)
    decreases |entries|
  {
    if |entries| > 0 {
      var init := entries[..|entries| - 1];
      var e := entries[|entries| - 1];
      TagSumIsWeighted(init, k);
      SumKeyAppend(Occurrences(init), EntryOccurrences(e), k);
      EntryTagSum(e, k);
    }
  }

  // ---------------------------------------------------------------------------
  // The grouping as written: `map[key]` on a plain object literal

  /**
   The lower-case names a plain object `{}` inherits from `Object.prototype`.
   For such a key `!map[key]` is false before any group exists, so no group is
   created and the increments land on the inherited property instead.
   */
  const InheritedKeys: set<string> := {"constructor", "__proto__"}

  function AddOccurrenceAsWritten(groups: seq<TagGroup>, o: Occurrence): seq<TagGroup> {
    if o.tag != "" && Lower(o.tag) in InheritedKeys then groups
    else AddOccurrence(groups, o)
  }

  function GroupTagsAsWritten(occs: seq<Occurrence>): (r: seq<TagGroup>)
    ensures |r| <= |occs|
    ensures forall i :: 0 <= i < |r| ==> r[i].tag != "" && r[i].count >= 1 && Key(r[i]) !in InheritedKeys
  {
    if |occs| == 0 then []
    else AddOccurrenceAsWritten(GroupTagsAsWritten(occs[..|occs| - 1]), occs[|occs| - 1])
  }

  /** The occurrences whose key is not an inherited property name. */
  function OwnKeyed(occs: seq<Occurrence>): (r: seq<Occurrence>)
    ensures forall o :: o in r <==> o in occs && !(o.tag != "" && Lower(o.tag) in InheritedKeys)
  {
    if |occs| == 0 then []
    else
      var o := occs[|occs| - 1];
      OwnKeyed(occs[..|occs| - 1]) + (if o.tag != "" && Lower(o.tag) in InheritedKeys then [] else [o])
  }

  /** As written, the grouping is the intended one over the occurrences whose key is not inherited. */
  lemma {:induction false} AsWrittenDropsInherited(occs: seq<Occurrence>)
    ensures GroupTagsAsWritten(occs) == GroupTags(OwnKeyed(occs))
    decreases |occs|
  {
    if |occs| > 0 {
      var init := occs[..|occs| - 1];
      assert occs == init + [occs[|occs| - 1]];
      AsWrittenDropsInherited(init);
      AsWrittenStep(init, occs[|occs| - 1]);
    }
  }

  lemma AsWrittenStep(init: seq<Occurrence>, o: Occurrence)
    requires GroupTagsAsWritten(init) == GroupTags(OwnKeyed(init))
    ensures GroupTagsAsWritten(init + [o]) == GroupTags(OwnKeyed(init + [o]))
  {
    var occs := init + [o];
    assert occs[..|occs| - 1] == init;
    assert GroupTagsAsWritten(occs) == AddOccurrenceAsWritten(GroupTagsAsWritten(init), o);
    if o.tag != "" && Lower(o.tag) in InheritedKeys {
      assert OwnKeyed(occs) == OwnKeyed(init);
    } else {
      var own := OwnKeyed(init) + [o];
      assert OwnKeyed(occs) == own;
      assert own[..|own| - 1] == OwnKeyed(init);
      assert GroupTags(own) == AddOccurrence(GroupTags(OwnKeyed(init)), o);
    }
  }

  /**
   As written, the groups are exactly those of the occurrences with a
   non-inherited key, so a tag lower-casing to "constructor" or "__proto__"
   never gets a group.
   */
  lemma AsWrittenGroups(occs: seq<Occurrence>)
    ensures GroupsOf(GroupTagsAsWritten(occs), OwnKeyed(occs))
    ensures forall k :: k in InheritedKeys ==> k !in KeySet(GroupTagsAsWritten(occs))
  {
    AsWrittenDropsInherited(occs);
    var own := OwnKeyed(occs);
    GroupTagsCorrect(own);
    assert forall i :: 0 <= i < |own| ==> own[i] in own;
  }

  /** Exactly the inherited keys are lost: every other key keeps its group. */
  lemma OwnKeyedKeys(occs: seq<Occurrence>)
    ensures OccKeys(OwnKeyed(occs)) == OccKeys(occs) - InheritedKeys
  {
    var own := OwnKeyed(occs);
    forall k | k in OccKeys(own) ensures k in OccKeys(occs) - InheritedKeys {
      var i :| 0 <= i < |own| && own[i].tag != "" && Lower(own[i].tag) == k;
      assert own[i] in own;
      var j :| 0 <= j < |occs| && occs[j] == own[i];
      assert Lower(occs[j].tag) in OccKeys(occs);
    }
    forall k | k in OccKeys(occs) - InheritedKeys ensures k in OccKeys(own) {
      var i :| 0 <= i < |occs| && occs[i].tag != "" && Lower(occs[i].tag) == k;
      assert occs[i] in occs;
      var j :| 0 <= j < |own| && own[j] == occs[i];
      assert Lower(own[j].tag) in OccKeys(own);
    }
  }

  /** Dropping the inherited keys leaves the count and the sum of every other key as they were. */
  lemma {:induction false} OwnKeyedCounts(occs: seq<Occurrence>, k: string)
    requires k !in InheritedKeys
    ensures CountKey(OwnKeyed(occs), k) == CountKey(occs, k)
    ensures SumKey(OwnKeyed(occs), k) == SumKey(occs, k)
    decreases |occs|
  {
    if |occs| > 0 {
      var init := occs[..|occs| - 1];
      var o := occs[|occs| - 1];
      OwnKeyedCounts(init, k);
      var own := OwnKeyed(occs);
      if o.tag != "" && Lower(o.tag) in InheritedKeys {
        assert own == OwnKeyed(init);
        assert !Counts(o, k);
      } else {
        assert own == OwnKeyed(init) + [o];
        assert own[..|own| - 1] == OwnKeyed(init);
      }
    }
  }

  /** One entry tagged "Constructor": the intended grouping has its group, the code as written has none. */
  lemma InheritedKeyLost()
    ensures var occs := [Occurrence("Constructor", 5)];
      && GroupTags(occs) == [TagGroup("Constructor", 1, 5)]
      && GroupTagsAsWritten(occs) == []
  {
    var occs := [Occurrence("Constructor", 5)];
    assert Lower("Constructor") == "constructor";
    assert occs[..0] == [];
  }
}
