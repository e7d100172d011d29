/**
 The entry store behind the `/data` endpoints (dataController.js): create,
 list, get, update and delete, each scoped to the requesting user, and the
 normalisation of the request body that create and update share.

 The collection is a sequence in store order. The requesting user, the
 identifier the database assigns and the clock reading that becomes
 `createdAt` are parameters.
 */
module Entries {
  import opened Base
  import opened Text
  import opened Order
  import opened Model

  /** The `tags` field of a request body, by its JavaScript type. */
  datatype TagsInput =
    | TagArray(items: seq<string>)   // an array: kept as it is
    | TagText(text: string)          // a string
    | NoTags                         // absent, `null`, or any other type

  /** A request body; an absent field is `None`. */
  datatype EntryInput = EntryInput(title: Option<string>, content: Option<string>, numericValue: Option<int>, tags: TagsInput)

  /** A JSON reply: a body, or a status with `{ message }`. */
  datatype Reply<T> = Done(value: T) | Failed(status: nat, message: string)

  const NotFoundStatus: nat := 404
  const GetNotFound: string := "Entry not found"
  const ChangeNotFound: string := "Entry not found or unauthorized"

  // ---------------------------------------------------------------------------
  // Request normalisation

  function TrimAll(parts: seq<string>): (r: seq<string>)
    ensures |r| == |parts|
    ensures forall i :: 0 <= i < |r| ==> r[i] == Trim(parts[i])
  {
    seq(|parts|, i requires 0 <= i < |parts| => Trim(parts[i]))
  }

  /**
   An array passes through, a non-empty string is split on `,` with every
   piece trimmed (empty pieces stay), and anything else is no tags.
   */
  function NormalizeTags(t: TagsInput): seq<string> {
    match t
    case TagArray(items) => items
    case TagText(text) => if |text| > 0 then TrimAll(Split(text, ',')) else []
    case NoTags => []
  }

  /** The fields create and update write: `title || ''`, `content || ''`, `numericValue || 0`, and the tags. */
  function Fields(input: EntryInput): (string, string, int, seq<string>) {
    (input.title.GetOr(""), input.content.GetOr(""), input.numericValue.GetOr(0), NormalizeTags(input.tags))
  }

  /** `r` carries exactly the fields of `input`, with the defaults. */
  predicate HasFields(r: Entry, input: EntryInput) {
    && r.title == input.title.GetOr("")
    && r.content == input.content.GetOr("")
    && r.numericValue == Some(input.numericValue.GetOr(0))
    && r.tags == NormalizeTags(input.tags)
  }

  /** A string without white space at either end. */
  predicate Trimmed(s: string) {
    |s| == 0 || (!IsJsSpace(s[0]) && !IsJsSpace(s[|s| - 1]))
  }

  lemma TrimTrimmed(s: string)
    requires Trimmed(s)
    ensures Trim(s) == s
  {
    if |s| > 0 {
      assert LeadingSpace(s) == 0;
      assert ContentEnd(s) == |s|;
      assert s[0..|s|] == s;
    }
  }

  /**
   The string form of tags agrees with the array form: for trimmed tags
   without commas, sending `tags.join(',')` stores the same list as sending
   the array itself. The one exception is the single empty tag, whose text
   is the empty string and so stores no tags.
   */
  lemma TagTextOfJoin(tags: seq<string>)
    requires forall i :: 0 <= i < |tags| ==> ',' !in tags[i] && Trimmed(tags[i])
    ensures |tags| > 0 && tags != [""] ==> NormalizeTags(TagText(Join(tags, ","))) == NormalizeTags(TagArray(tags))
    ensures tags == [""] ==> NormalizeTags(TagText(Join(tags, ","))) == []
  {
    if |tags| > 0 && tags != [""] {
      SplitJoin(tags, ',');
      var text := Join(tags, ",");
      forall i | 0 <= i < |tags|
        ensures Trim(tags[i]) == tags[i]
      {
        TrimTrimmed(tags[i]);
      }
      assert TrimAll(Split(text, ',')) == tags;
    }
  }

  /**
   Tag text is cut at every comma: one trimmed piece per comma plus one, no
   piece holding a comma, and each piece the trimmed text between two commas.
   */
  lemma TagTextPieces(text: string)
    requires |text| > 0
    ensures var r := NormalizeTags(TagText(text));
      && |r| == CountChar(text, ',') + 1
      && (forall i :: 0 <= i < |r| ==> ',' !in r[i] && Trimmed(r[i]))
      && (forall i :: 0 <= i < |r| ==> r[i] == Trim(Split(text, ',')[i]))
  {
    var pieces := Split(text, ',');
    var r := NormalizeTags(TagText(text));
    assert r == TrimAll(pieces);
    forall i | 0 <= i < |r|
      ensures ',' !in r[i] && Trimmed(r[i])
    {
      TrimNoComma(pieces[i]);
    }
  }

  /** Trimming a piece without a comma leaves a trimmed piece without a comma. */
  lemma TrimNoComma(p: string)
    requires ',' !in p
    ensures ',' !in Trim(p) && Trimmed(Trim(p))
  {
    var t := Trim(p);
    var k: nat :| TrimmedAt(p, t, k);
    forall j | 0 <= j < |t|
      ensures t[j] != ','
    {
      assert p[k + j] == t[j];
    }
  }

  // ---------------------------------------------------------------------------
  // Store operations

  /** The position of the entry with id `id` owned by `user`: `findOne({ _id, user })`. */
  function FindOwned(store: seq<Entry>, user: UserId, id: EntryId): (r: Option<nat>)
    ensures r.None? <==> forall j :: 0 <= j < |store| ==> !(store[j].id == id && store[j].owner == user)
    ensures r.Some? ==> r.value < |store| && store[r.value].id == id && store[r.value].owner == user
    ensures r.Some? ==> forall j :: 0 <= j < r.value ==> !(store[j].id == id && store[j].owner == user)
  {
    if |store| == 0 then None
    else if store[0].id == id && store[0].owner == user then Some(0)
    else
      match FindOwned(store[1..], user, id)
      case None => None
      case Some(k) => Some(k + 1)
  }

  /** `createEntry`: the new entry belongs to the requesting user and is appended. */
  function Create(store: seq<Entry>, user: UserId, input: EntryInput, id: EntryId, now: int): (r: (Entry, seq<Entry>))
    ensures r.1 == store + [r.0]
    ensures r.0.id == id && r.0.owner == user && r.0.createdAt == now
    ensures HasFields(r.0, input)
  {
    var (title, content, value, tags) := Fields(input);
    var e := Entry(id, user, title, content, Some(value), tags, now);
    (e, store + [e])
  }

  /** Newest first: `sort({ createdAt: -1 })` as a rank. */
  function NewestFirst(e: Entry): int {
    -e.createdAt
  }

  /** `listEntries`: the user's entries, newest first; entries created at the same time stay in store order. */
  function List(store: seq<Entry>, user: UserId): (r: seq<Entry>)
    ensures multiset(r) == multiset(OwnedBy(store, user))
    ensures forall i, j :: 0 <= i < j < |r| ==> r[i].createdAt >= r[j].createdAt
  {
    var r := SortByRank(OwnedBy(store, user), NewestFirst);
    NewestFirstOrder(r);
    r
  }

  /** `getEntry`. */
  function Get(store: seq<Entry>, user: UserId, id: EntryId): (r: Reply<Entry>)
    ensures r.Failed? <==> forall j :: 0 <= j < |store| ==> !(store[j].id == id && store[j].owner == user)
    ensures r.Failed? ==> r == Failed(NotFoundStatus, GetNotFound)
    ensures r.Done? ==> r.value in store && r.value.id == id && r.value.owner == user
  {
    match FindOwned(store, user, id)
    case None => Failed(NotFoundStatus, GetNotFound)
    case Some(i) => Done(store[i])
  }

  /** `updateEntry`: `$set` of the four fields on the matching entry; the reply is the entry after the update. */
  function Update(store: seq<Entry>, user: UserId, id: EntryId, input: EntryInput): (r: (Reply<Entry>, seq<Entry>))
    ensures r.0.Failed? ==> r == (Failed(NotFoundStatus, ChangeNotFound), store)
  {
    match FindOwned(store, user, id)
    case None => (Failed(NotFoundStatus, ChangeNotFound), store)
    case Some(i) =>
      var (title, content, value, tags) := Fields(input);
      var e := store[i].(title := title, content := content, numericValue := Some(value), tags := tags);
      (Done(e), store[i := e])
  }

  /** `deleteEntry`: the matching entry is removed and its id reported. */
  function Delete(store: seq<Entry>, user: UserId, id: EntryId): (r: (Reply<EntryId>, seq<Entry>))
    ensures r.0.Failed? ==> r == (Failed(NotFoundStatus, ChangeNotFound), store)
  {
    match FindOwned(store, user, id)
    case None => (Failed(NotFoundStatus, ChangeNotFound), store)
    case Some(i) => (Done(store[i].id), store[..i] + store[i + 1..])
  }

  // ---------------------------------------------------------------------------
  // Properties

  /** No two entries share an id. */
  predicate UniqueIds(store: seq<Entry>) {
    forall i, j :: 0 <= i < j < |store| ==> store[i].id != store[j].id
  }

  predicate FreshId(store: seq<Entry>, id: EntryId) {
    forall j :: 0 <= j < |store| ==> store[j].id != id
  }

  /**
   The list holds exactly the user's entries, each as often as it is stored,
   newest first, and entries created at the same instant in store order.
   */
  lemma ListSpec(store: seq<Entry>, user: UserId)
    ensures var r := List(store, user);
      && multiset(r) == multiset(OwnedBy(store, user))
      && (forall e :: e in r <==> e in store && e.owner == user)
      && (forall i, j :: 0 <= i < j < |r| ==> r[i].createdAt >= r[j].createdAt)
      && (forall k :: WithRank(r, NewestFirst, k) == WithRank(OwnedBy(store, user), NewestFirst, k))
  {
    var own := OwnedBy(store, user);
    var r := SortByRank(own, NewestFirst);
    assert List(store, user) == r;
    SameMembers(own, r);
    NewestFirstOrder(r);
    forall k
      ensures WithRank(r, NewestFirst, k) == WithRank(own, NewestFirst, k)
    {
      SortByRankStable(own, NewestFirst, k);
    }
  }

  lemma SameMembers(a: seq<Entry>, b: seq<Entry>)
    requires multiset(a) == multiset(b)
    ensures forall e :: e in a <==> e in b
  {
    forall e
      ensures e in a <==> e in b
    {
      assert e in a <==> e in multiset(a);
      assert e in b <==> e in multiset(b);
    }
  }

  lemma NewestFirstOrder(r: seq<Entry>)
    requires SortedBy(r, NewestFirst)
    ensures forall i, j :: 0 <= i < j < |r| ==> r[i].createdAt >= r[j].createdAt
  {
    forall i, j | 0 <= i < j < |r|
      ensures r[i].createdAt >= r[j].createdAt
    {
      assert NewestFirst(r[i]) <= NewestFirst(r[j]);
    }
  }

  /** A fresh id keeps ids unique, and the new entry is then what `get` returns for it. */
  lemma CreateThenGet(store: seq<Entry>, user: UserId, input: EntryInput, id: EntryId, now: int)
    requires UniqueIds(store) && FreshId(store, id)
    ensures var (e, store') := Create(store, user, input, id, now);
      && UniqueIds(store')
      && Get(store', user, id) == Done(e)
      && e in List(store', user)
  {
    var (e, store') := Create(store, user, input, id, now);
    var f := FindOwned(store', user, id);
    assert store'[|store|] == e;
    assert f.Some? && f.value == |store|;
    var own := OwnedBy(store', user);
    assert e in own;
    SameMembers(own, List(store', user));
  }

  /**
   Get, update and delete answer the same whether or not another user's entry
   is stored: another user's entry, even one with the requested id, is
   indistinguishable from a missing one.
   */
  lemma ForeignEntryInvisible(a: seq<Entry>, x: Entry, b: seq<Entry>, user: UserId, id: EntryId, input: EntryInput)
    requires x.owner != user
    ensures Get(a + [x] + b, user, id) == Get(a + b, user, id)
    ensures Update(a + [x] + b, user, id, input).0 == Update(a + b, user, id, input).0
    ensures Delete(a + [x] + b, user, id).0 == Delete(a + b, user, id).0
  {
    var s := a + [x] + b;
    var t := a + b;
    var fs := FindOwned(s, user, id);
    var ft := FindOwned(t, user, id);
    assert s[|a|] == x;
    if fs.Some? {
      var m := fs.value;
      var m0 := if m < |a| then m else m - 1;
      assert t[m0] == s[m];
      assert ft.Some?;
      var k := ft.value;
      var k' := if k < |a| then k else k + 1;
      assert s[k'] == t[k];
      assert m == k';
    } else {
      forall j | 0 <= j < |t|
        ensures !(t[j].id == id && t[j].owner == user)
      {
        var j' := if j < |a| then j else j + 1;
        assert s[j'] == t[j];
      }
    }
  }

  /**
   A successful update rewrites exactly the four fields of the one matching
   entry; its id, owner and creation time and every other entry stay as they
   were. A failed one changes nothing.
   */
  lemma UpdateSpec(store: seq<Entry>, user: UserId, id: EntryId, input: EntryInput)
    ensures var (reply, store') := Update(store, user, id, input);
      && |store'| == |store|
      && (reply.Failed? <==> forall j :: 0 <= j < |store| ==> !(store[j].id == id && store[j].owner == user))
      && (reply.Failed? ==> store' == store)
      && (reply.Done? ==>
            exists i :: (0 <= i < |store|
              && store[i].id == id && store[i].owner == user
              && (forall j :: 0 <= j < i ==> !(store[j].id == id && store[j].owner == user))
              && store'[i] == reply.value
              && reply.value.id == id && reply.value.owner == user && reply.value.createdAt == store[i].createdAt
              && HasFields(reply.value, input)
              && (forall j :: 0 <= j < |store| && j != i ==> store'[j] == store[j])))
  {
    var f := FindOwned(store, user, id);
    if f.Some? {
      var i := f.value;
      var (reply, store') := Update(store, user, id, input);
      assert store'[i] == reply.value;
    }
  }

  /**
   A successful delete removes exactly the one matching entry and reports its
   id; the others stay, in order. With unique ids, no entry with that id is
   left. A failed one changes nothing.
   */
  lemma DeleteSpec(store: seq<Entry>, user: UserId, id: EntryId)
    ensures var (reply, store') := Delete(store, user, id);
      && (reply.Failed? <==> forall j :: 0 <= j < |store| ==> !(store[j].id == id && store[j].owner == user))
      && (reply.Failed? ==> store' == store)
      && (reply.Done? ==>
            && reply.value == id
            && |store'| == |store| - 1
            && exists i :: (0 <= i < |store| && store[i].id == id && store[i].owner == user
                 && (forall j :: 0 <= j < i ==> !(store[j].id == id && store[j].owner == user))
                 && store' == store[..i] + store[i + 1..]))
      && (reply.Done? && UniqueIds(store) ==> FreshId(store', id) && UniqueIds(store'))
  {
    var f := FindOwned(store, user, id);
    if f.Some? {
      var i := f.value;
      var (reply, store') := Delete(store, user, id);
      if UniqueIds(store) {
        forall j | 0 <= j < |store'|
          ensures store'[j].id != id
        {
          if j < i {
            assert store'[j] == store[j];
          } else {
            assert store'[j] == store[j + 1];
          }
        }
        forall a, b | 0 <= a < b < |store'|
          ensures store'[a].id != store'[b].id
        {
          var a' := if a < i then a else a + 1;
          var b' := if b < i then b else b + 1;
          assert store'[a] == store[a'] && store'[b] == store[b'];
        }
      }
    }
  }

  /** Update keeps ids unique, since it never changes an id. */
  lemma UpdateKeepsIds(store: seq<Entry>, user: UserId, id: EntryId, input: EntryInput)
    requires UniqueIds(store)
    ensures UniqueIds(Update(store, user, id, input).1)
  {
    UpdateSpec(store, user, id, input);
    var store' := Update(store, user, id, input).1;
    assert forall j :: 0 <= j < |store| ==> store'[j].id == store[j].id;
  }

  /** The store around position `i`, with `e` in its place. */
  lemma {:induction false} OwnedBySplice(before: seq<Entry>, e: Entry, after: seq<Entry>, other: UserId)
    requires e.owner != other
    ensures OwnedBy(before + [e] + after, other) == OwnedBy(before + after, other)
  {
    OwnedByAppend(before + [e], after, other);
    OwnedByAppend(before, [e], other);
    OwnedByAppend(before, after, other);
    assert [e][..0] == [];
  }

  /** No operation of one user changes which entries another user has. */
  lemma OtherUsersUntouched(store: seq<Entry>, user: UserId, other: UserId, id: EntryId, input: EntryInput, now: int)
    requires other != user
    ensures OwnedBy(Create(store, user, input, id, now).1, other) == OwnedBy(store, other)
    ensures OwnedBy(Update(store, user, id, input).1, other) == OwnedBy(store, other)
    ensures OwnedBy(Delete(store, user, id).1, other) == OwnedBy(store, other)
  {
    CreateUntouched(store, user, other, input, id, now);
    var f := FindOwned(store, user, id);
    if f.Some? {
      ChangeUntouched(store, user, other, id, input, f.value);
    }
  }

  lemma CreateUntouched(store: seq<Entry>, user: UserId, other: UserId, input: EntryInput, id: EntryId, now: int)
    requires other != user
    ensures OwnedBy(Create(store, user, input, id, now).1, other) == OwnedBy(store, other)
  {
    var e := Create(store, user, input, id, now).0;
    OwnedByAppend(store, [e], other);
    assert [e][..0] == [];
  }

  lemma ChangeUntouched(store: seq<Entry>, user: UserId, other: UserId, id: EntryId, input: EntryInput, i: nat)
    requires other != user
    requires FindOwned(store, user, id) == Some(i)
    ensures OwnedBy(Update(store, user, id, input).1, other) == OwnedBy(store, other)
    ensures OwnedBy(Delete(store, user, id).1, other) == OwnedBy(store, other)
  {
    var before := store[..i];
    var after := store[i + 1..];
    assert store == before + [store[i]] + after;
    OwnedBySplice(before, store[i], after, other);
    var store' := Update(store, user, id, input).1;
    assert store' == before + [store'[i]] + after;
    OwnedBySplice(before, store'[i], after, other);
    assert Delete(store, user, id).1 == before + after;
  }
}
