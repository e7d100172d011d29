/**
 The CSV export (`exportCsv`, exportController.js): a header record, then
 one record per entry of the user, newest first, records separated by a
 line feed. Fields are escaped by `escapeCsv`, which follows rules 6 and 7
 of section 2 of RFC 4180: a field holding a double quote, a comma or a line
 feed is enclosed in double quotes, and a double quote inside it is written
 twice. Unlike RFC 4180, records end with a bare line feed, and a carriage
 return alone does not cause quoting.

 `ReadCsv` is an independent reader for that format; the main property is
 that it reads back, from the exported text, exactly the values the
 handler wrote.

 `String(value)` of the stored fields: an id and the strings pass through,
 an integer amount is its decimal text, and the rendering of a `Date` is
 the parameter `showDate`.
 */
module Csv {
  import opened Base
  import opened Text
  import opened Model
  import opened Entries

  const Quote: char := '"'

  /** `s.includes('"') || s.includes(',') || s.includes('\n')`. */
  predicate NeedsQuotes(s: string) {
    Quote in s || ',' in s || '\n' in s
  }

  /** `s.replace(/"/g, '""')`. */
  function Doubled(s: string): (r: string)
    ensures |r| == |s| + CountChar(s, Quote)
  {
    if |s| == 0 then ""
    else (if s[0] == Quote then [Quote, Quote] else [s[0]]) + Doubled(s[1..])
  }

  /** `escapeCsv`: `null` and `undefined` are the empty field. */
  function EscapeCsv(v: Option<string>): (r: string)
    ensures r == "" <==> v.None? || v.value == ""
    ensures v.Some? && !NeedsQuotes(v.value) ==> r == v.value
    ensures v.Some? && NeedsQuotes(v.value) ==>
      && |r| == |v.value| + CountChar(v.value, Quote) + 2
      && r[0] == Quote && r[|r| - 1] == Quote
  {
    match v
    case None => ""
    case Some(s) => if NeedsQuotes(s) then [Quote] + Doubled(s) + [Quote] else s
  }

  // ---------------------------------------------------------------------------
  // The exported text

  const HeaderFields: seq<Option<string>> :=
    [Some("id"), Some("title"), Some("content"), Some("numericValue"), Some("tags"), Some("createdAt")]

  /** `String(e.numericValue)`, or `undefined` when the entry has no amount. */
  function AmountText(v: Option<int>): Option<string> {
    match v
    case None => None
    case Some(n) => Some(ShowInt(n))
  }

  /** The six values of an entry's record, before escaping; the tags are joined with `;`. */
  function RowFields(e: Entry, showDate: int -> string): (r: seq<Option<string>>)
    ensures |r| == |HeaderFields|
  {
    [Some(e.id), Some(e.title), Some(e.content), AmountText(e.numericValue), Some(Join(e.tags, ";")), Some(showDate(e.createdAt))]
  }

  function EscapeAll(fields: seq<Option<string>>): (r: seq<string>)
    ensures |r| == |fields|
    ensures forall i :: 0 <= i < |r| ==> r[i] == EscapeCsv(fields[i])
  {
    seq(|fields|, i requires 0 <= i < |fields| => EscapeCsv(fields[i]))
  }

  /** `row.join(',')` of the escaped fields. */
  function RecordText(fields: seq<Option<string>>): string {
    Join(EscapeAll(fields), ",")
  }

  function RecordTexts(records: seq<seq<Option<string>>>): (r: seq<string>)
    ensures |r| == |records|
    ensures forall i :: 0 <= i < |r| ==> r[i] == RecordText(records[i])
  {
    seq(|records|, i requires 0 <= i < |records| => RecordText(records[i]))
  }

  /** The records of the export: the header, then the user's entries in list order. */
  function ExportRecords(store: seq<Entry>, user: UserId, showDate: int -> string): (r: seq<seq<Option<string>>>)
    ensures |r| == |List(store, user)| + 1
    ensures r[0] == HeaderFields
    ensures forall i :: 0 < i < |r| ==> r[i] == RowFields(List(store, user)[i - 1], showDate)
  {
    [HeaderFields] + EntryRows(List(store, user), showDate)
  }

  function EntryRows(entries: seq<Entry>, showDate: int -> string): (r: seq<seq<Option<string>>>)
    ensures |r| == |entries|
    ensures forall i :: 0 <= i < |r| ==> r[i] == RowFields(entries[i], showDate)
  {
    seq(|entries|, i requires 0 <= i < |entries| => RowFields(entries[i], showDate))
  }

  /** `csvRows.join('\n')`. */
  function ExportCsv(store: seq<Entry>, user: UserId, showDate: int -> string): (r: string)
    ensures RecordText(HeaderFields) <= r
    ensures r == RecordText(HeaderFields) <==> |List(store, user)| == 0
    ensures |List(store, user)| > 0 ==> r[|RecordText(HeaderFields)|] == '\n'
  {
    var records := ExportRecords(store, user, showDate);
    var texts := RecordTexts(records);
    JoinHead(texts, "\n");
    Join(texts, "\n")
  }

  /** The first part opens the joined text, and a separator follows it exactly when there are more parts. */
  lemma JoinHead(parts: seq<string>, sep: string)
    requires |parts| > 0 && |sep| > 0
    ensures parts[0] <= Join(parts, sep)
    ensures Join(parts, sep) == parts[0] <==> |parts| == 1
    ensures |parts| > 1 ==> Join(parts, sep)[|parts[0]|] == sep[0]
  {
    if |parts| > 1 {
      var rest := Join(parts[1..], sep);
      assert Join(parts, sep) == parts[0] + sep + rest;
      assert (parts[0] + sep + rest)[..|parts[0]|] == parts[0];
    }
  }

  // ---------------------------------------------------------------------------
  // A reader for the format

  /** Reads a quoted field after its opening quote: the text up to the closing quote, with `""` read as `"`. */
  function ReadQuoted(s: string): (r: (string, string))
    ensures |r.1| <= |s|
  {
    if |s| == 0 then ("", "")
    else if s[0] == Quote then
      if |s| > 1 && s[1] == Quote then
        var t := ReadQuoted(s[2..]);
        ([Quote] + t.0, t.1)
      else ("", s[1..])
    else
      var t := ReadQuoted(s[1..]);
      ([s[0]] + t.0, t.1)
  }

  /** Reads an unquoted field: the text up to the next comma or line feed. */
  function ReadPlain(s: string): (r: (string, string))
    ensures |r.1| <= |s|
  {
    if |s| == 0 || s[0] == ',' || s[0] == '\n' then ("", s)
    else
      var t := ReadPlain(s[1..]);
      ([s[0]] + t.0, t.1)
  }

  /** Reads one field; the second component is the text after it. */
  function ReadField(s: string): (r: (string, string))
    ensures |r.1| <= |s|
  {
    if |s| > 0 && s[0] == Quote then ReadQuoted(s[1..]) else ReadPlain(s)
  }

  /** Reads the comma-separated fields of one record; the second component is the text after it. */
  function ReadRecord(s: string): (r: (seq<string>, string))
    ensures |r.0| >= 1
    ensures |r.1| <= |s|
    decreases |s|
  {
    var f := ReadField(s);
    if |f.1| > 0 && f.1[0] == ',' then
      var t := ReadRecord(f.1[1..]);
      ([f.0] + t.0, t.1)
    else ([f.0], f.1)
  }

  /** Reads the records of a document, each ended by a line feed or by the end of the text. */
  function ReadCsv(s: string): (r: seq<seq<string>>)
    ensures |r| >= 1
    decreases |s|
  {
    var t := ReadRecord(s);
    if |t.1| == 0 then [t.0] else [t.0] + ReadCsv(t.1[1..])
  }

  // ---------------------------------------------------------------------------
  // Reading back what was written

  /** The value a field stands for: `null` and `undefined` as the empty string. */
  function Values(fields: seq<Option<string>>): (r: seq<string>)
    ensures |r| == |fields|
    ensures forall i :: 0 <= i < |r| ==> r[i] == fields[i].GetOr("")
  {
    seq(|fields|, i requires 0 <= i < |fields| => fields[i].GetOr(""))
  }

  function AllValues(records: seq<seq<Option<string>>>): (r: seq<seq<string>>)
    ensures |r| == |records|
    ensures forall i :: 0 <= i < |r| ==> r[i] == Values(records[i])
  {
    seq(|records|, i requires 0 <= i < |records| => Values(records[i]))
  }

  /** What may follow a field: nothing, the next field, or the next record. */
  predicate FieldEnd(rest: string) {
    |rest| == 0 || rest[0] == ',' || rest[0] == '\n'
  }

  lemma {:induction false} ReadQuotedDoubled(s: string, rest: string)
    requires FieldEnd(rest)
    ensures ReadQuoted(Doubled(s) + [Quote] + rest) == (s, rest)
    decreases |s|
  {
    if |s| == 0 {
      assert Doubled(s) + [Quote] + rest == [Quote] + rest;
      QuotedClose(rest);
    } else {
      ReadQuotedDoubled(s[1..], rest);
      QuotedStep(s, rest, Doubled(s[1..]) + [Quote] + rest);
    }
  }

  lemma QuotedStep(s: string, rest: string, y: string)
    requires |s| > 0
    requires y == Doubled(s[1..]) + [Quote] + rest
    requires ReadQuoted(y) == (s[1..], rest)
    ensures ReadQuoted(Doubled(s) + [Quote] + rest) == (s, rest)
  {
    assert [s[0]] + s[1..] == s;
    if s[0] == Quote {
      assert Doubled(s) + [Quote] + rest == [Quote, Quote] + y;
      QuotedPair(y, s[1..], rest);
    } else {
      assert Doubled(s) + [Quote] + rest == [s[0]] + y;
      QuotedOther(s[0], y, s[1..], rest);
    }
  }

  /** A quote that a field end follows closes the field. */
  lemma QuotedClose(rest: string)
    requires FieldEnd(rest)
    ensures ReadQuoted([Quote] + rest) == ("", rest)
  {
    assert ([Quote] + rest)[1..] == rest;
  }

  /** A doubled quote inside a quoted field stands for one quote. */
  lemma QuotedPair(y: string, t: string, rest: string)
    requires ReadQuoted(y) == (t, rest)
    ensures ReadQuoted([Quote, Quote] + y) == ([Quote] + t, rest)
  {
    assert ([Quote, Quote] + y)[2..] == y;
  }

  /** Any other character inside a quoted field stands for itself. */
  lemma QuotedOther(c: char, y: string, t: string, rest: string)
    requires c != Quote
    requires ReadQuoted(y) == (t, rest)
    ensures ReadQuoted([c] + y) == ([c] + t, rest)
  {
    assert ([c] + y)[1..] == y;
  }

  lemma {:induction false} ReadPlainSafe(s: string, rest: string)
    requires ',' !in s && '\n' !in s
    requires FieldEnd(rest)
    ensures ReadPlain(s + rest) == (s, rest)
    decreases |s|
  {
    if |s| == 0 {
      assert s + rest == rest;
    } else {
      ReadPlainSafe(s[1..], rest);
      assert (s + rest)[1..] == s[1..] + rest;
      assert [s[0]] + s[1..] == s;
    }
  }

  /** One escaped field reads back as its value, and reading stops just after it. */
  lemma ReadFieldEscaped(v: Option<string>, rest: string)
    requires FieldEnd(rest)
    ensures ReadField(EscapeCsv(v) + rest) == (v.GetOr(""), rest)
  {
    var s := v.GetOr("");
    if v.Some? && NeedsQuotes(s) {
      var y := Doubled(s) + [Quote] + rest;
      Associative(Doubled(s), [Quote], rest);
      assert EscapeCsv(v) + rest == [Quote] + y;
      ReadQuotedDoubled(s, rest);
      QuoteOpens(y, s, rest);
    } else {
      assert EscapeCsv(v) == s;
      ReadPlainSafe(s, rest);
      assert |s + rest| > 0 ==> (s + rest)[0] != Quote;
    }
  }

  lemma Associative(a: string, b: string, c: string)
    ensures [Quote] + a + b + c == [Quote] + (a + b + c)
  {
  }

  /** A field that starts with a quote is read as a quoted field. */
  lemma QuoteOpens(y: string, v: string, rest: string)
    requires ReadQuoted(y) == (v, rest)
    ensures ReadField([Quote] + y) == (v, rest)
  {
    assert ([Quote] + y)[1..] == y;
  }

  lemma RecordTextCons(fields: seq<Option<string>>)
    requires |fields| >= 2
    ensures RecordText(fields) == EscapeCsv(fields[0]) + "," + RecordText(fields[1..])
  {
    assert EscapeAll(fields)[1..] == EscapeAll(fields[1..]);
  }

  /** Reading a field that a comma follows goes on with the next field. */
  lemma CommaStep(e: string, more: string, v: string, vs: seq<string>, rest: string)
    requires ReadField(e + ([','] + more)) == (v, [','] + more)
    requires ReadRecord(more) == (vs, rest)
    ensures ReadRecord(e + ([','] + more)) == ([v] + vs, rest)
  {
    assert ([','] + more)[1..] == more;
  }

  /** A record of escaped fields reads back as the fields' values. */
  lemma {:induction false} ReadRecordEscaped(fields: seq<Option<string>>, rest: string)
    requires |fields| > 0
    requires |rest| == 0 || rest[0] == '\n'
    ensures ReadRecord(RecordText(fields) + rest) == (Values(fields), rest)
    decreases |fields|
  {
    if |fields| == 1 {
      RecordOne(fields, rest);
    } else {
      ReadRecordEscaped(fields[1..], rest);
      RecordStep(fields, rest);
    }
  }

  lemma RecordOne(fields: seq<Option<string>>, rest: string)
    requires |fields| == 1
    requires |rest| == 0 || rest[0] == '\n'
    ensures ReadRecord(RecordText(fields) + rest) == (Values(fields), rest)
  {
    assert RecordText(fields) == EscapeCsv(fields[0]);
    ReadFieldEscaped(fields[0], rest);
    assert Values(fields) == [fields[0].GetOr("")];
  }

  lemma RecordStep(fields: seq<Option<string>>, rest: string)
    requires |fields| >= 2
    requires ReadRecord(RecordText(fields[1..]) + rest) == (Values(fields[1..]), rest)
    ensures ReadRecord(RecordText(fields) + rest) == (Values(fields), rest)
  {
    var e := EscapeCsv(fields[0]);
    var more := RecordText(fields[1..]) + rest;
    RecordTextCons(fields);
    CommaJoin(e, RecordText(fields[1..]), rest);
    ReadFieldEscaped(fields[0], [','] + more);
    CommaStep(e, more, fields[0].GetOr(""), Values(fields[1..]), rest);
    ValuesCons(fields);
  }

  lemma CommaJoin(e: string, t: string, rest: string)
    ensures e + "," + t + rest == e + ([','] + (t + rest))
  {
  }

  lemma ValuesCons(fields: seq<Option<string>>)
    requires |fields| > 0
    ensures Values(fields) == [fields[0].GetOr("")] + Values(fields[1..])
  {
  }

  /** A document of records of escaped fields reads back as the records' values. */
  lemma {:induction false} ReadCsvEscaped(records: seq<seq<Option<string>>>)
    requires |records| > 0
    requires forall i :: 0 <= i < |records| ==> |records[i]| > 0
    ensures ReadCsv(Join(RecordTexts(records), "\n")) == AllValues(records)
    decreases |records|
  {
    var texts := RecordTexts(records);
    if |records| == 1 {
      ReadRecordEscaped(records[0], "");
      assert Join(texts, "\n") == RecordText(records[0]) + "";
    } else {
      ReadCsvEscaped(records[1..]);
      ReadCsvCons(records);
    }
  }

  /** The first record reads back, and reading goes on with the rest. */
  lemma ReadCsvCons(records: seq<seq<Option<string>>>)
    requires |records| > 1 && |records[0]| > 0
    requires ReadCsv(Join(RecordTexts(records[1..]), "\n")) == AllValues(records[1..])
    ensures ReadCsv(Join(RecordTexts(records), "\n")) == AllValues(records)
  {
    var more := Join(RecordTexts(records[1..]), "\n");
    RecordTextsCons(records);
    JoinCons(RecordTexts(records), "\n");
    ReadRecordEscaped(records[0], "\n" + more);
    ReadCsvAfter(RecordText(records[0]), more, Values(records[0]), AllValues(records[1..]));
    AllValuesCons(records);
  }

  lemma RecordTextsCons(records: seq<seq<Option<string>>>)
    requires |records| > 0
    ensures RecordTexts(records)[0] == RecordText(records[0])
    ensures RecordTexts(records)[1..] == RecordTexts(records[1..])
  {
  }

  lemma AllValuesCons(records: seq<seq<Option<string>>>)
    requires |records| > 0
    ensures AllValues(records) == [Values(records[0])] + AllValues(records[1..])
  {
  }

  lemma JoinCons(parts: seq<string>, sep: string)
    requires |parts| > 1
    ensures Join(parts, sep) == parts[0] + (sep + Join(parts[1..], sep))
  {
  }

  /** When a record reads as `v` up to a line feed, the document reads as `v` followed by the records after it. */
  lemma ReadCsvAfter(head: string, more: string, v: seq<string>, rows: seq<seq<string>>)
    requires ReadRecord(head + ("\n" + more)) == (v, "\n" + more)
    requires ReadCsv(more) == rows
    ensures ReadCsv(head + ("\n" + more)) == [v] + rows
  {
    assert ("\n" + more)[1..] == more;
  }

  /**
   Reading the export back gives the header and then, for each entry of the
   user in list order, its six values: id, title, content, amount (empty
   when missing), the tags joined with `;`, and the creation time.
   */
  lemma ExportReadsBack(store: seq<Entry>, user: UserId, showDate: int -> string)
    ensures var rows := ReadCsv(ExportCsv(store, user, showDate));
      var entries := List(store, user);
      && |rows| == |entries| + 1
      && rows[0] == ["id", "title", "content", "numericValue", "tags", "createdAt"]
      && (forall i :: 0 < i < |rows| ==> rows[i] == Values(RowFields(entries[i - 1], showDate)))
  {
    var records := ExportRecords(store, user, showDate);
    var entries := List(store, user);
    assert ExportCsv(store, user, showDate) == Join(RecordTexts(records), "\n");
    NonEmptyRecords(records, entries, showDate);
    ReadCsvEscaped(records);
    RecordValues(records, entries, showDate, AllValues(records));
  }

  lemma RecordValues(records: seq<seq<Option<string>>>, entries: seq<Entry>, showDate: int -> string, rows: seq<seq<string>>)
    requires |records| == |entries| + 1
    requires records[0] == HeaderFields
    requires forall i :: 0 < i < |records| ==> records[i] == RowFields(entries[i - 1], showDate)
    requires rows == AllValues(records)
    ensures |rows| == |entries| + 1
    ensures rows[0] == ["id", "title", "content", "numericValue", "tags", "createdAt"]
    ensures forall i :: 0 < i < |rows| ==> rows[i] == Values(RowFields(entries[i - 1], showDate))
  {
    HeaderValues();
  }

  lemma NonEmptyRecords(records: seq<seq<Option<string>>>, entries: seq<Entry>, showDate: int -> string)
    requires |records| == |entries| + 1
    requires records[0] == HeaderFields
    requires forall i :: 0 < i < |records| ==> records[i] == RowFields(entries[i - 1], showDate)
    ensures forall i :: 0 <= i < |records| ==> |records[i]| > 0
  {
    forall i | 0 <= i < |records|
      ensures |records[i]| > 0
    {
      if i > 0 {
        assert records[i] == RowFields(entries[i - 1], showDate);
      }
    }
  }

  lemma HeaderValues()
    ensures Values(HeaderFields) == ["id", "title", "content", "numericValue", "tags", "createdAt"]
  {
  }

  /** The tags field gives the tags back when there are any and none holds a `;`. */
  lemma TagsReadBack(e: Entry, showDate: int -> string)
    requires |e.tags| > 0
    requires forall i :: 0 <= i < |e.tags| ==> ';' !in e.tags[i]
    ensures Split(Values(RowFields(e, showDate))[4], ';') == e.tags
  {
    SplitJoin(e.tags, ';');
  }
}
