# Finarth core, modelled in Dafny

Finarth is a personal-finance application. A Node/Express back end stores a
user's entries (title, content, an amount, tags, a creation time). It lists,
reads, updates, deletes and exports them as CSV. It also analyses them into a
day-by-day series, tag groups and a short text summary, and stores each
analysis as a snapshot. A React front end keeps a local account list and
session, and does some money arithmetic of its own.

This project models that core as pure functions over immutable values and
proves properties about them:

- Stores are sequences: entries, snapshots, accounts.
- Each request handler is a function from the old store to a reply and the
  new store.
- Amounts are integer-valued; fractional amounts are not modelled.
- A day label is a parameter `day: int -> string` of the creation time. The
  calendar is not modelled.

Modules, in dependency order:

| module | file | what it holds |
|---|---|---|
| `Base` | base.dfy | `Option`, integer sums |
| `Text` | text.dfy | ASCII case mapping, `trim`, `split`/`join`, integer rendering and parsing, `toFixed(2)` |
| `Order` | order.dfy | JavaScript string order, a stable insertion sort by an integer rank |
| `Model` | model.dfy | `Entry`, `Snapshot`, `DayPoint`, the two missing-amount policies, owner filtering |
| `Series` | series.dfy | the day-bucketed series (`dailySeries`, `byDayMap`, `simpleAnalyze`'s `byDay`) |
| `Tags` | tags.dfy | tag grouping (`topTags`, `byTagMap`), and the grouping as written, which loses inherited keys |
| `Ranking` | ranking.dfy | `Object.values` enumeration order, the count sort, `slice(0, n)` |
| `Narrative` | narrative.dfy | the summary sentences |
| `Analysis` | analysis.dfy | `detailedAnalyze`, `runAnalysis`, `getLatest`, `powerbiDataset` over a snapshot store |
| `Aggregate` | aggregate.dfy | `aggregateForUser`: the intended result and the result as written |
| `Entries` | entries.dfy | field defaults, tag normalisation, owner-scoped create/list/get/update/delete |
| `Csv` | csv.dfy | `escapeCsv`, the export document, and an RFC 4180 reader used to state the round trip |
| `Auth` | auth.dfy | the local account/session state machine of the front end |
| `Finance` | finance.dfy | currency symbol, imported and typed-text transactions and their summaries, the received/given split, loans |

JavaScript behaviour that the model writes out:

- `||` defaults: `0` and `''` count as missing.
- Object-as-map key enumeration: array-index keys first, in ascending numeric
  order, then the other keys in insertion order.
- The stable `Array.prototype.sort`.
- `toFixed(2)` on the exact quotient.
- `split`, `join` and `trim`.
- The spread merge `{ ...a, ...b }`.
- `find` and `findIndex` as first match.

## Model

| member | source | states |
|---|---|---|
| Text.Trim | backend/controllers/dataController.js:12 | `trim` keeps a slice of its input with only white space around it, and the result neither starts nor ends with white space |
| Text.JoinSplit | backend/controllers/dataController.js:12 | splitting on a character loses nothing: joining the pieces with it gives the string back |
| Text.SplitJoin | backend/controllers/exportController.js:23 | splitting undoes joining, for pieces without the separator |
| Text.ParseShowInt | backend/controllers/aiAnalysisController.js:37 | `${n}` of an integer parses back to the integer |
| Text.ToFixed2 | backend/controllers/aiAnalysisController.js:37 | `toFixed(2)` gives at least one integer digit, a point and two decimals, with a minus sign exactly for a negative quotient |
| Text.ToFixed2Accurate | backend/controllers/aiAnalysisController.js:32-37 | the digits of `toFixed(2)` are the quotient times 100, rounded to nearest with halves away from zero |
| Text.LowerIdempotent | backend/controllers/aiAnalysisController.js:9 | lower-casing a key again changes nothing |
| Order.StrLtTotal | backend/controllers/aiAnalysisController.js:24 | the default `sort()` order of strings is total |
| Order.StrLtTransitive | backend/controllers/aiAnalysisController.js:24 | and transitive |
| Order.SortByRank | backend/controllers/aiAnalysisController.js:15 | the sort returns a permutation of its input, ordered by rank |
| Order.SortByRankStable | backend/controllers/aiAnalysisController.js:15 | the sort is stable: elements of equal rank keep their input order |
| Model.OwnedBy | backend/controllers/aiAnalysisController.js:29 | `find({ user })` holds exactly the stored entries of that user |
| Model.OwnedByAppend | backend/controllers/dataController.js:24 | owner filtering distributes over concatenation of stores |
| Model.AmountOf | backend/controllers/aiController.js:9-10 | read with a default of 0, a missing amount is 0; read with a default of 1, a missing or zero amount is 1 and any other amount is itself |
| Series.AddToDayContents | backend/controllers/aiAnalysisController.js:22 | one step of adding `v` to a day's bucket adds the day, adds `v` to that day's value and to the total, and changes nothing else |
| Series.DailySeries | backend/controllers/aiAnalysisController.js:18-25 | the series is in ascending day order, has a point exactly for each day with an entry, each point holds that day's total, and the points add up to the total amount |
| Series.DailySeriesSpec | backend/controllers/aiAnalysisController.js:21-24 | the labels are strictly ascending and unique, one per day with an entry, and each value is that day's sum |
| Tags.GroupTags | backend/controllers/aiAnalysisController.js:5-14 | there are no more groups than occurrences, and every group has a non-empty tag and a positive count |
| Tags.GroupTagsAsWritten | backend/controllers/aiAnalysisController.js:5-14 | as written, the same holds, and no group has the key "constructor" or "\_\_proto\_\_" |
| Tags.LowerSpellingSameKey | backend/controllers/aiAnalysisController.js:9-10 | a tag and its lower-cased spelling are counted under exactly the same keys, so the grouping ignores letter case |
| Tags.GroupTagsCorrect | backend/controllers/aiAnalysisController.js:4-14 | the groups have unique lower-cased keys, one per key of a non-empty tag, in order of first appearance; each keeps the first spelling, the count of occurrences and the sum of their entries' amounts |
| Tags.TagSumIsWeighted | backend/controllers/aiAnalysisController.js:11-12 | a group's sum counts each entry's full amount once per tag it carries under that key, with no apportioning |
| Tags.EntryTagSum | backend/controllers/aiAnalysisController.js:12 | within one entry, a key's sum is its count times the entry's amount |
| Tags.AsWrittenDropsInherited | backend/controllers/aiAnalysisController.js:10 | as written, the grouping is the intended one over the occurrences whose key is not an inherited property name |
| Tags.AsWrittenGroups | backend/controllers/aggregateController.js:21 | as written, no group ever has the key "constructor" or "\_\_proto\_\_" |
| Tags.OwnKeyedKeys | backend/controllers/aiAnalysisController.js:9-10 | the keys that keep a group as written are exactly the intended keys less "constructor" and "\_\_proto\_\_" |
| Tags.OwnKeyedCounts | backend/controllers/aiAnalysisController.js:10-12 | dropping the inherited keys leaves the count and sum of every other key unchanged |
| Tags.InheritedKeyLost | backend/controllers/aiAnalysisController.js:8-13 | one entry tagged "Constructor": the intended grouping has its group, the code as written has none |
| Ranking.SplitByKeyKind | backend/controllers/aiAnalysisController.js:15 | index-keyed and named groups together are all the groups |
| Ranking.EnumerationOrderSpec | backend/controllers/aiAnalysisController.js:15 | `Object.values` lists a permutation of the groups: index keys first in ascending numeric order, then the others in insertion order |
| Ranking.RankByCount | backend/controllers/aggregateController.js:29 | the count sort returns a permutation of the groups in non-increasing count order |
| Ranking.RankByCountStable | backend/controllers/aiAnalysisController.js:15 | groups of equal count keep their enumeration order |
| Ranking.Prefix | backend/controllers/aiAnalysisController.js:15 | `slice(0, n)` holds the first `min(n, length)` elements |
| Ranking.TopTags | backend/controllers/aiAnalysisController.js:4-16 | `topTags(entries, n)` returns at most `n` groups |
| Ranking.TopTagsSpec | backend/controllers/aiAnalysisController.js:4-16 | `topTags(entries, n)` has `min(n, distinct keys other than "constructor" and "\_\_proto\_\_")` groups, none with an inherited key, each a correct group whose count and sum are those of all occurrences of its key, in non-increasing count order, and every group left out counts no more than every group kept |
| Ranking.RankingSpec | backend/controllers/aggregateController.js:18-29 | the uncapped ranking of the `{}`-keyed grouping has one correct group per distinct key other than "constructor" and "\_\_proto\_\_", with the count and sum of all occurrences of that key |
| Narrative.AverageTextSpec | backend/controllers/aiAnalysisController.js:32-37 | the average text is "0.00" with no entries, and otherwise the rounded hundredths of sum over count, signed as the sum |
| Narrative.SummaryParts | backend/controllers/aiAnalysisController.js:36-39 | there are 1 to 3 parts: always the count sentence, then one part for tags if there are any and one for the span if the series is not empty |
| Narrative.DetailedSummaryShape | backend/controllers/aiAnalysisController.js:36-41 | the summary is the count sentence, followed by each optional sentence after a single space |
| Narrative.CountSentenceReadBack | backend/controllers/aiAnalysisController.js:37 | the count and the total can be read back from the count sentence at fixed offsets |
| Narrative.SpanIsEarliestToLatest | backend/controllers/aiAnalysisController.js:39 | the span sentence names the earliest and the latest day with an entry |
| Narrative.SimpleSummaryReadBack | backend/controllers/aiController.js:13 | the one-sentence summary reads back the count and the total and ends with a point |
| Analysis.LatestIndex | backend/controllers/aiController.js:25 | `findOne().sort({ createdAt: -1 })` finds none exactly when the user has no snapshot, and otherwise one of the user's with the greatest time, the first in store order among ties |
| Analysis.LatestAfterAppend | backend/controllers/aiController.js:20-25 | a snapshot stored later than all of the user's becomes the latest |
| Analysis.DetailedAnalyze | backend/controllers/aiAnalysisController.js:27-49 | the report stores exactly one snapshot holding the report's summary and series, the reply carries its id, at most 10 tags and an ascending series |
| Analysis.DetailedAnalyzeSpec | backend/controllers/aiAnalysisController.js:29-41 | the summary is the count sentence plus the optional tags and span sentences; tags are present iff some entry has a non-empty tag whose key is not "constructor" or "\_\_proto\_\_"; one series point per day with its sum; every tag group is correct and has no inherited key |
| Analysis.RunAnalysis | backend/controllers/aiController.js:17-21 | `runAnalysis` appends exactly the snapshot it returns, owned by the user and stamped with the time |
| Analysis.RunAnalysisSpec | backend/controllers/aiController.js:4-14 | the summary names the entry count and the series total; one point per day, each the day's sum with missing or zero amounts counted as 1 |
| Analysis.GetLatest | backend/controllers/aiController.js:24-28 | the reply is an empty series with a `null` summary exactly when the user has no snapshot; otherwise it is the series and summary of one of the user's snapshots with the greatest `createdAt` |
| Analysis.PowerBiDataset | backend/controllers/powerbiController.js:3-10 | with no snapshot of the user the series is empty and the summary `''`; otherwise both come from one of the user's snapshots with the greatest `createdAt`; the embed settings are passed through, unset or empty as `null` |
| Analysis.SettingOrNull | backend/controllers/powerbiController.js:8-9 | an unset or empty setting is `null`; any other is passed through |
| Analysis.PowerBiMatchesLatest | backend/controllers/powerbiController.js:5-7 | the Power BI view has the series of the latest snapshot, and its summary with a missing one read as `''` |
| Analysis.DetailedThenLatest | backend/controllers/aiAnalysisController.js:43-49 | after a detailed analysis, `getLatest` and the Power BI view give back the reported series and summary |
| Analysis.RunThenLatest | backend/controllers/aiController.js:19-27 | after `runAnalysis`, `getLatest` gives back the stored series and summary |
| Analysis.RunIsolated | backend/controllers/aiController.js:20-25 | an analysis by one user leaves every other user's latest view unchanged |
| Aggregate.Average | backend/controllers/aggregateController.js:27 | the average is 0 with no entries, and otherwise times the count gives the sum |
| Aggregate.AggregateSums | backend/controllers/aggregateController.js:7-28 | the intended aggregates: the entry count, the average of the sum, a strictly ascending day series adding up to the sum |
| Aggregate.Aggregate | backend/controllers/aggregateController.js:3-31 | with the statement boundary restored the handler always answers, and `totalEntries` is the number of the user's entries |
| Aggregate.AggregateAsWritten | backend/controllers/aggregateController.js:12-35 | as written, the handler fails exactly when the user has an entry, with 500 "Aggregation failed", and otherwise answers zero entries, a zero sum and empty series and ranking |
| Aggregate.AggregateTags | backend/controllers/aggregateController.js:18-29 | the tag ranking holds one correct group per distinct key other than "constructor" and "\_\_proto\_\_", with the count and sum of all occurrences of that key, in non-increasing count order |
| Aggregate.AggregateAgreesWithDetailed | backend/controllers/aggregateController.js:28-29 | the aggregate day series is the detailed analysis's, and the detailed top tags are its first ten groups |
| Aggregate.AsWrittenOnlyWithoutEntries | backend/controllers/aggregateController.js:16-35 | as written, the handler answers the intended zeros for a user without entries and 500 "Aggregation failed" for every other user |
| Aggregate.AsWrittenFailsOnOneEntry | backend/controllers/aggregateController.js:16-18 | one entry is enough for the handler as written to fail where the intended one answers |
| Entries.TagTextPieces | backend/controllers/dataController.js:12 | a non-empty tag string gives one trimmed piece per comma plus one, empty pieces kept, none holding a comma |
| Entries.TagTextOfJoin | backend/controllers/dataController.js:12 | sending trimmed comma-free tags as one comma-joined string gives the same tags as sending the array |
| Entries.FindOwned | backend/controllers/dataController.js:35 | `findOne({ _id, user })` finds none exactly when no entry has both that id and that owner, and otherwise the first that has |
| Entries.Create | backend/controllers/dataController.js:4-14 | the new entry is appended, belongs to the requesting user, and holds the request's fields with `''`, `''` and 0 as defaults |
| Entries.List | backend/controllers/dataController.js:24 | the list is a permutation of the user's entries, newest first |
| Entries.ListSpec | backend/controllers/dataController.js:24 | the list is a permutation of the user's entries, holds exactly them, newest first, with equal times in store order |
| Entries.CreateThenGet | backend/controllers/dataController.js:7-37 | with a fresh id, ids stay unique and `get` returns the created entry, which is listed |
| Entries.Get | backend/controllers/dataController.js:35-37 | `get` fails iff no stored entry has both that id and that owner, with 404 "Entry not found"; otherwise it returns a stored entry with that id and owner |
| Entries.Update | backend/controllers/dataController.js:60 | a failed update is 404 "Entry not found or unauthorized" and leaves the store unchanged |
| Entries.Delete | backend/controllers/dataController.js:72 | a failed delete is 404 "Entry not found or unauthorized" and leaves the store unchanged |
| Entries.ForeignEntryInvisible | backend/controllers/dataController.js:35-72 | another user's entry changes no reply of get, update or delete: it is the same as a missing entry |
| Entries.UpdateSpec | backend/controllers/dataController.js:48-61 | update fails iff no entry matches both id and owner; otherwise exactly the first match gets the request's fields, keeps its id, owner and time, is the reply, and no other entry changes |
| Entries.DeleteSpec | backend/controllers/dataController.js:71-73 | delete fails iff nothing matches; otherwise it removes exactly the first match, replies with its id, and with unique ids leaves that id absent |
| Entries.UpdateKeepsIds | backend/controllers/dataController.js:48-58 | update keeps ids unique |
| Entries.OtherUsersUntouched | backend/controllers/dataController.js:8-71 | create, update and delete by one user leave every other user's entries unchanged |
| Csv.EscapeCsv | backend/controllers/exportController.js:3-10 | the field is empty iff the value is missing or empty; a safe string is unchanged; a string with a quote, comma or line feed is wrapped in quotes, with its length grown by two plus one per quote |
| Csv.Doubled | backend/controllers/exportController.js:7 | doubling the quotes lengthens the string by its number of quotes |
| Csv.ReadFieldEscaped | backend/controllers/exportController.js:3-10 | an RFC 4180 reader reads any escaped field back as its value and stops right after it |
| Csv.ReadQuotedDoubled | backend/controllers/exportController.js:6-7 | unquoting a quoted field with its quotes doubled gives the string back |
| Csv.ReadPlainSafe | backend/controllers/exportController.js:9 | a safe string read as an unquoted field is itself |
| Csv.ReadRecordEscaped | backend/controllers/exportController.js:18-26 | a record of escaped fields joined by commas reads back as the fields' values |
| Csv.ReadCsvEscaped | backend/controllers/exportController.js:16-28 | records joined by line feeds read back record by record |
| Csv.ExportRecords | backend/controllers/exportController.js:14-27 | the export has the header record, then one record of six fields per entry of the user, newest first |
| Csv.ExportCsv | backend/controllers/exportController.js:14-28 | the document opens with the header record; it is only the header exactly when the user has no entry, and otherwise a line feed follows it |
| Csv.ExportReadsBack | backend/controllers/exportController.js:14-28 | the exported document reads back as the header `id,title,content,numericValue,tags,createdAt` followed by the values of every entry's record, in list order |
| Csv.TagsReadBack | backend/controllers/exportController.js:23 | the tags field gives the tags back when there are some and none holds a `;` |
| Auth.FindEmail | frontend/src/contexts/AuthContext.js:48 | `findIndex` by email finds the first account with the email, or none exactly when no account has it |
| Auth.FindLogin | frontend/src/contexts/AuthContext.js:90 | `find` by email and password finds the first matching account, or none exactly when none matches |
| Auth.Signup | frontend/src/contexts/AuthContext.js:67-86 | a taken email fails with nothing changed; otherwise exactly one account is appended and the session, with no password, is that account's |
| Auth.Login | frontend/src/contexts/AuthContext.js:88-101 | login succeeds iff some account has that email and password; the session, with no password, is the first such account's; a failure changes nothing |
| Auth.Logout | frontend/src/contexts/AuthContext.js:103-106 | logout removes the session and keeps the accounts |
| Auth.Merge | frontend/src/contexts/AuthContext.js:52 | in `{ ...account, ...updates }` a field present in the update wins, and the id is kept |
| Auth.UpdateProfileFallback | frontend/src/contexts/AuthContext.js:43-60 | the fallback fails with no session or no matching account; otherwise it merges the update into the first account with the session's email only, and the session, with no password, is the merged account's |
| Auth.TransitionsKeepUnique | frontend/src/contexts/AuthContext.js:70-78 | signup, login and logout keep account emails unique |
| Auth.SignupThenLogin | frontend/src/contexts/AuthContext.js:77-99 | after a signup, logging in with the same email and password gives the same session |
| Auth.FallbackBreaksUnique | frontend/src/contexts/AuthContext.js:52-54 | the fallback as written can give two accounts the same email |
| Auth.FallbackUpdatesWrongAccount | frontend/src/contexts/AuthContext.js:48-53 | after that, the next update lands on the other account |
| Auth.UpdateProfileChecked | frontend/src/contexts/AuthContext.js:43-60 | the corrected update changes nothing when it fails, acts as the fallback when it succeeds, and then no other account has the session's email |
| Auth.CheckedUpdateKeepsUnique | frontend/src/contexts/AuthContext.js:43-60 | the corrected update refuses an email taken by another account, keeps emails unique, and otherwise acts as the fallback |
| Finance.SymbolFromCode | frontend/src/App.js:21-29 | a known code in any case gives its symbol; another non-empty code is returned as it is; a missing or empty one gives `$` |
| Finance.SymbolIgnoresCase | frontend/src/App.js:22-26 | a known code gives the same symbol in lower, upper or mixed case |
| Finance.ImportTransactions | frontend/src/App.js:162-168 | one transaction per number; income iff it is the first number and positive; every other amount is minus the number's magnitude |
| Finance.ImportSummary | frontend/src/App.js:171-173 | the summary's net, computed as income less expenses, is the sum of all amounts; income and expenses are not negative |
| Finance.ImportSummarySpec | frontend/src/App.js:171-173 | the import's income is the first number if positive, the expenses are the magnitudes of the others, the net is their difference and equals the sum of the amounts, the count is the number of numbers |
| Finance.TextTransactions | frontend/src/App.js:197-203 | one transaction per number, whose amount is the number, income iff it is positive |
| Finance.TextSummary | frontend/src/App.js:205-212 | the text summary, whose net is the sum of all amounts, equals the import summary of the same transactions |
| Finance.TextSummarySpec | frontend/src/App.js:205-212 | the text summary's income is the sum of the positive numbers, its expenses the magnitudes of the negative ones, and its net the sum of all numbers, which is income less expenses |
| Finance.NetIsIncomeLessExpenses | frontend/src/App.js:208-210 | the sum of the amounts is the positive total less the negative magnitudes |
| Finance.HandleDataExtracted | frontend/src/App.js:1248-1274 | without a transaction list nothing changes; otherwise both old lists are kept as suffixes, and the new items number as many as the transactions |
| Finance.HandleDataExtractedSpec | frontend/src/App.js:1251-1273 | the new received items are exactly the positive transactions and the new given items exactly the others, as magnitudes; they carry the income and expense totals |
| Finance.SplitSpec | frontend/src/App.js:1251-1269 | the split keeps every transaction exactly once, and each side carries its total |
| Finance.SplitAppend | frontend/src/App.js:1251-1269 | each side of the split distributes over concatenation, so relative order is kept |
| Finance.TotalOutstanding | frontend/src/App.js:860 | the outstanding total is 0 when every loan is paid, and not negative when no principal is |
| Finance.TotalOutstandingAppend | frontend/src/App.js:860 | the outstanding total of two loan lists is the sum of theirs |
| Finance.MarkPaid | frontend/src/App.js:860 | marking a loan paid lowers the outstanding total by exactly that loan's principal, if it was unpaid |

## Left out

- I/O and plumbing:
  - Express, Mongoose and React.
  - `localStorage` reads and writes.
  - The `catch` blocks that answer 500 on a database error, and the unhandled rejections of `runAnalysis` and `getLatest`.
  - Stores are plain values.
- The server branch of `updateProfile` (frontend/src/contexts/AuthContext.js:21-40) calls the network; only the local fallback is modelled.
- Password hashing and tokens: the owner of a request is given.
- The calendar: `new Date(createdAt).toISOString().slice(0, 10)` and the `createdAt` column of the CSV are parameters (`day`, `showDate`).
- Floating point: amounts are integers.
  - Averages are exact rationals, and `toFixed(2)` rounds the exact quotient; it does not round a double.
  - `${n}` is plain decimal, never an exponent form.
  - `toFixed(2)` of a number whose magnitude is at least 10^21 gives exponent form in JavaScript; the model always writes plain digits.
  - `formatCurrency` is not modelled.
- `toLowerCase` and `toUpperCase` are ASCII only. Non-ASCII case mappings (for example `İ`) are not modelled. `trim` is not limited this way: it strips the full white-space and line-terminator set of ECMAScript.
- Tags inside an array are strings; `null` or non-string array elements are not modelled.
- Mongo breaks ties in `sort({ createdAt: -1 })` in an unspecified order; the model keeps store order (a stable sort) and proves that about ties.
- Grouping tags in `{}` never stores under the key "constructor" or "\_\_proto\_\_": `map[key]` already holds the inherited `Object` function or `Object.prototype`, so no group is created and the increments write `NaN` `count` and `sum` properties onto that object. The model has the occurrence produce no group; the write onto the global object is not modelled.
- `extractNumbersFromText` and the file parsers (mammoth, XLSX) are not modelled; their numbers are a parameter.
- In `handleDataExtracted`, the generated ids and timestamps and the `t.source`/`t.recipient` fallbacks are left out; today's date is a parameter.
- Environment settings of the Power BI handler are parameters.
- Csv.ExportReadsBack: the header is stated through the reader, not as the literal line; the reader follows RFC 4180, section 2, rules 5 to 7, with `\n` as the record separator.

## Findings

| source | as written | input that shows it | evidently intended | confidence | as-written member | corrected member |
|---|---|---|---|---|---|---|
| backend/controllers/aggregateController.js:16-18 | no semicolon ends line 16 and line 18 starts with `(`, so the two lines parse as one expression that calls `num(...)`, which throws because `num` is a number | a user with one entry: the reply is 500 "Aggregation failed" | the count, sum, average, day series and tag ranking of the user's entries | high; not executed | Aggregate.AsWrittenOnlyWithoutEntries | Aggregate.AggregateSums |
| backend/controllers/aiAnalysisController.js:10 | `if (!map[key])` on a plain `{}` reads inherited properties, so keys "constructor" and "\_\_proto\_\_" never start a group and their tags are silently dropped (also aggregateController.js:21) | one entry tagged "Constructor" | one group per lower-cased tag; the endpoint models keep the grouping as written | high; not executed | Tags.InheritedKeyLost | Tags.GroupTagsCorrect |
| frontend/src/contexts/AuthContext.js:52-54 | the fallback update merges a new email without checking that another account has it | accounts a@x and b@x, signed in as b@x, update the email to a@x; the next update changes the first account | an update to an email taken by another account is refused, as signup refuses it | medium; not executed | Auth.FallbackBreaksUnique | Auth.CheckedUpdateKeepsUnique |
