# gmail_analyzer core, modelled in Dafny

The modelled program is a Gmail metadata analyser. It lists every message of a mailbox
page by page and fetches each message's headers in batches of 250 `get` requests. A
callback files each answer into one of two queues: a record with `id`, `labels`, `from`
and `date` on success, and the failed request's uri otherwise. The analyser then ranks
the twenty most frequent senders. Dates are cleaned and parsed by `helpers.py`:

- `remove_dup_timezone` drops a trailing `(UTC)`-style comment and a leading
  day-of-week;
- `convert_date` tries three `strptime` formats;
- the `reduce_to_*` functions print parts of the result with `strftime`.

The project has five files:

- `wrappers.dfy`: `Option`, `Result` and the two Python exceptions that can escape,
  `ValueError` and `KeyError`.
- `decimal.dfy`: digit strings, zero-padded printing (`%Y`, `%m`, `%H`, ...) and the one-,
  two- and four-digit fields `strptime` reads.
- `helpers.dfy`:
  - module `Helpers` is `helpers.py`: the two regular expressions, the restricted
    `strptime` grammar, the `strftime` reductions and `chunks`;
  - module `DateHeaders` prints RFC 5322 (section 3.3) date-times and proves that
    `convert_date` reads them back.
- `processor.dfy`: `processor.py`. `Processor` is a class whose two queues are `seq`
  fields that the methods append to. The Gmail service is replaced by its answers: the
  list pages, and one reply per `get` request.
- `analyzer.dfy`: `analyzer.py`, covering its copy of `chunks` and `_analyze_from` as a
  pipeline of pivot, where, order_by and limit over the `fields/from` column.

## Model

| member | source | states |
|---|---|---|
| Processing.LastPage | processor.py:44-53 | the cursor loop stops at the first page without `nextPageToken`; every earlier page has one |
| Processing.GatheredMeaning | processor.py:41-53 | the first n pages gather without error iff every page after the first has `messages`, and then yield all their messages in page order |
| Processing.ListAllMeaning | processor.py:34-53 | get_messages succeeds iff the first page has `resultSizeEstimate` and every later page up to the last has `messages`; then it returns every page's messages in order, with the first page allowed to have none; otherwise `KeyError('resultSizeEstimate')` or `KeyError('messages')` |
| Processing.ListAllIgnoresValues | processor.py:36-44 | the estimate's value and the token values change neither the result nor the number of pages read; only which keys are present matters |
| Processing.ListAllExample | processor.py:41-53 | three pages whose first has no `messages` give `[a, b, c]`; a later page without `messages` gives `KeyError('messages')` |
| Processing.Processor.GetMessages | processor.py:20-59 | the loop returns exactly the listing the pages determine; it makes one request per page read, the first without a token and each later one with the token of the page before; the estimate error stops after one request, and the messages error stops at the first later page without `messages` |
| Processing.FirstHeader | processor.py:68-73 | `None` iff no header has exactly that name; otherwise the value of the first header with that name |
| Processing.FirstHeaderExample | processor.py:68-73 | names match case-sensitively (`date` is not `Date`), and the first `Date` wins |
| Processing.Processor.constructor | processor.py:14-18 | both queues start empty |
| Processing.Processor.ProcessMessage | processor.py:61-81 | a failed request appends its uri to `failedMessagesQueue` only; a fetched message appends one record to `messagesQueue` only, with id, labels and the first `From`/`Date` values |
| Processing.Processor.ExecuteBatch | processor.py:110-119 | running one callback per reply, in order, appends the fetched records and the failed uris of those replies, in order |
| Processing.Processor.AddRequests | processor.py:112-117 | a batch requests the ids of its slice, in order |
| Processing.IdsAt | processor.py:112-113 | the i-th requested id is the id of the i-th list entry |
| Processing.Processor.GetMetadata | processor.py:83-122 | ceil(n/250) batches of 1 to 250 requests, all full but the last; together they request every id once, in input order; the bar advances by n; the queues grow by the records and uris of all replies, in order |
| Processing.CallbacksPartition | processor.py:61-81 | every reply lands in exactly one queue: the two grow by n in total, and `messagesQueue` by the number of successful replies |
| Helpers.FindComment | helpers.py:7 | the leftmost position at which `\s+\(.{1,20}\)$` matches, or none |
| Helpers.StripComment | helpers.py:7 | no match leaves the string unchanged; otherwise the leftmost match is cut out, keeping a final newline |
| Helpers.CommentNeedsParen | helpers.py:7 | a string that does not end in `)` (before an optional final newline) is not changed by the first substitution |
| Helpers.WeekdayComma | helpers.py:9 | the greedy `.{1,4}` takes the longest of 4, 3, 2, 1 characters that a comma and whitespace follow, with no newline before |
| Helpers.StripWeekday | helpers.py:9 | no match leaves the string unchanged; otherwise the prefix and all the whitespace after its comma are removed |
| Helpers.RemoveDupTimezone | helpers.py:5-11 | the result is never longer than the input |
| Helpers.RemoveDupTimezoneKeepsSlice | helpers.py:5-11 | without a final newline, the result is one contiguous piece of the input |
| Helpers.DayField | helpers.py:19 | `%d` reads a day below 100 and consumes input; on a leading digit it reads one or two digits like `%H`, `%M` and `%S` |
| Helpers.SpacedDayRead | helpers.py:19 | `%d` also reads a space and a digit `1`-`9` as that day, leaving the rest |
| Helpers.ConvertDate | helpers.py:13-26 | a success is a valid `datetime`; a failure is `ValueError`, never `None`; the value is aware iff the first format (`%z`) accepts the cleaned string |
| Helpers.IsoDate | helpers.py:29 | `%Y-%m-%d` prints the year, month and day as 4, 2 and 2 digits |
| Helpers.ClockTime | helpers.py:32 | `%H:%M:%S` prints hour, minute and second as two digits each |
| Helpers.ReduceToDate | helpers.py:28-29 | raises iff convert_date does; otherwise the zero-padded `YYYY-MM-DD` of that parse |
| Helpers.ReduceToDatetime | helpers.py:31-32 | raises iff convert_date does; otherwise `YYYY-MM-DD HH:MM:SS` of that parse |
| Helpers.ReduceToTime | helpers.py:34-35 | raises iff convert_date does; otherwise two digits whose value is the parsed hour, `00` to `23` |
| Helpers.ReduceToYear | helpers.py:37-38 | raises iff convert_date does; otherwise the parsed year, 1 to 9999 |
| Helpers.Chunks | helpers.py:40-42 | for n > 0: the chunks concatenate to the list; there are ceil(len/n) of them, none for an empty list; all but the last have length n and the last has 1 to n |
| DateHeaders.PlainIsClean | helpers.py:5-11 | a date printed without comment or day-of-week is left unchanged by remove_dup_timezone |
| DateHeaders.ConvertDateRoundTrip | helpers.py:13-26 | a printed aware date converts back through the `%z` format and a printed naive one through the naive format, to the same value |
| DateHeaders.ConvertDateZoneName | helpers.py:21-22 | a date followed by a zone name that `%Z` accepts (`UTC`, `GMT`) converts to the same date, without an offset |
| DateHeaders.StripCommentSuffix | helpers.py:7 | a trailing ` (comment)` of 1 to 20 characters is cut off, and nothing before it |
| DateHeaders.StripWeekdayPrefix | helpers.py:9 | a leading day-of-week of 1 to 4 word characters is cut off with its `, ` |
| DateHeaders.RemoveDupTimezoneOfHeader | helpers.py:5-11 | `Tue, <date> (UTC)` is reduced to `<date>` |
| DateHeaders.RemoveDupTimezoneWithoutComment | helpers.py:5-11 | `Tue, <date>` without the comment is reduced to the same `<date>` |
| DateHeaders.ConvertDateOfHeader | helpers.py:13-26 | a whole header with day-of-week and zone comment converts to the value printed in it |
| DateHeaders.RemoveDupTimezoneExample | helpers.py:6-9 | the example `Tue, 24 Dec 2019 08:25:25 +0000 (UTC)`, with or without ` (UTC)`, becomes `24 Dec 2019 08:25:25 +0000`, and converts to 2019-12-24 08:25:25 at UTC+00:00 |
| Analysis.ChunksCopyAgrees | analyzer.py:22-24 | the copy of `chunks` in analyzer.py yields exactly what the helpers.py version yields |
| Analysis.Strip | analyzer.py:189 | `str.strip()` as agate's text cast applies it: the result is a piece of the input with only whitespace removed around it; it is empty iff the input is all whitespace, and otherwise starts and ends with a non-space |
| Analysis.StripAround | analyzer.py:189 | stripping a text padded with whitespace gives back exactly that text |
| Analysis.CastText | analyzer.py:189-200 | a `from` value reads as `None` iff it is missing or strips and lower-cases to one of `''`, `na`, `n/a`, `none`, `null`, `.`; any other value is kept unchanged |
| Analysis.CastTextPadded | analyzer.py:189-200 | `None` with any whitespace around it reads as `None` |
| Analysis.CastTextUpper | analyzer.py:189-200 | `N/A` reads as `None` |
| Analysis.CastTextKeeps | analyzer.py:189-200 | `null <n@x>` is a sender, kept as it is |
| Analysis.Senders | analyzer.py:189 | the `fields/from` column: one cast value per captured record, in queue order |
| Analysis.FirstIndex | analyzer.py:199 | the first position of a value, or the length when it is absent |
| Analysis.FirstSeen | analyzer.py:199 | the pivot's groups: each value of the column once, in order of first appearance |
| Analysis.Pivot | analyzer.py:199 | one row per distinct `fields/from` value, `None` included, in first-seen order, counting the records that hold it |
| Analysis.Where | analyzer.py:200 | exactly the rows whose sender is not `None` |
| Analysis.WhereKeepsOrder | analyzer.py:200 | filtering keeps the first-seen order |
| Analysis.Insert | analyzer.py:201 | inserting adds the row and changes nothing else in the multiset |
| Analysis.OrderByCount | analyzer.py:201 | the sort is a permutation of its input |
| Analysis.InsertRanked | analyzer.py:201 | inserting a row seen later than all others keeps the ranking |
| Analysis.OrderByCountRanked | analyzer.py:201 | sorting rows in first-seen order gives counts that never increase, with ties kept in first-seen order |
| Analysis.TopRowsRanked | analyzer.py:199-202 | at most 20 rows are kept; they are ranked, and each is a non-`None` sender with its record count |
| Analysis.TopRowsComplete | analyzer.py:201-202 | a sender that is left out means 20 rows are kept, each with a higher count, or an equal count and an earlier first appearance |
| Analysis.Report | analyzer.py:197-212 | on a table with a `fields/from` column, `data_keys` and `data_count` have equal length, at most 20, and each `data_count` entry is a one-element list |
| Analysis.AnalyzeFrom | analyzer.py:189-212 | raises `KeyError('fields/from')` iff no record was captured, because the table loaded from an empty queue has no columns; otherwise a ranking of at most 20 senders with one-element count lists |
| Analysis.AnalyzeFromMeaning | analyzer.py:197-212 | on a non-empty queue: at most 20 distinct senders, never `None`, each present in the records; each count is that sender's number of records, as `[count]`; counts never increase, ties go in order of first appearance; a missing sender is outranked by all 20 reported ones |
| Analysis.AnalyseAsWritten | analyzer.py:240-246 | the second polling loop of `analyse` ends, with the ranking, iff some record was captured; with none it polls forever |
| Analysis.AnalyseCorrected | analyzer.py:240-246 | the loop always ends: an empty queue gives the empty ranking, any other queue the ranking `_analyze_from` returns |
| Analysis.EmptyQueueHangs | analyzer.py:197-246 | with no captured record the code as written never gets a result while the corrected version gets the empty ranking; on any other queue both give the same ranking |
| Analysis.TopRowsExample | analyzer.py:199-202 | senders `a, None, b, a` rank as `a` with 2, then `b` with 1 |

## Left out

- `service.py` and the OAuth, token and client-building code are not modelled. The Gmail service is
  replaced by the pages it lists and the reply each `get` request receives.
- The pickle cache shortcuts and their commented-out versions are file I/O.
- Threads, `Event` polling, spinners, progress bars, counters and chart rendering are
  presentation and concurrency. Only the progress bar's total advance is kept, as
  `GetMetadata`'s `progress`.
- Processing.Processor.GetMessages: a `list(...).execute()` call that raises `HttpError`
  (processor.py:34 and 47-52) is not modelled. Every page of the listing is taken to be
  answered; a transport error ends `get_messages` with no result, and the model has no such
  page.
- `est_max` is computed and never used. Only the `KeyError` its lookup can raise is kept.
- The batch transport is an assumption of the model. Each request's callback runs exactly
  once, in the order the requests were added, and `replies[i]` is the answer to the
  request for `messages[i]`.
- A `get` response that lacks `payload`, `headers`, `id` or `labelIds` would raise inside
  the callback. That path is not modelled: a reply is either a full message or a failure
  with a uri.
- The copy of `Processor` in analyzer.py (lines 66-176) differs from processor.py only in
  the pickle shortcuts and progress labels. It is modelled once, by `Processing.Processor`.
- `Analyzer.__init__`, `_load_table` and the rest of `analyse` are loading and drawing. The
  table's `fields/from` column is the `from` field of each queued record, in queue order,
  after agate's text cast of null values (`Analysis.Senders`, `Analysis.CastText`).
- Analysis.Senders: agate's column type inference is not modelled. The column is taken to be
  text; a column whose every value also reads as a boolean, number, date or time span would
  be cast to that type instead.
- `_load_table` sets its event before it assigns `self.table`, so `_analyze_from` can start
  while the table is still `None`. That race is concurrency and is not modelled.
- Analysis.OrderByCount: ties between equal counts keep first-seen order. This assumes a
  stable sort and first-seen group order from `pivot`. These are agate's internals and
  are not modelled.
- Helpers.ConvertDate: `strptime` is modelled on a restricted grammar:
  - day, month, four-digit year, `HH:MM:SS` with fields as the format's patterns accept
    them;
  - `%z` only as `+HHMM`/`-HHMM`, without the colon and seconds forms and without the `Z`
    that CPython 3.7 and later read as UTC;
  - `%Z` only `UTC` and `GMT` in any letter case, not the local `time.tzname` names;
  - English month abbreviations only;
  - no leap second: `datetime` refuses second 60;
  - ASCII only: `\d` in `strptime`'s patterns also matches other Unicode decimal digits, which
    `int()` reads, and under its case-insensitive matching `ſ` matches the `s` of `sep`; the
    model accepts neither.
- Helpers.ReduceToDate: years below 1000 are printed with four digits, as CPython 3.13
  prints `%Y` on Linux. Older CPython releases pass `%Y` to the C library, and glibc prints
  such years without padding (`999-12-24`). Such years come from a header such as `0999`.
- Helpers.ReduceToDatetime: the same `%Y` difference; with an older CPython on glibc a year
  below 1000 gives 18 characters, not 19.
- Analysis.AnalyseCorrected: the chart that `analyse` draws from the ranking is not modelled.
- Helpers.Chunks: `n > 0` is required. `range` raises on a zero step, and every caller
  passes 250.

## Findings

| source | as written | input that shows it | evidently intended | confidence | as-written member | corrected member |
|---|---|---|---|---|---|---|
| analyzer.py:189-212, 240-244 | an empty queue loads a table without columns, so `pivot("fields/from")` raises `KeyError`; `_analyze_from` then never sets its event and `analyse` polls forever | an empty mailbox, or a run in which every `get` failed, so no record was captured | the analysis ends; with no captured message the sender chart is empty | medium, not executed | Analysis.AnalyseAsWritten (shown by Analysis.EmptyQueueHangs) | Analysis.AnalyseCorrected |
