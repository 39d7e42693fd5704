# Course search service: records, search, cache, validation, CSV rows, indexes

A Dafny model of the core of a small course-catalog web service. The service
loads course records from a CSV file. It answers two-field substring searches
over them, and it caches each answer under a key built from the query. It also
checks submitted course data and writes new entries to CSV files. It also has
two index builders, an exact-key map and a trie, that no handler calls.

A record is a finite map from field name to a scalar value (`Records.Value`:
string, boolean, integer or JSON `null`). A CSV file is its sequence of rows of
cells, as the CSV tokenizer would produce them.

Modules, one per component:

- `Records`: values, records, the placeholder `未知`, and `strings.Contains` as
  "occurs at some offset".
- `Numerals`: `strconv.Atoi` on a 64-bit platform, the decimal form of an
  integer, and the text `fmt.Sprintf("%v", x)` gives an integer-valued
  `float64` (plain decimal below a million, exponent form from there on).
- `CourseSearch`: `searchCourses`. It is a loop (`SearchCourses`) proved equal
  to the filter function `Matching`. Lemmas prove soundness, completeness,
  order and the empty-filter cases.
- `SearchCache`: the cache key and the hit/miss step of the `search` handler.
  The key-value store is the class `ResultCache`, whose field `entries` maps a
  key to a stored blob. Decoding a blob either succeeds (`Encoded`) or fails
  (`Corrupt`). Two parameters of a call stand for the external store:
  - `redisUp`: whether the store answers;
  - `marshalOk`: whether `json.Marshal` succeeds.
- `CourseValidation`: `validateCourseData` (a loop with early return) and
  `submitCoursePromotion` after request binding: its elective-field rule and
  the append of the promotion record to its CSV file.
- `CsvUtils`: the row-to-record loops of `CSVFileReader` and the row
  projection of `writeCSV`/`appendToCSV`. It also has the create-or-append rule
  on the class `FileSystem`, whose field `files` maps a path to the file's rows.
- `CourseIndex`: `buildCourseIndex` (a loop filling a map, with early-return
  errors) and `buildCourseTrieIndex`. The trie is the class `Trie`, seen only
  through the log of its `Insert` calls.

The cache key is `"search:" + name + ":" + instructor`. It is proved
injective when the name filters contain no `:` (`SearchCache.CacheKeyInjective`).
`SearchCache.CacheKeyCollision` gives two different queries that share a key.
On a one-record store those two queries have different answers, and
`SearchCache.CollidingQueries` shows the cache serving the second query the
first one's answer. So the cache is proved coherent only for queries whose
name filter has no `:`.

`Records.StringField`, `Records.Contains` and `CourseValidation.Join` are plain
definitions of `v, _ := r[f].(string)`, `strings.Contains` and
`strings.Join`. What the model relies on about them is stated by the lemmas
and contracts that use them.

A cached entry that fails to decode is not handled like a miss. The search
runs, but its result is not written back, so the bad entry stays in place
(main.go:143-146). Only a failed `Get` leads to a write.

## Model

| member | source | states |
|---|---|---|
| CourseSearch.SearchCourses | main.go:175-201 | the loop returns exactly `Matching(courses, name, instructor)`; a record is returned iff it is in the store and passes both filters; the result is no longer than the store |
| CourseSearch.MatchingAll | main.go:181-200 | with both filters empty the whole store is returned, in store order |
| CourseSearch.MatchingMembers | main.go:185-197 | soundness and completeness: `r` is in the result iff `r` is in the store and (name filter empty or the name field contains it) and (instructor filter empty or the instructor field contains it) |
| CourseSearch.MatchingSelects | main.go:181-198 | order: the result is the store read at a strictly ascending list of positions, and that list holds exactly the positions of matching records; the result length is at most the store length |
| CourseSearch.MatchIndicesAscending | main.go:181-198 | the positions of the matching records are in range, strictly ascending, and include exactly the matching positions |
| CourseSearch.MatchingAtIndices | main.go:195-197 | the k-th result is the store's record at the k-th matching position |
| CourseSearch.MissingFieldMatchesOnlyEmpty | main.go:186-192 | the property of `Records.StringField` (`v, _ := r[f].(string)`): a field that is missing or holds a non-string reads as "", so the record passes a filter on that field iff the filter is empty |
| Records.ContainsEmpty | main.go:187-192 | `strings.Contains` finds the empty string in every string, and finds nothing else in the empty string |
| CourseSearch.ExampleSearch | main.go:175-201 | on the store [Algorithms/Lee, Data Structures/Chen]: "Algo" finds only the first record, instructor "Ch" finds only the second, "zzz" finds nothing |
| SearchCache.CacheKey | main.go:135 | when the name filter holds no `:`, splitting the key at the first `:` after `search:` gives both filters back |
| SearchCache.CacheKeyInjective | main.go:135 | two filter pairs whose name filters hold no `:` have the same key only if they are equal |
| SearchCache.CacheKeyCollision | main.go:135 | ("a:b", "") and ("a", "b:") share a key, and on a one-record store their live answers differ |
| SearchCache.CacheKeySeparatesExample | main.go:135 | ("A", "B") and ("AB", "") get different keys |
| SearchCache.ResultCache.ClearCacheOnStartup | main.go:97-107 | `FlushDB` empties the cache when the store answers and changes nothing when it fails; an emptied cache is coherent with every store |
| SearchCache.ResultCache.Search | main.go:138-156 | a reachable hit that decodes returns the cached list without scanning and leaves the cache unchanged; a hit that does not decode scans and does not write; a miss scans and stores the result only if the store is reachable and marshalling succeeded; for a name filter without `:`, a coherent cache gives the live answer and stays coherent |
| SearchCache.SearchTwice | main.go:138-156 | against a store that answers and marshals, repeating a query gives the same answer, and the second call does not scan unless the entry was corrupt |
| SearchCache.CollidingQueries | main.go:135-156 | on the one-record store it returns, running ("a:b", "") and then ("a", "b:") on an empty cache serves the second query the first one's empty list, although its live answer is the record |
| CourseValidation.FirstMissing | main.go:231-236 | the position of the first required field the record lacks: all earlier fields are present and that one is absent, or all fields are present |
| CourseValidation.ValidateCourseData | main.go:230-246 | the first missing field `f`, in the fixed order, gives `(false, "Missing required field: " + f)`; with all fields present, the result is `(true, "")` iff the grade rule passes, else `(false, GradeError)` |
| CourseValidation.GradeAccepted | main.go:238-243 | a string grade other than "Unknown" is accepted iff it is digits after an optional sign, worth at most 100, and worth 0 if the sign is `-`; the int64 range never matters here |
| CourseValidation.DecimalGradeAccepted | main.go:238-243 | a grade string that is the decimal form of an integer n is accepted iff 0 <= n <= 100 |
| CourseValidation.GradeRuleExamples | main.go:238-243 | `Atoi` accepts a sign and leading zeros and rejects "", "-", " 5", "1_0" and "9.5"; "Unknown" and non-string grades pass; "101", "-1" and "unknown" are rejected |
| CourseValidation.SubmitCoursePromotion | main.go:367-410 | a general elective with an empty elective field is rejected with the elective-field message and no file changes; any other promotion returns its record, and the promotions file is created with the header and that row, or gets exactly that row appended |
| CourseValidation.SavedElectiveNamesField | main.go:378-410 | the row saved for an accepted general elective has its elective field, non-empty, in the third column, and reading the row back gives that field rather than 未知 |
| Numerals.Atoi | main.go:239 | a result is always within int64; a negative result needs a leading `-`; a string of plain digits parses to its value iff that fits in int64 |
| Numerals.AtoiOfIntToString | main.go:239 | `strconv.Atoi` reads the decimal form of an integer back exactly when it fits in an int64, and fails otherwise |
| Numerals.FloatText | csv_utils.go:81 | the `%v` text of an integer-valued float below a million in magnitude is its decimal form and parses back to it; from a million on it holds an `e` and does not parse |
| CsvUtils.ConvertRows | csv_utils.go:30-56 | zero rows give no records; otherwise there is one record per non-header row, in row order, each converted under the first row as header |
| CsvUtils.RowPrefixKeys | csv_utils.go:43-50 | a converted row's key set is `{headers[j] : j < min(len(row), len(headers))}` |
| CsvUtils.RowPrefixValues | csv_utils.go:46-49 | every value of a converted row is a non-empty string |
| CsvUtils.RowPrefixLastColumn | csv_utils.go:43-50 | under a header name, the record holds the last column carrying that name, with "" read as 未知 |
| CsvUtils.RowToRecordKeys | csv_utils.go:43-50 | for a whole row: keys are the names of the header cells present, and no value is "" |
| CsvUtils.LaterColumnWins | csv_utils.go:49 | with duplicate header names, the later column's value is kept |
| CsvUtils.ReadCell | csv_utils.go:46-48 | a stored cell is never ""; a non-empty cell is kept unchanged |
| CsvUtils.FormatValue | csv_utils.go:81 | `%v` writes a string as it is, a boolean as `true`/`false`, null as `<nil>`; a number's text reads back through `strconv.Atoi` as that number iff its magnitude is below a million |
| CsvUtils.ProjectRow | csv_utils.go:78-85 | the written row has one cell per header; cell i is the record's value for `headers[i]` formatted as by `%v`, or 未知 if absent |
| CsvUtils.ProjectThenRead | csv_utils.go:118-125 | round trip: with distinct headers and string values, projecting a record and converting the row back gives the record restricted to the headers, with empty or absent values read back as 未知 |
| CsvUtils.WriteThenRead | csv_utils.go:72-89 | with distinct headers and string values, reading back a file written by `writeCSV` gives, in order, each record restricted to the headers, with empty or absent values read back as 未知 |
| CsvUtils.ReadAfterAppend | csv_utils.go:104-128 | for a file with at least one row: reading it after one row is appended gives the old records followed by the new row converted under the file's first row |
| CsvUtils.AppendToEmptyFile | csv_utils.go:96-128 | a file that exists but is empty gets no header, so the appended row is read as the header and the file yields no records |
| CsvUtils.FileSystem.CsvFileReader | csv_utils.go:11-56 | a missing file is an open error; otherwise its rows are converted into records |
| CsvUtils.FileSystem.WriteCsv | csv_utils.go:60-93 | the file becomes the header row followed by one projected row per record, in input order; no other file changes |
| CsvUtils.FileSystem.AppendToCsv | csv_utils.go:96-133 | an absent file is written as by `writeCSV` with the single record; an existing file gets exactly one projected row at its end, without a header, and its earlier rows are unchanged |
| CourseIndex.FirstBad | index.go:15-26 | the position of the first record that lacks the index field or holds a non-string there; every earlier record is usable |
| CourseIndex.BuildCourseIndex | index.go:10-30 | empty input gives `EmptyData`; otherwise the first unusable record decides the error (`MissingKey` or `NotString`); if no record is unusable, the index built by inserting every record in order |
| CourseIndex.KeyIndexKeys | index.go:17-24 | the index's keys are exactly the records' index-field values |
| CourseIndex.KeyIndexLastWins | index.go:23 | under a key, the index holds the last record in input order that bears it |
| CourseIndex.KeyIndexValues | index.go:23 | every indexed record is one of the input records and bears its key |
| CourseIndex.KeyIndexSize | index.go:15-24 | the index has at most as many entries as there are records, and exactly as many iff the keys are pairwise distinct |
| CourseIndex.DistinctAppend | index.go:23 | appending a key not among the earlier ones keeps the key list pairwise distinct exactly when it was before; `KeyIndexSize` uses it when a new key is inserted |
| CourseIndex.Trie.Insert | index.go:51 | an insertion adds one (key, record) pair at the end of the trie's log |
| CourseIndex.BuildCourseTrieIndex | index.go:33-55 | the same three errors as the hash build, decided the same way; on success a fresh trie that got exactly one `Insert` per record, in input order, with that record's key string |

## Left out

- HTTP and gin plumbing: routing, CORS, static files, gzip, response headers,
  `serveIndex`, `getStatistics`, `proxyToRemoteStatistic`, `addCourse`,
  `submitSurvey`, and request binding. These are transport.
- The Redis client itself is network I/O. `Get` and `Set` are reduced to
  reading and writing `ResultCache.entries`, and `FlushDB` to emptying it
  (`ResultCache.ClearCacheOnStartup`). A new `ResultCache` starts empty. The
  24-hour expiry is not modelled: entries never expire.
- Logging: the `log.Printf` on an entry that does not decode and the messages
  of `clearCacheOnStartup` have no effect the model keeps.
- SearchCache.ResultCache.Search: one flag stands for whether the store
  answers. A store that fails on `Get` but answers on `Set`, or the reverse,
  is not modelled.
- JSON marshal and unmarshal are abstract. A stored `Encoded` blob decodes to
  exactly the list that was stored, and `marshalOk` says whether marshalling
  succeeded.
- `searchCourses` returns a nil slice when nothing matches (main.go:179), which
  `json.Marshal` caches and sends as `null`. The model does not tell nil from
  an empty list: both are `[]`.
- `sync.RWMutex` locking around the record store. The model is sequential,
  and the store is passed to each search as a value.
- `loadCourseData` and the process exit on a load failure: file I/O.
- The `encoding/csv` tokenizer, `os.ReadFile`, `os.Stat`, `os.Create`,
  `os.OpenFile`, `Flush` and their errors. Reading and writing a file go
  straight between its rows and the model's `files` map. As a result:
  - a row written is assumed to read back unchanged (the real writer's empty
    lines are skipped by the real reader);
  - a `Stat` error other than "not exist" is not modelled.
- CsvUtils.FileSystem.CsvFileReader: returns only the error kind. It does not
  return the operating system's message.
- CourseIndex.BuildCourseIndex and CourseIndex.BuildCourseTrieIndex: return
  the error kind, not the formatted message text.
- The trie's structure and its lookups are not part of this model: that
  library's source is not available.
- The `&item` pointer passed to `Insert`: whether it aliases one loop variable
  depends on the Go version. The model logs the record value itself.
- Floating point: the `float32`/`float64` fields of the survey and promotion
  inputs are not modelled.
- CsvUtils.FormatValue: a number is an integer-valued `float64`. Fractional
  values and `-0` (which `%v` prints as `-0`) are not modelled. Above 2^53
  Go prints the shortest digits that identify the float, which can be fewer
  than the integer's own digits; `Numerals.FloatText` prints all of them.
- JSON arrays and objects as field values are not modelled.
- `time.Now()` timestamps.
- CourseValidation.SubmitCoursePromotion: starts from the bound input. The
  JSON binding and its `required` checks come first and are not modelled. The
  submit time is a parameter (it comes from the clock), the credit is a whole
  number, and an error from `appendToCSV` (file I/O) is not modelled.
- Records.Contains: works on characters, not bytes. On valid UTF-8 the two
  agree about substrings.
