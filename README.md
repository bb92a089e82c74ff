# nginxlog2postgres read phase, modelled in Dafny

`nginxlog2postgres` loads an nginx access log into the PostgreSQL table
`nginx_access_logs`. Its `main` reads the log entry by entry through a
format-driven reader. Each entry is a map from field name to raw text. Every
entry is validated into a 13-column row: two base-10 integers, two floats and
eight length-bounded strings, tagged with a 1-based line number. The row is
appended to an in-memory batch. The loop ends at end of input or after a
configured number of lines. Any lookup, parse or length failure panics, so the
batch is bulk-copied only when every line read was valid. This project models
that read phase and proves what it promises.

Modules (one per component, all in `main.go`):

- `Wrappers`: `Option` and `Result` in place of Go's `panic`.
- `ByteStrings`: raw values are byte sequences, because Go's `len` counts bytes.
- `Strconv`: a concrete model of `strconv.ParseInt(s, 10, 64)`. It keeps Go's
  syntax/range error split, including Go's early range error during the digit
  scan. It also has a reference positional value and decimal formatting as
  its inverse.
- `Schema`: the table's column types from `CREATE TABLE` and the column list
  given to `CopyFrom`.
- `Fields`: `Field`, `FloatField`, `checkLength`, `getString`, and one
  iteration's validation (`ValidateEntry`) in the source's order: status, body
  size, upstream time, request time, then the eight strings. It also holds a
  declarative meaning stated against the table schema (`EntryValid`,
  `Expected`).
- `Batch`: the loop of `main` as the method `ReadLog`, proved equal to the
  recursive specification `Ingest`. Lemmas characterise `Ingest`.
- `Config`: the default-format fallback. The default template is written as
  tokens (literal separators and `$name` placeholders) whose concatenation is
  the format string.
- `Scenarios`: two concrete runs.

The reader is a sequence of answers: a matched entry, a reader error, or EOF.
Asking past the end yields EOF. An `Err` outcome of `Ingest`/`ReadLog` stands
for the panic. It happens before the database connection at `main.go:128` is
attempted.

Three details of `main.go` the model keeps:

- Integer fields accept an optional `+`/`-` sign and must fit in int64.
- A missing `upstream_response_time` is not reported at the first lookup,
  because that error is discarded. It reads as empty text. Empty text is not
  `-`, so the following `FloatField` fails with the missing-field error.
- A reader error carries the reader's own reason. No line number is added.

## Model

| member | source | states |
|---|---|---|
| `Strconv.ScanDigits` | main.go:72 | the accumulated value only grows and a successful scan stays within 2^64-1; a non-digit at the scan position is a syntax error (the full characterisation is `Strconv.ScanDigitsCorrect`) |
| `Strconv.ParseUint64` | main.go:81 | an accepted magnitude comes from non-empty text and lies within 2^64-1 (characterised by `Strconv.ScanDigitsCorrect` and `Strconv.ParseInt64Correct`) |
| `Strconv.ParseInt64` | main.go:72-75 | any parsed value lies in the int64 range |
| `Strconv.ScanDigitsCorrect` | main.go:72-75 | the digit scan yields the positional value of the digits. It fails exactly on a non-digit or a value above 2^64-1, and a well-formed overflow is a range error |
| `Strconv.ParseInt64Correct` | main.go:72-75 | ParseInt succeeds iff the text is an optional sign plus at least one digit with a value in int64, and then returns that value; a well-formed out-of-range value is a range error |
| `Strconv.FormatIntRoundTrip` | main.go:81-84 | parsing the decimal rendering of any int64 returns the number |
| `Strconv.NonNumericIsSyntaxError` | main.go:72-75 | "abc" is rejected as a syntax error |
| `Fields.Field` | main.go:67-70 | the lookup succeeds iff the field is present, returns its raw value, and otherwise fails naming the field |
| `Fields.IntField` | main.go:76-84 | an integer field is accepted iff present and parseable by ParseInt, and holds the parsed value |
| `Fields.FloatField` | main.go:95-98 | a float field is accepted iff present and accepted by the float parser, and holds the parsed value |
| `Fields.UpstreamResponseTime` | main.go:86-93 | the raw value `-` gives 0; any other value, absent included, goes through `FloatField` |
| `Fields.CheckLength` | main.go:204-208 | fails exactly when the value is longer than the limit, with an error holding line, field, limit and value |
| `Fields.GetString` | main.go:194-202 | returns the raw value verbatim iff it is present and within the limit; an absent field is a missing-field error, an oversized one a too-long error naming line, field, limit and value |
| `Fields.Values` | main.go:100-114 | the row becomes 13 cells, one per table column in order, each of the kind its column's type holds, the first being the line number |
| `Fields.ValidateEntry` | main.go:67-114 | an accepted row carries the current line number, and a rejection is never a reader error (what it accepts and returns is `Fields.ValidateEntryCorrect`, its errors `Fields.ValidateEntryErrors`) |
| `Fields.ValidateEntryCorrect` | main.go:67-114 | a line is accepted iff every table column is acceptable (present, integer parses, float parses with `-` allowed for upstream time only, string within the column width). The row is then, cell by cell, what each column calls for, starting with the line number |
| `Fields.ValidateEntryErrors` | main.go:67-114 | every abort is of a lookup, parse or length kind. A missing field is a table column. A too-long error holds the current line, the field, its value and the column's width as limit |
| `Fields.NonNumericStatusAborts` | main.go:67-75 | a `status` of "abc" aborts the line with a syntax error, whatever else it holds |
| `Fields.UpstreamDashIsZero` | main.go:86-93 | upstream time `-` is stored as 0. Any other value is stored as parsed, and aborts the line when it does not parse |
| `Fields.RequestTimeDashRejected` | main.go:95-98 | `request_time` has no `-` exception: with a parser that rejects `-` (as Go's does), the line aborts |
| `Fields.ValidRowFitsTable` | main.go:100-114 | every cell of a validated row has its column's type, lies in the BIGINT range when it is an integer, and is within the declared width in bytes when it is text |
| `Schema.CopyColumnsMatchTable` | main.go:166-182 | the copy's column list names the table's 13 columns one for one, in order, with no duplicates |
| `Batch.ReadLog` | main.go:50-122 | the loop's outcome equals the specification `Ingest` |
| `Batch.IngestFrom` | main.go:54-122 | from any point of the loop, a successful run keeps the rows already appended as a prefix and adds at most one row per remaining answer (fully characterised by `Batch.IngestFromCorrect`) |
| `Batch.Ingest` | main.go:54-122 | a successful batch has no more rows than the reader gave answers (fully characterised by `Batch.IngestCorrect`) |
| `Batch.LeadingLines` | main.go:55-64 | the number of matched lines before the first EOF or reader error |
| `Batch.IngestFromCorrect` | main.go:55-121 | from any point of the loop, the run succeeds iff it stops cleanly and every later line read validates. The rows built so far are kept, and each new row is its line validated under its line number |
| `Batch.IngestCorrect` | main.go:54-121 | the run succeeds iff it stops at the cutoff or at EOF (not at a reader error) and every line read validates. The batch then has one row per line read, row j being line j+1 validated with line number j+1 |
| `Batch.RowsNumberedFromOne` | main.go:54-56 | line numbers start at 1 and rise by exactly 1 |
| `Batch.RowCount` | main.go:119-121 | with n matched lines, a successful batch has min(n, cutoff) rows under a positive cutoff and n rows otherwise |
| `Batch.InvalidLineAborts` | main.go:58-98 | any line the loop reaches that does not validate aborts the whole run |
| `Batch.CutoffPrefix` | main.go:119-121 | from any point before the cutoff, input beyond the cutoff does not affect the outcome |
| `Batch.CutoffIgnoresRest` | main.go:119-121 | with a positive cutoff, the run equals the run on the first `maxlineCount` answers only |
| `Batch.BatchFitsTable` | main.go:100-114 | every cell of every row of a successful batch has its column's type, lies in the BIGINT range when it is an integer, and is within the declared width in bytes when it is text |
| `Batch.NonNumericStatusStopsRun` | main.go:72-75 | a reached line whose `status` is "abc" aborts the run before any database work |
| `Config.EffectiveFormat` | main.go:35-37 | the format is never empty: a configured format is kept and an empty one becomes the default |
| `Config.DefaultFormatText` | main.go:36 | the text of the default template (`Config.DefaultTemplate`, rendered as `Config.DefaultFormat`) is exactly the default format literal, written in seven pieces |
| `Config.PlaceholderRendered` | main.go:36 | a placeholder followed by a separator appears whole in the rendered format, right after the text of the earlier tokens |
| `Config.PlaceholdersWhole` | main.go:36 | in a template that separates its placeholders, every placeholder appears whole in its text |
| `Config.DefaultPosition` | main.go:36 | each table column after the line number is a placeholder of the default template |
| `Config.DefaultFormatNamesEveryColumn` | main.go:36 | the default format binds every field validation reads as a whole placeholder, so `$request` is not mistaken for the front of `$request_time` |
| `Scenarios.SampleRow` | main.go:67-114 | a sample line validates into a row with its line number, parsed integers and upstream time |
| `Scenarios.ThreeLineRun` | main.go:50-122 | three lines with statuses 200, 404, 500, sizes 512, 0, 100 and upstream `-`, `-`, `0.125` give rows 1 to 3 with upstream times 0, 0, 0.125 |
| `Scenarios.CutoffTwoOfFive` | main.go:119-121 | a cutoff of 2 on five valid lines gives exactly rows 1 and 2, the same as reading only two lines |

## Left out

- Log-format compilation and line matching (`gonx.NewReader`, `reader.Read`) belong to a foreign library. The reader is a sequence of answers that the format string does not determine.
- Float parsing (`strconv.ParseFloat` behind `FloatField`) is an abstract parameter `Bytes -> Option<real>`. Floats are `real`, and float64 rounding is not modelled.
- Fields.RequestTimeDashRejected: assumes, as a hypothesis, that the parser rejects `-`. That is a property of Go's parser, which is not part of this model.
- All PostgreSQL work is network and database I/O: connecting, `CREATE TABLE IF NOT EXISTS`, `TRUNCATE` and `CopyFrom`. Only the table's column types and the copy's column list are modelled, as constants.
- Schema.Fits measures `VARCHAR(n)` in bytes, as the validation does. PostgreSQL counts characters, and a valid UTF-8 value of at most n bytes has at most n characters.
- These belong to process configuration, not to the read phase: environment variables, `os.Open`, parsing of the cut-off setting and of the truncate flag, and the usage message.
- Progress printing every 10000 lines and the other console output are cosmetic.
- The panic message texts are not rendered, neither `fmt.Sprintf` in `checkLength` nor the reader's and lookup errors. Each error carries its parts: line, field, limit and value, or field name, or raw text and error kind.
- Batch.ReadLog: the line counter is Go's `int` (64 bits on 64-bit platforms). Its wrap-around after 2^63 reads is not modelled, and Batch.BatchFitsTable requires at most 2^63-1 answers instead.
- Fields.ValidateEntryErrors: gives the shape of each error but not which failing field is reported first. That order is fixed only by `Fields.ValidateEntry` itself, in the source's order.
- Schema.Fits: text-encoding validity is not checked. A value with a NUL byte or invalid UTF-8 fits by this predicate, yet PostgreSQL would reject it in the copy.
