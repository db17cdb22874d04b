# PhoneBook `rdbms`: a verified model of the query executor

The PhoneBook backend reaches its relational store only through package `rdbms`, a thin layer
over Go's `database/sql` with three calls:

- `QueryRow(query, in, out)` fetches one row and scans its columns into the caller's
  destinations `out`;
- `Query(query, in, out)` walks a result cursor and scans row `i` into the caller's pre-sized
  slot group `out[i]`;
- `Execute(query, in)` runs an insert, update or delete and checks how many rows it affected.

Each call prepares a statement, releases it (and, in `Query`, the cursor) through `defer`, and
sorts every failure into one of four outcomes by the text of the error it returns: preparation
failure (`ErrPrepareStatement` followed by the cause), duplicate (exactly `ErrDuplicate`),
not-found (exactly `ErrNotFound`) or a generic failure (a context line followed by the cause).

The model replaces the database with data. Every answer the executor gets from `database/sql`
is a parameter: the error from `Prepare`, the row `QueryRow` fetches, the error from
`stmt.Query`, the rows the cursor yields and what `rows.Err()` then reports, the error from
`Exec` and the result of `RowsAffected`. A driver error is `sql.ErrNoRows` (recognised by
identity, as the source's `==` does), `database/sql`'s column-count mismatch in `Scan`, or any
other failure known by its text.

Modules:

- `Wrappers`: the `Option` used for Go's nil-or-value results.
- `Strings`: Go's `strings.Contains`, proved against "occurs at some index", and `%d`.
- `Driver`: driver errors and their texts, fetched rows, cursors, affected-row results, and
  `ScanError`, the stand-in for `database/sql`'s `Scan`: a fetch error is passed on, a row whose
  width differs from the number of destinations gives the column-count error, and any other row
  scans.
- `Errors`: the message constants, the `fmt.Errorf` wrapping, the four-kind taxonomy `KindOf`
  as a caller reads it back from a message, and the classification branches of the source as
  pure functions.
- `Rdbms`: what each call returns and leaves in `out` (functions), and the class `Rdbms` whose
  methods run the calls step by step and are proved to compute exactly those functions. The
  class keeps a ghost trace of handle events (statement prepared or closed, cursor opened or
  closed) and ghost counts of open statements and cursors; each method leaves both counts as it
  found them and appends exactly the events the deferred closes produce.
- `RdbmsProperties`: what the calls promise, as lemmas over those functions.

What the code does at its edges, as the model states it:

- On a scan failure at row `n`, `Query` returns the wrapped scan error and has already written
  rows `0..n-1` into `out`; groups from `n` on are untouched (`QueryWritesScannedRows`).
- The row loop of `Query` is bounded only by the cursor: a cursor with more rows than `out` has
  groups, every group of which scans, indexes past the end of `out` and panics. The as-written
  method requires `LoopInBounds`, which holds exactly when that does not happen
  (`LoopInBoundsExact`).
- After the loop, `out = out[:index+1]` needs one more slot than was scanned and panics when the
  rows fill `cap(out)`, including an empty cursor with `cap(out) == 0`.
- `Query` returns only an error, not the number of rows scanned.
- `Execute` treats only a count of exactly zero as not-found; any other count, negative ones
  included, is success.

## Model

| member | source | states |
|---|---|---|
| `Strings.Contains` | pkg/rdbms/rdbms.go:46 | the substring test is true exactly when the pattern occurs in the text at some index |
| `Errors.PrepareFailureKind` | pkg/rdbms/rdbms.go:41 | a wrapped preparation failure starts with `ErrPrepareStatement` and reads back as a preparation failure whatever the cause |
| `Errors.WrappedFailureKind` | pkg/rdbms/rdbms.go:51-101 | every generic wrapped message (the six context lines at :51, :66, :73, :79, :97 and :101) differs from both sentinels and does not start with `ErrPrepareStatement`, whatever the cause, so a caller comparing with `ErrNotFound` is never misled |
| `Errors.NoRowsIsNotDuplicate` | pkg/rdbms/rdbms.go:46-48 | the text of `sql.ErrNoRows` never passes the duplicate test, so the earlier duplicate test cannot shadow not-found |
| `Errors.ColumnCountIsNotDuplicate` | pkg/rdbms/rdbms.go:45-46 | the text of `Scan`'s width-mismatch error never passes the duplicate test, whatever the two counts |
| `Errors.ClassifyScanError` | pkg/rdbms/rdbms.go:46-51 | the result is `ErrDuplicate` exactly when the driver text contains "Duplicate entry"; `sql.ErrNoRows` always gives `ErrNotFound`; its kind is duplicate, then not-found, then generic failure, in that order; a width mismatch is always a generic failure |
| `Errors.ClassifyExecError` | pkg/rdbms/rdbms.go:93-97 | the result is `ErrDuplicate` exactly when the driver text contains "Duplicate entry", never `ErrNotFound`, otherwise a generic failure |
| `Errors.AffectedOutcome` | pkg/rdbms/rdbms.go:100-107 | success exactly for a readable nonzero count; exactly `ErrNotFound` for a count of zero; an unreadable count is a generic failure |
| `Rdbms.GoodPrefix` | pkg/rdbms/rdbms.go:70-75 | the number of leading rows that scan into their slot groups: all rows before it scan, and the row at it fails when both exist |
| `Rdbms.FilledAt` | pkg/rdbms/rdbms.go:72 | after `n` loop iterations group `j` holds row `j` for `j < n` and is untouched otherwise |
| `Rdbms.StatementTrace` | pkg/rdbms/rdbms.go:43 | the statement is prepared and closed exactly once, close last, unless preparing failed; no cursor is involved |
| `Rdbms.QueryTrace` | pkg/rdbms/rdbms.go:62-68 | the statement is closed exactly once after a successful prepare; the cursor is opened and closed exactly once when `stmt.Query` succeeds, never otherwise, and is closed before the statement |
| `Rdbms.ScanRows` | pkg/rdbms/rdbms.go:70-75 | the row loop stops after the longest scannable prefix, reports the first scan failure, and leaves each scanned row in its group and every other group untouched |
| `Rdbms.Rdbms.QueryRow` | pkg/rdbms/rdbms.go:38-55 | returns `QueryRowError` and leaves `QueryRowSlots` in `out`; the trace gains the statement's prepare and close (none if preparing failed); the open counts are unchanged |
| `Rdbms.Rdbms.Query` | pkg/rdbms/rdbms.go:57-83 | as written: requires the loop to stay in `out` and `out[:index+1]` to stay in `cap(out)`; returns `QueryError`, leaves `QuerySlots` in `out`, appends `QueryTrace`, open counts unchanged |
| `Rdbms.Rdbms.QueryCorrected` | pkg/rdbms/rdbms.go:71-76 | the loop also stops at the last group and the reslice is `out[:index]`: nothing is required of the cursor; returns `QueryError` and leaves `QuerySlots` for the cursor as far as the loop reads it (`Truncate`), appends `QueryTrace`, open counts unchanged |
| `Rdbms.Truncate` | pkg/rdbms/rdbms.go:71 | the rows a loop bounded by `len(out)` reaches are a prefix of the cursor's rows, at most one per group, so the loop stays in bounds |
| `Rdbms.GoodPrefixOfPrefix` | pkg/rdbms/rdbms.go:71-74 | cutting the cursor after its first failing row does not change how many rows scan |
| `Rdbms.GoodPrefixOfFullPrefix` | pkg/rdbms/rdbms.go:71-74 | when every group receives a row, cutting the cursor at the last group keeps every group's row scannable |
| `Rdbms.FilledAgree` | pkg/rdbms/rdbms.go:72 | the groups after `n` iterations depend only on the first `n` rows |
| `Rdbms.Rdbms.Execute` | pkg/rdbms/rdbms.go:85-108 | returns `ExecuteError`; the trace gains the statement's prepare and close (none if preparing failed); the open counts are unchanged |
| `RdbmsProperties.QueryRowPrepareFailure` | pkg/rdbms/rdbms.go:39-42 | a failed prepare gives a message starting with `ErrPrepareStatement`, writes nothing and opens no statement |
| `RdbmsProperties.QueryRowClassification` | pkg/rdbms/rdbms.go:45-51 | a failed fetch is `ErrDuplicate` exactly for duplicate text, `ErrNotFound` for `sql.ErrNoRows`, and otherwise a generic failure equal to neither sentinel; nothing is written |
| `RdbmsProperties.QueryRowWidthMismatch` | pkg/rdbms/rdbms.go:45-51 | a fetched row whose width differs from `out` gives the wrapped column-count error, a generic failure, and writes nothing |
| `RdbmsProperties.QueryRowSuccess` | pkg/rdbms/rdbms.go:45-54 | success exactly when prepared and the row's width matches `out`; then destination `k` holds column `k`; on any failure `out` is unchanged |
| `RdbmsProperties.QueryPrepareFailure` | pkg/rdbms/rdbms.go:58-61 | a failed prepare gives a message starting with `ErrPrepareStatement`, writes nothing and opens no handle |
| `RdbmsProperties.QueryOpenFailure` | pkg/rdbms/rdbms.go:64-67 | a failed `stmt.Query` is a generic failure, writes nothing, opens no cursor and still closes the statement |
| `RdbmsProperties.QueryEmptyCursor` | pkg/rdbms/rdbms.go:70-82 | zero rows and a clean cursor is success, not not-found, and leaves `out` unchanged; as written, `Query` reaches this only when `cap(out) >= 1` (`EmptyCursorZeroCapacity`) |
| `RdbmsProperties.QueryWritesScannedRows` | pkg/rdbms/rdbms.go:70-75 | group `j` holds row `j` for every row scanned, in order, and no other group is written |
| `RdbmsProperties.QueryStopsAtFirstScanFailure` | pkg/rdbms/rdbms.go:71-74 | the first row that fails to scan ends the call with that row's error wrapped as a generic failure |
| `RdbmsProperties.QueryCursorError` | pkg/rdbms/rdbms.go:78-80 | after every row scanned, an error left in the cursor is returned as a generic failure |
| `RdbmsProperties.QueryOutcomeKinds` | pkg/rdbms/rdbms.go:57-83 | `Query` succeeds exactly when it got a cursor, scanned every row and the cursor ended cleanly; it never reports not-found or duplicate |
| `RdbmsProperties.ExecuteOutcomes` | pkg/rdbms/rdbms.go:85-108 | prepare failure first; an exec failure is a duplicate exactly for duplicate text, else generic; an unreadable count is generic; exactly `ErrNotFound` for zero rows; success exactly for a nonzero count |
| `RdbmsProperties.ExactCapacityRejected` | pkg/rdbms/rdbms.go:76 | a cursor of exactly `len(out) == cap(out)` scannable rows keeps the loop in bounds but not the as-written reslice |
| `RdbmsProperties.ExactCapacityExample` | pkg/rdbms/rdbms.go:76 | one row into a one-group buffer of capacity one violates the as-written reslice |
| `RdbmsProperties.EmptyCursorZeroCapacity` | pkg/rdbms/rdbms.go:76 | an empty cursor into an empty buffer of capacity zero keeps the loop in bounds but not the as-written reslice |
| `RdbmsProperties.LoopInBoundsExact` | pkg/rdbms/rdbms.go:71-72 | the as-written loop stays inside `out` exactly unless the cursor has more rows than `out` has groups and every group scans |
| `RdbmsProperties.OverCapacityExample` | pkg/rdbms/rdbms.go:72 | two one-column rows into a one-group buffer index past the end of `out` |
| `RdbmsProperties.CorrectedAgreesWhereDefined` | pkg/rdbms/rdbms.go:71-76 | wherever the as-written loop stays in bounds, the corrected loop returns the same error and leaves the same groups |
| `RdbmsProperties.CorrectedFillsOverCapacity` | pkg/rdbms/rdbms.go:71-72 | on every input where the as-written loop runs past `out` (more rows than groups, all scannable), the corrected `Query` succeeds and group `j` holds row `j` for every group |
| `RdbmsProperties.CorrectedEmptyZeroCapacity` | pkg/rdbms/rdbms.go:76 | an empty cursor into a buffer of capacity zero, which panics as written, succeeds in the corrected `Query` and leaves the buffer as it was |

## Findings

| source | as written | input that shows it | evidently intended | confidence | as-written member | corrected member |
|---|---|---|---|---|---|---|
| pkg/rdbms/rdbms.go:76 | after the loop `out = out[:index+1]`, which needs `index + 1 <= cap(out)` | `out` with `len == cap == 1` and a cursor yielding one row that scans; or `out` with `len == cap == 0` and an empty cursor: the reslice is out of range and Go panics | `out = out[:index]` (the rows scanned), which is always in range; the line has no other effect, since it only rebinds the local parameter | high; not executed | `Rdbms.Rdbms.Query`, `RdbmsProperties.ExactCapacityRejected`, `RdbmsProperties.ExactCapacityExample`, `RdbmsProperties.EmptyCursorZeroCapacity` | `Rdbms.Rdbms.QueryCorrected`, `RdbmsProperties.CorrectedEmptyZeroCapacity` |
| pkg/rdbms/rdbms.go:71-72 | the loop runs while `rows.Next()` and scans into `out[index]` | `out` with one group of one slot and a cursor yielding two one-column rows: the second iteration indexes `out[1]` and Go panics | the loop also stops at the last group: `for ; rows.Next(); index++ { if index == len(out) { break }; ... }` | medium; not executed | `Rdbms.Rdbms.Query`, `RdbmsProperties.LoopInBoundsExact`, `RdbmsProperties.OverCapacityExample` | `Rdbms.Rdbms.QueryCorrected`, `RdbmsProperties.CorrectedAgreesWhereDefined`, `RdbmsProperties.CorrectedFillsOverCapacity` |

## Left out

- The HTTP handlers of `internal/api/http/handlers.go`: request parsing, logging, tokens and status codes. Only their use of `ErrNotFound` by text equality informs `Errors.KindOf`.
- The query text and the input bindings: they only reach the driver, whose answers are parameters of the model.
- The internals of `database/sql` and the driver: SQL parsing, placeholder binding, connection pooling, contexts, and the cursor `Row.Scan` opens and closes internally.
- Go's run-time conversions in `Scan`: a slot holds a value of one generic type. A conversion that fails after some destinations were written is not modelled; a row error is taken to write nothing.
- Aliasing between slot groups: `out[i]` in Go holds pointers that two groups could share; the model gives each group its own storage.
- `MigrateDirection` and its constants, which nothing in the executor uses.
- Concurrency between callers: the executor holds no shared mutable state.
- The 64-bit width of the affected-row count: the count is compared with zero only, so an unbounded integer behaves the same.
