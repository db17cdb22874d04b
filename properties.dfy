/** What the three executor calls promise their callers, stated over the functions that the
    methods of `Rdbms.Rdbms` are proved to compute. */
module RdbmsProperties {
  import opened Wrappers
  import opened Strings
  import opened Driver
  import opened Errors
  import opened Rdbms

  // ---------------------------------------------------------------- QueryRow

  /** A failed `Prepare` is reported with the preparation-failure line first, and nothing is
      written and no statement is opened. */
  lemma QueryRowPrepareFailure<V>(prepare: Option<DriverError>, fetched: Fetched<V>, slots: seq<V>)
    requires prepare.Some?
    ensures var err := QueryRowError(prepare, fetched, |slots|);
      err.Some? && ErrPrepareStatement <= err.value && KindOf(err.value) == PreparationFailed
    ensures QueryRowSlots(prepare, fetched, slots) == slots
    ensures StatementTrace(prepare.None?) == []
  {
    PrepareFailureKind(prepare.value.Message());
  }

  /** A failed fetch is a duplicate exactly when the driver's text says so (tested first), else
      not-found for `sql.ErrNoRows`, else a wrapped failure that a caller cannot mistake for
      either sentinel; the destinations are left as they were. */
  lemma QueryRowClassification<V>(fetched: Fetched<V>, slots: seq<V>)
    requires fetched.RowError?
    ensures var err := QueryRowError(None, fetched, |slots|);
      var dup := Contains(fetched.error.Message(), DuplicateEntry);
      && err.Some?
      && (err.value == ErrDuplicate <==> dup)
      && (fetched.error == NoRows ==> err.value == ErrNotFound)
      && (!dup && fetched.error != NoRows ==>
            KindOf(err.value) == ExecutionFailed && err.value != ErrNotFound && err.value != ErrDuplicate)
    ensures QueryRowSlots(None, fetched, slots) == slots
  {
  }

  /** `QueryRow` succeeds exactly when the statement was prepared and the row has one column per
      destination; it then leaves column `k` in destination `k`, and on every failure it writes nothing. */
  lemma QueryRowSuccess<V>(prepare: Option<DriverError>, fetched: Fetched<V>, slots: seq<V>)
    ensures var err := QueryRowError(prepare, fetched, |slots|);
      err.None? <==> prepare.None? && fetched.Row? && |fetched.values| == |slots|
    ensures var err := QueryRowError(prepare, fetched, |slots|);
      var out := QueryRowSlots(prepare, fetched, slots);
      && |out| == |slots|
      && (err.None? ==> forall k :: 0 <= k < |slots| ==> out[k] == fetched.values[k])
      && (err.Some? ==> out == slots)
  {
  }

  // ---------------------------------------------------------------- Query

  /** A failed `Prepare` is reported with the preparation-failure line first; nothing is written
      and neither a statement nor a cursor is opened. */
  lemma QueryPrepareFailure<V>(prepare: Option<DriverError>, open: Option<DriverError>, cursor: Cursor<V>, slots: seq<seq<V>>)
    requires prepare.Some?
    ensures var err := QueryError(prepare, open, cursor, slots);
      err.Some? && ErrPrepareStatement <= err.value && KindOf(err.value) == PreparationFailed
    ensures QuerySlots(prepare, open, cursor, slots) == slots
    ensures QueryTrace(prepare, open) == []
  {
    PrepareFailureKind(prepare.value.Message());
  }

  /** A failed `stmt.Query` is a wrapped execution failure; nothing is written and no cursor is
      ever opened, while the prepared statement is still closed. */
  lemma QueryOpenFailure<V>(open: Option<DriverError>, cursor: Cursor<V>, slots: seq<seq<V>>)
    requires open.Some?
    ensures var err := QueryError(None, open, cursor, slots);
      err.Some? && KindOf(err.value) == ExecutionFailed
    ensures QuerySlots(None, open, cursor, slots) == slots
    ensures Count(QueryTrace(None, open), CursorOpened) == 0
    ensures Count(QueryTrace(None, open), StatementClosed) == 1
  {
    WrappedFailureKind(QueryFailed, open.value.Message());
  }

  /** A cursor that yields no rows and no error is a success, not a not-found, and leaves every
      slot group as it was. */
  lemma QueryEmptyCursor<V>(slots: seq<seq<V>>)
    ensures QueryError(None, None, Cursor([], None), slots) == None
    ensures QuerySlots(None, None, Cursor([], None), slots) == slots
  {
  }

  /** The slot groups after `Query`: group `j` holds row `j` for each of the rows scanned before
      the cursor ended or a scan failed; every other group is untouched. */
  lemma QueryWritesScannedRows<V>(cursor: Cursor<V>, slots: seq<seq<V>>)
    requires LoopInBounds(cursor.rows, slots)
    ensures var n := GoodPrefix(cursor.rows, slots);
      var out := QuerySlots(None, None, cursor, slots);
      && |out| == |slots|
      && (forall j :: 0 <= j < n ==> cursor.rows[j] == Row(out[j]))
      && (forall j :: n <= j < |slots| ==> out[j] == slots[j])
  {
    var n := GoodPrefix(cursor.rows, slots);
    forall j | 0 <= j < |slots|
      ensures j < n ==> cursor.rows[j] == Row(QuerySlots(None, None, cursor, slots)[j])
      ensures n <= j ==> QuerySlots(None, None, cursor, slots)[j] == slots[j]
    {
      FilledAt(slots, cursor.rows, n, j);
    }
  }

  /** A row of the wrong width is reported as a wrapped generic failure, never as a duplicate or
      not-found, and nothing is written. */
  lemma QueryRowWidthMismatch<V>(fetched: Fetched<V>, slots: seq<V>)
    requires fetched.Row? && |fetched.values| != |slots|
    ensures var err := QueryRowError(None, fetched, |slots|);
      err == Some(Wrap(QueryRowFailed, ColumnCount(|fetched.values|, |slots|).Message())) &&
      KindOf(err.value) == ExecutionFailed
    ensures QueryRowSlots(None, fetched, slots) == slots
  {
  }

  /** The first row that fails to scan stops the loop: `Query` reports that row's scan error,
      wrapped, and `rows.Err()` is not consulted. */
  lemma QueryStopsAtFirstScanFailure<V>(cursor: Cursor<V>, slots: seq<seq<V>>)
    requires LoopInBounds(cursor.rows, slots)
    requires GoodPrefix(cursor.rows, slots) < |cursor.rows|
    ensures var n := GoodPrefix(cursor.rows, slots);
      n < |slots| &&
      var failure := ScanError(cursor.rows[n], |slots[n]|);
      failure.Some? &&
      var err := QueryError(None, None, cursor, slots);
      err == Some(Wrap(RowScanFailed, failure.value.Message())) && KindOf(err.value) == ExecutionFailed
  {
    var n := GoodPrefix(cursor.rows, slots);
    WrappedFailureKind(RowScanFailed, ScanError(cursor.rows[n], |slots[n]|).value.Message());
  }

  /** After every row scanned, an error left in the cursor is still reported, wrapped. */
  lemma QueryCursorError<V>(cursor: Cursor<V>, slots: seq<seq<V>>)
    requires GoodPrefix(cursor.rows, slots) == |cursor.rows|
    requires cursor.err.Some?
    ensures var err := QueryError(None, None, cursor, slots);
      err == Some(Wrap(CursorFailed, cursor.err.value.Message())) && KindOf(err.value) == ExecutionFailed
  {
    WrappedFailureKind(CursorFailed, cursor.err.value.Message());
  }

  /** `Query` succeeds exactly when it got a cursor, scanned every row and the cursor ended
      cleanly; it never reports not-found or a duplicate. */
  lemma QueryOutcomeKinds<V>(prepare: Option<DriverError>, open: Option<DriverError>, cursor: Cursor<V>, slots: seq<seq<V>>)
    requires ReachesLoop(prepare, open) ==> LoopInBounds(cursor.rows, slots)
    ensures var err := QueryError(prepare, open, cursor, slots);
      err.None? <==>
        ReachesLoop(prepare, open) && GoodPrefix(cursor.rows, slots) == |cursor.rows| && cursor.err.None?
    ensures var err := QueryError(prepare, open, cursor, slots);
      err.Some? ==> KindOf(err.value) == (if prepare.Some? then PreparationFailed else ExecutionFailed)
  {
    if prepare.Some? {
      QueryPrepareFailure(prepare, open, cursor, slots);
    } else if open.Some? {
      QueryOpenFailure(open, cursor, slots);
    } else if GoodPrefix(cursor.rows, slots) < |cursor.rows| {
      QueryStopsAtFirstScanFailure(cursor, slots);
    } else if cursor.err.Some? {
      QueryCursorError(cursor, slots);
    }
  }

  // ---------------------------------------------------------------- Execute

  /** Every outcome of `Execute`: a failed `Prepare` is reported with the preparation-failure
      line first; a failed `Exec` is a duplicate exactly when the driver's text says so, else a
      wrapped failure; a count that cannot be read is a wrapped failure; zero affected rows is
      exactly not-found; any other count is success. */
  lemma ExecuteOutcomes(prepare: Option<DriverError>, exec: Option<DriverError>, affected: RowsAffected)
    ensures var err := ExecuteError(prepare, exec, affected);
      prepare.Some? ==> err.Some? && ErrPrepareStatement <= err.value && KindOf(err.value) == PreparationFailed
    ensures var err := ExecuteError(prepare, exec, affected);
      prepare.None? && exec.Some? ==>
        err.Some? &&
        KindOf(err.value) == (if Contains(exec.value.Message(), DuplicateEntry) then Duplicate else ExecutionFailed)
    ensures var err := ExecuteError(prepare, exec, affected);
      prepare.None? && exec.None? && affected.AffectedError? ==> err.Some? && KindOf(err.value) == ExecutionFailed
    ensures ExecuteError(prepare, exec, affected) == Some(ErrNotFound) <==>
      prepare.None? && exec.None? && affected == Affected(0)
    ensures ExecuteError(prepare, exec, affected).None? <==>
      prepare.None? && exec.None? && affected.Affected? && affected.count != 0
  {
    if prepare.Some? {
      PrepareFailureKind(prepare.value.Message());
    }
  }

  // ---------------------------------------------------------------- the two panics in Query

  /** As written, the loop indexes past the end of `out` exactly when the cursor has more rows
      than `out` has groups and every group receives a row before that. */
  lemma LoopInBoundsExact<V>(rows: seq<Fetched<V>>, slots: seq<seq<V>>)
    ensures LoopInBounds(rows, slots) <==> !(|slots| < |rows| && GoodPrefix(rows, slots) == |slots|)
  {
  }

  /** One such input: two one-column rows into a one-group buffer. */
  lemma OverCapacityExample()
    ensures !LoopInBounds([Row([0]), Row([0])], [[1]])
  {
    assert GoodPrefix([Row([0]), Row([0])], [[1]]) == 1;
  }

  /** As written, `Query` cannot be given a cursor that yields exactly `cap(out)` rows, all of
      which scan, when `len(out) == cap(out)`: the loop stays in bounds but the reslice does not. */
  lemma ExactCapacityRejected<V>(rows: seq<Fetched<V>>, slots: seq<seq<V>>, capacity: nat)
    requires GoodPrefix(rows, slots) == |rows| == |slots| == capacity
    ensures LoopInBounds(rows, slots)
    ensures !ResliceInBounds(rows, slots, capacity)
  {
  }

  /** One such input: a single one-column row into a one-group buffer of capacity one. */
  lemma ExactCapacityExample()
    ensures LoopInBounds([Row([0])], [[1]])
    ensures !ResliceInBounds([Row([0])], [[1]], 1)
  {
  }

  /** Another: an empty cursor and an empty buffer of capacity zero, which as written panics
      instead of succeeding. */
  lemma EmptyCursorZeroCapacity()
    ensures LoopInBounds<int>([], [])
    ensures !ResliceInBounds<int>([], [], 0)
  {
  }

  /** Wherever the as-written loop stays in bounds, the corrected `Query` (which reads the cursor
      only as far as the buffer reaches) returns the same error and leaves the same groups. */
  lemma CorrectedAgreesWhereDefined<V>(prepare: Option<DriverError>, open: Option<DriverError>, cursor: Cursor<V>, slots: seq<seq<V>>)
    requires ReachesLoop(prepare, open) ==> LoopInBounds(cursor.rows, slots)
    ensures QueryError(prepare, open, Truncate(cursor, slots), slots) == QueryError(prepare, open, cursor, slots)
    ensures QuerySlots(prepare, open, Truncate(cursor, slots), slots) == QuerySlots(prepare, open, cursor, slots)
  {
    if ReachesLoop(prepare, open) && |slots| < |cursor.rows| {
      var rows := cursor.rows;
      var t := Truncate(cursor, slots).rows;
      var n := GoodPrefix(rows, slots);
      assert t == rows[..|slots|];
      GoodPrefixOfPrefix(rows, slots, |slots|);
      assert rows[..|slots|][n] == rows[n];
      assert t[..n] == rows[..n];
      FilledAgree(slots, t, rows, n);
    }
  }

  /** On the inputs where the as-written loop panics (more rows than groups, every group
      scannable), the corrected `Query` succeeds with group `j` holding row `j` for every group. */
  lemma CorrectedFillsOverCapacity<V>(cursor: Cursor<V>, slots: seq<seq<V>>)
    requires |slots| < |cursor.rows| && GoodPrefix(cursor.rows, slots) == |slots|
    ensures !LoopInBounds(cursor.rows, slots)
    ensures QueryError(None, None, Truncate(cursor, slots), slots) == None
    ensures forall j :: 0 <= j < |slots| ==>
      cursor.rows[j] == Row(QuerySlots(None, None, Truncate(cursor, slots), slots)[j])
  {
    var t := Truncate(cursor, slots).rows;
    GoodPrefixOfFullPrefix(cursor.rows, slots);
    forall j | 0 <= j < |slots|
      ensures cursor.rows[j] == Row(QuerySlots(None, None, Truncate(cursor, slots), slots)[j])
    {
      FilledAt(slots, t, |slots|, j);
      assert t[j] == cursor.rows[j];
    }
  }

  /** Where the as-written reslice panics on an empty cursor into a buffer of capacity zero, the
      corrected `Query` succeeds and leaves the (empty) buffer as it was. */
  lemma CorrectedEmptyZeroCapacity()
    ensures QueryError<int>(None, None, Truncate(Cursor([], None), []), []) == None
    ensures QuerySlots<int>(None, None, Truncate(Cursor([], None), []), []) == []
  {
  }
}
