/** The query executor of package `rdbms`: `QueryRow`, `Query` and `Execute` over a driver whose
    every answer is supplied as data. The functions in the first half say what each call returns
    and leaves in the caller's buffer; the class in the second half runs the calls step by step,
    tracking every statement and cursor it opens and closes. */
module Rdbms {
  import opened Wrappers
  import opened Driver
  import opened Errors

  // ---------------------------------------------------------------- single-row fetch

  /** The error `QueryRow` returns when `Prepare` reported `prepare` and the row came back as
      `fetched`, scanned into `width` destinations. */
  function QueryRowError<V>(prepare: Option<DriverError>, fetched: Fetched<V>, width: nat): Option<string> {
    if prepare.Some? then Some(Wrap(ErrPrepareStatement, prepare.value.Message()))
    else match ScanError(fetched, width)
      case None => None
      case Some(e) => Some(ClassifyScanError(e))
  }

  /** What the destinations hold after `QueryRow`: the row, if it was scanned, else what they held. */
  function QueryRowSlots<V>(prepare: Option<DriverError>, fetched: Fetched<V>, slots: seq<V>): seq<V> {
    if prepare.None? && ScanError(fetched, |slots|).None? then fetched.values else slots
  }

  // ---------------------------------------------------------------- multi-row fetch

  /** The number of leading rows that scan successfully into the slot groups, one group per row:
      the longest such prefix that both sequences cover. */
  function GoodPrefix<V>(rows: seq<Fetched<V>>, slots: seq<seq<V>>): (n: nat)
    ensures n <= |rows| && n <= |slots|
    ensures forall j :: 0 <= j < n ==> ScanError(rows[j], |slots[j]|).None?
    ensures n < |rows| && n < |slots| ==> ScanError(rows[n], |slots[n]|).Some?
  {
    if rows == [] || slots == [] || ScanError(rows[0], |slots[0]|).Some? then 0
    else 1 + GoodPrefix(rows[1..], slots[1..])
  }

  /** The loop at the heart of `Query` never indexes past the end of `out`: every row that
      `rows.Next()` yields before the first scan failure (and that failing row) has a slot group. */
  predicate LoopInBounds<V>(rows: seq<Fetched<V>>, slots: seq<seq<V>>) {
    GoodPrefix(rows, slots) == |rows| || GoodPrefix(rows, slots) < |slots|
  }

  /** As written, `Query` reslices `out[:index+1]` once every row has been scanned, which Go
      permits only when `index + 1` is within the slice's capacity. */
  predicate ResliceInBounds<V>(rows: seq<Fetched<V>>, slots: seq<seq<V>>, capacity: nat) {
    GoodPrefix(rows, slots) == |rows| ==> |rows| + 1 <= capacity
  }

  /** `Query` gets past `Prepare` and `stmt.Query` and walks the cursor. */
  predicate ReachesLoop(prepare: Option<DriverError>, open: Option<DriverError>) {
    prepare.None? && open.None?
  }

  /** The slot groups after the first `n` rows have been scanned into them, one by one. */
  function Filled<V>(slots: seq<seq<V>>, rows: seq<Fetched<V>>, n: nat): (r: seq<seq<V>>)
    requires n <= GoodPrefix(rows, slots)
    ensures |r| == |slots|
  {
    if n == 0 then slots
    else
      assert ScanError(rows[n - 1], |slots[n - 1]|).None?;
      Filled(slots, rows, n - 1)[n - 1 := rows[n - 1].values]
  }

  /** Row `j` of the filled groups: the `j`-th row's values if it was scanned, else untouched. */
  lemma {:induction false} FilledAt<V>(slots: seq<seq<V>>, rows: seq<Fetched<V>>, n: nat, j: nat)
    requires n <= GoodPrefix(rows, slots) && j < |slots|
    ensures j < n ==> rows[j] == Row(Filled(slots, rows, n)[j])
    ensures n <= j ==> Filled(slots, rows, n)[j] == slots[j]
  {
    if n > 0 {
      FilledAt(slots, rows, n - 1, j);
      assert ScanError(rows[n - 1], |slots[n - 1]|).None?;
    }
  }

  /** A cursor that yields no more rows than there are slot groups keeps the loop in bounds. */
  lemma FittingCursorInBounds<V>(rows: seq<Fetched<V>>, slots: seq<seq<V>>)
    requires |rows| <= |slots|
    ensures LoopInBounds(rows, slots)
  {
  }

  /** The cursor as far as a loop that also stops at the last slot group reads it
      (`for ; rows.Next(); index++ { if index == len(out) { break }; ... }`): the rows it
      reaches, and what `rows.Err()` reports. `Next` records an error only when it runs out of
      rows, so a cursor left with rows unread reports none. */
  function Truncate<V>(cursor: Cursor<V>, slots: seq<seq<V>>): (c: Cursor<V>)
    ensures |c.rows| <= |slots| && LoopInBounds(c.rows, slots)
    ensures c.rows <= cursor.rows
  {
    if |cursor.rows| <= |slots| then
      FittingCursorInBounds(cursor.rows, slots);
      cursor
    else
      FittingCursorInBounds(cursor.rows[..|slots|], slots);
      Cursor(cursor.rows[..|slots|], None)
  }

  /** Cutting the rows after the first failing one does not move the scanned prefix. */
  lemma {:induction false} GoodPrefixOfPrefix<V>(rows: seq<Fetched<V>>, slots: seq<seq<V>>, m: nat)
    requires GoodPrefix(rows, slots) < m <= |rows|
    ensures GoodPrefix(rows[..m], slots) == GoodPrefix(rows, slots)
  {
    if slots != [] && ScanError(rows[0], |slots[0]|).None? {
      assert rows[..m][1..] == rows[1..][..m - 1];
      GoodPrefixOfPrefix(rows[1..], slots[1..], m - 1);
    }
  }

  /** Cutting a cursor at the last group keeps every group's row scannable. */
  lemma {:induction false} GoodPrefixOfFullPrefix<V>(rows: seq<Fetched<V>>, slots: seq<seq<V>>)
    requires |slots| <= |rows| && GoodPrefix(rows, slots) == |slots|
    ensures GoodPrefix(rows[..|slots|], slots) == |slots|
  {
    if slots != [] {
      assert rows[..|slots|][1..] == rows[1..][..|slots| - 1];
      GoodPrefixOfFullPrefix(rows[1..], slots[1..]);
    }
  }

  /** Filling depends only on the rows that are scanned. */
  lemma {:induction false} FilledAgree<V>(slots: seq<seq<V>>, rows: seq<Fetched<V>>, rows': seq<Fetched<V>>, n: nat)
    requires n <= GoodPrefix(rows, slots) && n <= GoodPrefix(rows', slots)
    requires rows[..n] == rows'[..n]
    ensures Filled(slots, rows, n) == Filled(slots, rows', n)
  {
    if n > 0 {
      assert rows[..n - 1] == rows'[..n - 1] && rows[n - 1] == rows'[n - 1] by {
        assert rows[..n][n - 1] == rows'[..n][n - 1];
        assert rows[..n - 1] == rows[..n][..n - 1] && rows'[..n - 1] == rows'[..n][..n - 1];
      }
      FilledAgree(slots, rows, rows', n - 1);
    }
  }

  /** The error `Query` returns. */
  function QueryError<V>(prepare: Option<DriverError>, open: Option<DriverError>, cursor: Cursor<V>, slots: seq<seq<V>>): Option<string>
    requires ReachesLoop(prepare, open) ==> LoopInBounds(cursor.rows, slots)
  {
    if prepare.Some? then Some(Wrap(ErrPrepareStatement, prepare.value.Message()))
    else if open.Some? then Some(Wrap(QueryFailed, open.value.Message()))
    else
      var n := GoodPrefix(cursor.rows, slots);
      if n < |cursor.rows| then Some(Wrap(RowScanFailed, ScanError(cursor.rows[n], |slots[n]|).value.Message()))
      else if cursor.err.Some? then Some(Wrap(CursorFailed, cursor.err.value.Message()))
      else None
  }

  /** What the slot groups hold after `Query`. */
  function QuerySlots<V>(prepare: Option<DriverError>, open: Option<DriverError>, cursor: Cursor<V>, slots: seq<seq<V>>): seq<seq<V>>
  {
    if ReachesLoop(prepare, open) then Filled(slots, cursor.rows, GoodPrefix(cursor.rows, slots)) else slots
  }

  // ---------------------------------------------------------------- write

  /** The error `Execute` returns. */
  function ExecuteError(prepare: Option<DriverError>, exec: Option<DriverError>, affected: RowsAffected): Option<string> {
    if prepare.Some? then Some(Wrap(ErrPrepareStatement, prepare.value.Message()))
    else if exec.Some? then Some(ClassifyExecError(exec.value))
    else AffectedOutcome(affected)
  }

  // ---------------------------------------------------------------- handle lifetime

  /** Acquiring and releasing the driver-side handles. */
  datatype HandleEvent = StatementPrepared | StatementClosed | CursorOpened | CursorClosed

  function Count(t: seq<HandleEvent>, e: HandleEvent): nat {
    if t == [] then 0 else (if t[0] == e then 1 else 0) + Count(t[1..], e)
  }

  lemma {:induction false} CountAppend(a: seq<HandleEvent>, b: seq<HandleEvent>, e: HandleEvent)
    ensures Count(a + b, e) == Count(a, e) + Count(b, e)
  {
    if a == [] {
      assert a + b == b;
    } else {
      assert (a + b)[1..] == a[1..] + b;
      CountAppend(a[1..], b, e);
    }
  }

  /** The handle events of `QueryRow` and `Execute`: the statement is prepared and, by the
      deferred `stmt.Close()`, closed exactly once, unless preparing it failed. */
  function StatementTrace(prepared: bool): (t: seq<HandleEvent>)
    ensures Count(t, StatementPrepared) == Count(t, StatementClosed) == if prepared then 1 else 0
    ensures Count(t, CursorOpened) == Count(t, CursorClosed) == 0
    ensures t != [] ==> t[0] == StatementPrepared && t[|t| - 1] == StatementClosed
  {
    if prepared then [StatementPrepared, StatementClosed] else []
  }

  /** The handle events of `Query`: the statement as above; the cursor is opened only when
      `stmt.Query` succeeds and is then closed exactly once, before the statement (deferred calls
      run last-in first-out). */
  function QueryTrace(prepare: Option<DriverError>, open: Option<DriverError>): (t: seq<HandleEvent>)
    ensures Count(t, StatementPrepared) == Count(t, StatementClosed) == if prepare.None? then 1 else 0
    ensures Count(t, CursorOpened) == Count(t, CursorClosed) == if ReachesLoop(prepare, open) then 1 else 0
    ensures t != [] ==> t[0] == StatementPrepared && t[|t| - 1] == StatementClosed
    ensures ReachesLoop(prepare, open) ==> t[|t| - 2] == CursorClosed
  {
    if prepare.Some? then []
    else if open.Some? then [StatementPrepared, StatementClosed]
    else [StatementPrepared, CursorOpened, CursorClosed, StatementClosed]
  }

  /** The row loop of `Query`: scan row `index` into `out[index]` until the cursor is exhausted
      or a scan fails. */
  method ScanRows<V>(rows: seq<Fetched<V>>, out: array<seq<V>>) returns (index: nat, failure: Option<DriverError>)
    requires LoopInBounds(rows, out[..])
    modifies out
    ensures index == GoodPrefix(rows, old(out[..]))
    ensures failure.None? <==> index == |rows|
    ensures failure.Some? ==> index < out.Length && failure == ScanError(rows[index], |old(out[index])|)
    ensures out[..] == Filled(old(out[..]), rows, index)
  {
    ghost var slots := out[..];
    index := 0;
    while index < |rows|
      invariant index <= GoodPrefix(rows, slots)
      invariant out[..] == Filled(slots, rows, index)
    {
      FilledAt(slots, rows, index, index);
      failure := ScanError(rows[index], |out[index]|);
      if failure.Some? {
        return;
      }
      out[index] := rows[index].values;
      index := index + 1;
    }
    failure := None;
  }

  /** The executor. Its only state is ghost: the handle events so far and the number of
      statements and cursors currently open. */
  class Rdbms {
    ghost var trace: seq<HandleEvent>
    ghost var openStatements: nat
    ghost var openCursors: nat

    /** The open counts are what the trace has opened and not yet closed. */
    ghost predicate Valid()
      reads this
    {
      Count(trace, StatementPrepared) == Count(trace, StatementClosed) + openStatements &&
      Count(trace, CursorOpened) == Count(trace, CursorClosed) + openCursors
    }

    constructor ()
      ensures Valid() && trace == [] && openStatements == 0 && openCursors == 0
    {
      trace, openStatements, openCursors := [], 0, 0;
    }

    /** Record one handle event; a handle is closed only while one is open. */
    ghost method Record(e: HandleEvent)
      requires Valid()
      requires e == StatementClosed ==> openStatements > 0
      requires e == CursorClosed ==> openCursors > 0
      modifies this
      ensures Valid() && trace == old(trace) + [e]
      ensures openStatements == old(openStatements) + (if e == StatementPrepared then 1 else 0) - (if e == StatementClosed then 1 else 0)
      ensures openCursors == old(openCursors) + (if e == CursorOpened then 1 else 0) - (if e == CursorClosed then 1 else 0)
    {
      CountAppend(trace, [e], StatementPrepared);
      CountAppend(trace, [e], StatementClosed);
      CountAppend(trace, [e], CursorOpened);
      CountAppend(trace, [e], CursorClosed);
      trace := trace + [e];
      match e
      case StatementPrepared => openStatements := openStatements + 1;
      case StatementClosed => openStatements := openStatements - 1;
      case CursorOpened => openCursors := openCursors + 1;
      case CursorClosed => openCursors := openCursors - 1;
    }

    /** Fetch one row into `out`. */
    method QueryRow<V>(prepare: Option<DriverError>, fetched: Fetched<V>, out: array<V>) returns (err: Option<string>)
      requires Valid()
      modifies this, out
      ensures Valid()
      ensures err == QueryRowError(prepare, fetched, out.Length)
      ensures out[..] == QueryRowSlots(prepare, fetched, old(out[..]))
      ensures trace == old(trace) + StatementTrace(prepare.None?)
      ensures openStatements == old(openStatements) && openCursors == old(openCursors)
    {
      if prepare.Some? {
        return Some(Wrap(ErrPrepareStatement, prepare.value.Message()));
      }
      Record(StatementPrepared);
      var scanned := ScanError(fetched, out.Length);
      if scanned.Some? {
        err := Some(ClassifyScanError(scanned.value));
      } else {
        forall k | 0 <= k < out.Length {
          out[k] := fetched.values[k];
        }
        err := None;
      }
      Record(StatementClosed);  // the deferred stmt.Close()
    }

    /** Fetch rows into the slot groups of `out`, one group per row, as the source has it:
        `capacity` is `cap(out)`. */
    method Query<V>(prepare: Option<DriverError>, open: Option<DriverError>, cursor: Cursor<V>, out: array<seq<V>>, capacity: nat)
      returns (err: Option<string>)
      requires Valid()
      requires out.Length <= capacity
      requires ReachesLoop(prepare, open) ==>
        LoopInBounds(cursor.rows, out[..]) && ResliceInBounds(cursor.rows, out[..], capacity)
      modifies this, out
      ensures Valid()
      ensures err == QueryError(prepare, open, cursor, old(out[..]))
      ensures out[..] == QuerySlots(prepare, open, cursor, old(out[..]))
      ensures trace == old(trace) + QueryTrace(prepare, open)
      ensures openStatements == old(openStatements) && openCursors == old(openCursors)
    {
      if prepare.Some? {
        return Some(Wrap(ErrPrepareStatement, prepare.value.Message()));
      }
      Record(StatementPrepared);
      if open.Some? {
        err := Some(Wrap(QueryFailed, open.value.Message()));
      } else {
        Record(CursorOpened);
        var index, failure := ScanRows(cursor.rows, out);
        if failure.Some? {
          err := Some(Wrap(RowScanFailed, failure.value.Message()));
        } else {
          // out = out[:index+1] rebinds the local slice only, and is in bounds only up to cap(out)
          assert index + 1 <= capacity;
          err := if cursor.err.Some? then Some(Wrap(CursorFailed, cursor.err.value.Message())) else None;
        }
        Record(CursorClosed);  // the deferred rows.Close()
      }
      Record(StatementClosed);  // the deferred stmt.Close()
    }

    /** `Query` corrected: the loop also stops at the last slot group
        (`for ; rows.Next(); index++ { if index == len(out) { break }; ... }`) and the reslice is
        `out[:index]`, the rows actually scanned. It needs nothing of the cursor. */
    method QueryCorrected<V>(prepare: Option<DriverError>, open: Option<DriverError>, cursor: Cursor<V>, out: array<seq<V>>, capacity: nat)
      returns (err: Option<string>)
      requires Valid()
      requires out.Length <= capacity
      modifies this, out
      ensures Valid()
      ensures err == QueryError(prepare, open, Truncate(cursor, old(out[..])), old(out[..]))
      ensures out[..] == QuerySlots(prepare, open, Truncate(cursor, old(out[..])), old(out[..]))
      ensures trace == old(trace) + QueryTrace(prepare, open)
      ensures openStatements == old(openStatements) && openCursors == old(openCursors)
    {
      if prepare.Some? {
        return Some(Wrap(ErrPrepareStatement, prepare.value.Message()));
      }
      Record(StatementPrepared);
      if open.Some? {
        err := Some(Wrap(QueryFailed, open.value.Message()));
      } else {
        Record(CursorOpened);
        // the rows the bounded loop reaches
        var reached := Truncate(cursor, out[..]);
        var index, failure := ScanRows(reached.rows, out);
        if failure.Some? {
          err := Some(Wrap(RowScanFailed, failure.value.Message()));
        } else {
          // out = out[:index] is always within the capacity
          assert index <= capacity;
          err := if reached.err.Some? then Some(Wrap(CursorFailed, reached.err.value.Message())) else None;
        }
        Record(CursorClosed);
      }
      Record(StatementClosed);
    }

    /** Run a statement that changes rows. */
    method Execute(prepare: Option<DriverError>, exec: Option<DriverError>, affected: RowsAffected) returns (err: Option<string>)
      requires Valid()
      modifies this
      ensures Valid()
      ensures err == ExecuteError(prepare, exec, affected)
      ensures trace == old(trace) + StatementTrace(prepare.None?)
      ensures openStatements == old(openStatements) && openCursors == old(openCursors)
    {
      if prepare.Some? {
        return Some(Wrap(ErrPrepareStatement, prepare.value.Message()));
      }
      Record(StatementPrepared);
      if exec.Some? {
        err := Some(ClassifyExecError(exec.value));
      } else {
        err := AffectedOutcome(affected);
      }
      Record(StatementClosed);  // the deferred stmt.Close()
    }
  }
}
