/** The executor's error messages and the taxonomy they encode. The source declares the three
    sentinel messages as package variables and compares errors with them by text; nothing in the
    executor reassigns them, so they are constants here. */
module Errors {
  import opened Wrappers
  import opened Driver
  import Strings

  const ErrPrepareStatement: string := "Error when tying to prepare statement"
  const ErrNotFound: string := "Error no entry found with given arguments"
  // The two longest messages are written in two pieces: the verifier reads the characters of a
  // short literal but not those of one over about fifty characters.
  const ErrDuplicate: string := "Error operation canceled" + " due to the duplication entry"

  /** The driver text that marks a uniqueness violation. */
  const DuplicateEntry: string := "Duplicate entry"

  /** Context lines the executor puts in front of a wrapped driver message. */
  const QueryRowFailed: string := "Error while executing the query" + " or scanning the row"
  const QueryFailed: string := "Error executing the query"
  const RowScanFailed: string := "Error while scanning the row"
  const CursorFailed: string := "There's an error in result of the query"
  const ExecFailed: string := "error when tying to excute statement"
  const AffectedFailed: string := "error getting number of rows affected"

  const ExecutionContexts: set<string> :=
    {QueryRowFailed, QueryFailed, RowScanFailed, CursorFailed, ExecFailed, AffectedFailed}

  /** `fmt.Errorf("%s\n%v", context, cause)`. */
  function Wrap(context: string, cause: string): string {
    context + "\n" + cause
  }

  /** The four kinds of failure a caller can tell apart. */
  datatype ErrorKind = PreparationFailed | Duplicate | NotFound | ExecutionFailed

  /** How a caller reads the kind back from a returned message: the two sentinels by equality
      (as the HTTP handlers do with `ErrNotFound`), a preparation failure by its leading line,
      everything else as a generic execution failure. */
  function KindOf(message: string): ErrorKind {
    if message == ErrNotFound then NotFound
    else if message == ErrDuplicate then Duplicate
    else if ErrPrepareStatement <= message then PreparationFailed
    else ExecutionFailed
  }

  /** Two messages that disagree at one index are different, and neither is a prefix of the other. */
  lemma DisagreeAt(context: string, cause: string, target: string, k: nat)
    requires k < |context| && k < |target| && context[k] != target[k]
    ensures Wrap(context, cause) != target && !(target <= Wrap(context, cause))
  {
  }

  /** A wrapped preparation failure reads back as a preparation failure, whatever the cause. */
  lemma PrepareFailureKind(cause: string)
    ensures ErrPrepareStatement <= Wrap(ErrPrepareStatement, cause)
    ensures KindOf(Wrap(ErrPrepareStatement, cause)) == PreparationFailed
  {
    DisagreeAt(ErrPrepareStatement, cause, ErrNotFound, 6);
    DisagreeAt(ErrPrepareStatement, cause, ErrDuplicate, 6);
  }

  /** Every generic wrapped failure reads back as an execution failure: it never equals a
      sentinel and never starts with the preparation-failure line, whatever the cause. */
  lemma WrappedFailureKind(context: string, cause: string)
    requires context in ExecutionContexts
    ensures KindOf(Wrap(context, cause)) == ExecutionFailed
  {
    if context == QueryRowFailed || context == RowScanFailed {
      // "Error while ..." parts from "Error no", "Error op" and "Error when" early
      DisagreeAt(context, cause, ErrNotFound, 6);
      DisagreeAt(context, cause, ErrDuplicate, 6);
      DisagreeAt(context, cause, ErrPrepareStatement, 8);
    } else if context == QueryFailed {
      DisagreeAt(context, cause, ErrNotFound, 6);
      DisagreeAt(context, cause, ErrDuplicate, 6);
      DisagreeAt(context, cause, ErrPrepareStatement, 6);
    } else {
      // the remaining contexts do not start with "Error"
      DisagreeAt(context, cause, ErrNotFound, 0);
      DisagreeAt(context, cause, ErrDuplicate, 0);
      DisagreeAt(context, cause, ErrPrepareStatement, 0);
    }
  }

  /** `sql.ErrNoRows`' own text never looks like a uniqueness violation. */
  lemma NoRowsIsNotDuplicate()
    ensures !Strings.Contains(NoRows.Message(), DuplicateEntry)
  {
    assert DuplicateEntry[0] == 'D';
    Strings.AbsentFirstCharacter(NoRows.Message(), DuplicateEntry);
  }

  /** The text of `Scan`'s width-mismatch error never looks like a uniqueness violation either,
      so a row of the wrong width is always a generic failure. */
  lemma ColumnCountIsNotDuplicate(e: DriverError)
    ensures e.ColumnCount? ==> !Strings.Contains(e.Message(), DuplicateEntry)
  {
    if e.ColumnCount? {
      Strings.DecimalDigits(e.columns);
      Strings.DecimalDigits(e.slots);
      assert 'D' !in "sql: expected " && 'D' !in " destination arguments in Scan, not ";
      assert 'D' !in Strings.Decimal(e.columns) && 'D' !in Strings.Decimal(e.slots);
      assert DuplicateEntry[0] == 'D';
      Strings.AbsentFirstCharacter(e.Message(), DuplicateEntry);
    }
  }

  /** The classification of a failed single-row fetch. The duplicate test runs first, then the
      identity test against `sql.ErrNoRows`; everything else is wrapped. */
  function ClassifyScanError(e: DriverError): (message: string)
    ensures message == ErrDuplicate <==> Strings.Contains(e.Message(), DuplicateEntry)
    ensures e == NoRows ==> message == ErrNotFound
    ensures KindOf(message) ==
      if Strings.Contains(e.Message(), DuplicateEntry) then Duplicate
      else if e == NoRows then NotFound
      else ExecutionFailed
    ensures e.ColumnCount? ==> KindOf(message) == ExecutionFailed
  {
    NoRowsIsNotDuplicate();
    ColumnCountIsNotDuplicate(e);
    if Strings.Contains(e.Message(), DuplicateEntry) then ErrDuplicate
    else if e == NoRows then ErrNotFound
    else
      WrappedFailureKind(QueryRowFailed, e.Message());
      Wrap(QueryRowFailed, e.Message())
  }

  /** The classification of a failed `Exec`: a uniqueness violation or a wrapped failure. */
  function ClassifyExecError(e: DriverError): (message: string)
    ensures message == ErrDuplicate <==> Strings.Contains(e.Message(), DuplicateEntry)
    ensures message != ErrNotFound
    ensures KindOf(message) ==
      if Strings.Contains(e.Message(), DuplicateEntry) then Duplicate else ExecutionFailed
  {
    if Strings.Contains(e.Message(), DuplicateEntry) then ErrDuplicate
    else
      WrappedFailureKind(ExecFailed, e.Message());
      Wrap(ExecFailed, e.Message())
  }

  /** The verdict on a statement that executed: a failure to read the count is wrapped, zero
      affected rows means the target row does not exist, any other count is success. */
  function AffectedOutcome(affected: RowsAffected): (err: Option<string>)
    ensures err.None? <==> affected.Affected? && affected.count != 0
    ensures err == Some(ErrNotFound) <==> affected == Affected(0)
    ensures err.Some? ==> KindOf(err.value) == if affected.Affected? then NotFound else ExecutionFailed
  {
    match affected
    case AffectedError(e) =>
      WrappedFailureKind(AffectedFailed, e.Message());
      Some(Wrap(AffectedFailed, e.Message()))
    case Affected(count) =>
      if count == 0 then Some(ErrNotFound) else None
  }
}
