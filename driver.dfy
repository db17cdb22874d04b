/** Go's `database/sql` and the database driver, reduced to the outcomes they hand back to the
    executor. Nothing here performs I/O: each call the executor makes is answered by a value
    the caller of the model supplies. */
module Driver {
  import opened Wrappers
  import Strings

  /** A failure reported by `database/sql` or by the driver. */
  datatype DriverError =
    | NoRows                                 // the sentinel `sql.ErrNoRows`, recognised by identity
    | ColumnCount(columns: nat, slots: nat)  // `Scan` got a destination count different from the row's width
    | Failure(message: string)               // any other failure, known to the executor only by its text
  {
    /** The text `err.Error()` returns. */
    function Message(): string {
      match this
      case NoRows => "sql: no rows in result set"
      case ColumnCount(columns, slots) =>
        "sql: expected " + Strings.Decimal(columns) + " destination arguments in Scan, not " + Strings.Decimal(slots)
      case Failure(message) => message
    }
  }

  /** What the driver delivers for one result row: its column values, or the error that
      reading or converting it produced. */
  datatype Fetched<V> = Row(values: seq<V>) | RowError(error: DriverError)

  /** A result cursor: the rows `rows.Next()` yields in order, then what `rows.Err()` reports. */
  datatype Cursor<V> = Cursor(rows: seq<Fetched<V>>, err: Option<DriverError>)

  /** What `result.RowsAffected()` returns. */
  datatype RowsAffected = Affected(count: int) | AffectedError(error: DriverError)

  /** The stand-in for `database/sql`'s `Scan`: the error it returns when `row` is scanned into
      `width` destinations (a fetch error is passed on, a width mismatch is reported as such);
      `None` means every destination received its column. */
  function ScanError<V>(row: Fetched<V>, width: nat): Option<DriverError> {
    match row
    case RowError(error) => Some(error)
    case Row(values) => if |values| == width then None else Some(ColumnCount(|values|, width))
  }
}
