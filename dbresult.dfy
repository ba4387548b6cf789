/** Outcomes of the statements the repositories run against PostgreSQL. */
module DbResult {

  datatype Option<+T> = None | Some(value: T)

  /** The failures PostgreSQL or the query builder raise, one per kind of violated rule. */
  datatype DbError =
    | NoResult             // executeTakeFirstOrThrow found no row
    | InvalidStatement     // an UPDATE whose SET names no column
    | UniqueViolation      // a second account with the same account_number
    | ForeignKeyViolation  // a line naming a missing account, or an account still named by a line
    | NotNullViolation     // a NOT NULL column that received no value
    | InvalidEnumValue     // text that is not a label of the debit_credit enum
    | StringTooLong        // text longer than its varchar(n) column
    | OutOfRange           // a number outside the range of an integer (int4) column
    | InvalidDate          // text that PostgreSQL cannot read as a date
    | Unbalanced           // raised by ensure_journal_balance when the transaction commits

  datatype Result<+T> = Ok(value: T) | Err(error: DbError)
}
