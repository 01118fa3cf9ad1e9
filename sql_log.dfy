/**
 * The target database, seen only through the statements sent to it: each
 * Sql.WriteRaw call appends its SQL text to the log, in call order.
 */
module SqlLog {

  class Database {
    /** The SQL batches executed so far, oldest first. */
    var log: seq<string>

    constructor ()
      ensures log == []
    {
      log := [];
    }

    /** Sql.WriteRaw: execute one batch of SQL text as it is, without parameters. */
    method WriteRaw(sql: string)
      modifies this
      ensures log == old(log) + [sql]
    {
      log := log + [sql];
    }
  }
}
