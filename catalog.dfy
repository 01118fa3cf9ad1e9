/** The database objects the tool works with (Models/Table.cs), as plain values. */
module Catalog {

  /** A table, named by its schema and its name. */
  datatype TableRef = TableRef(schema: string, name: string)

  /** "[schema].[name]", as written in generated SQL and comments. */
  function FullName(t: TableRef): string {
    "[" + t.schema + "].[" + t.name + "]"
  }
}
