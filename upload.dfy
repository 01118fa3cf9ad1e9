/**
 * Upload (Data.cs): a CSV file becomes a table in the dbo schema. The first
 * row names the columns, the first data row decides their types, and then
 * every data row, the sample row included, is sent as its own INSERT.
 *
 * The rows are the parser's output, taken as an input; the table name is
 * the file name without its extension, also an input.
 */
module CsvUpload {
  import opened Wrappers
  import opened Strings
  import opened ValueCodec
  import opened Columns
  import opened SqlLog

  /** The message of the IndexOutOfRangeException a short data row raises. */
  const IndexOutOfRange := "Index was outside the bounds of the array."

  /** The placeholders the two statement templates are built around. */
  const ValsSlot := "__VALS__"
  const ColsSlot := "__COLS__"

  // ---------------------------------------------------------------------------
  // The header row
  // ---------------------------------------------------------------------------

  /** A header field with every '[' and ']' removed: the column name. */
  function ColumnName(field: string): (name: string)
    ensures '[' !in name && ']' !in name
  {
    RemoveChar(RemoveChar(field, '['), ']')
  }

  /** A field without brackets is its own column name, so naming is idempotent. */
  lemma ColumnNameKeepsPlainNames(field: string)
    requires '[' !in field && ']' !in field
    ensures ColumnName(field) == field
  {
    RemoveCharAbsent(field, '[');
    RemoveCharAbsent(field, ']');
  }

  /** The columns the header row creates: named, with no type yet. */
  function HeaderColumns(row: seq<string>): (columns: seq<ColumnInfo>)
    ensures |columns| == |row|
  {
    seq(|row|, i requires 0 <= i < |row| => ColumnInfo(ColumnName(row[i]), "", None))
  }

  // ---------------------------------------------------------------------------
  // FormatInsert
  // ---------------------------------------------------------------------------

  /** The texts a bit column stores as 1. */
  predicate IsTruthy(val: string) {
    var l := ToLower(val);
    l == "true" || l == "y" || l == "yes" || l == "1"
  }

  /** The literal FormatInsert writes for one field of a column of type t. */
  function FieldLiteral(t: Option<ClrType>, val: string): string {
    if val == "" then "null"
    else if t == Some(BoolType) then (if IsTruthy(val) then "1" else "0")
    else if t == Some(DecimalType) || t == Some(LongType) then val
    else QuoteLiteral(val)
  }

  /** One literal per column, from the field at the column's position. */
  function FieldLiterals(columns: seq<ColumnInfo>, row: seq<string>): (values: seq<string>)
    requires |row| >= |columns|
    ensures |values| == |columns|
  {
    seq(|columns|, i requires 0 <= i < |columns| => FieldLiteral(columns[i].dataType, row[i]))
  }

  /** The statement for one row: the literals, joined by ", ", in place of __VALS__. */
  function InsertSql(insert: string, columns: seq<ColumnInfo>, row: seq<string>): string
    requires |row| >= |columns|
  {
    ReplaceAll(insert, ValsSlot, Join(", ", FieldLiterals(columns, row)))
  }

  /**
   * FormatInsert: one literal per column, read from the field at the same
   * position; a row shorter than the column list raises, fields past the
   * last column are ignored.
   */
  method FormatInsert(insert: string, columns: seq<ColumnInfo>, row: seq<string>) returns (r: Result<string, string>)
    ensures r.Failure? <==> |row| < |columns|
    ensures r.Failure? ==> r.error == IndexOutOfRange
    ensures r.Success? ==> |row| >= |columns| && r.value == InsertSql(insert, columns, row)
  {
    var values: seq<string> := [];
    for i := 0 to |columns|
      invariant i <= |row| && |values| == i
      invariant forall k :: 0 <= k < i ==> values[k] == FieldLiteral(columns[k].dataType, row[k])
    {
      if i >= |row| {
        return Failure(IndexOutOfRange);
      }
      var c := columns[i];
      var val := row[i];
      if val == "" {
        values := values + ["null"];
      } else if c.dataType == Some(BoolType) {
        var l := ToLower(val);
        values := values + [if l == "true" || l == "y" || l == "yes" || l == "1" then "1" else "0"];
      } else if c.dataType == Some(DecimalType) || c.dataType == Some(LongType) {
        values := values + [val];
      } else {
        values := values + ["'" + ReplaceAll(val, "'", "''") + "'"];
      }
    }
    assert values == FieldLiterals(columns, row);
    r := Success(ReplaceAll(insert, ValsSlot, Join(", ", values)));
  }

  /**
   * What each literal means: an empty field is NULL, a bit column gets 0 or
   * 1, a number column the text itself, and any other column a string
   * literal that SQL reads back as exactly the field's text.
   */
  lemma FieldLiteralMeaning(t: Option<ClrType>, val: string)
    ensures val == "" ==> FieldLiteral(t, val) == "null"
    ensures val != "" && t == Some(BoolType) ==>
      (FieldLiteral(t, val) == "1" <==> IsTruthy(val)) && (FieldLiteral(t, val) == "0" <==> !IsTruthy(val))
    ensures val != "" && (t == Some(LongType) || t == Some(DecimalType)) ==> FieldLiteral(t, val) == val
    ensures val != "" && t != Some(BoolType) && t != Some(LongType) && t != Some(DecimalType) ==>
      FieldLiteral(t, val)[0] == '\'' && ReadQuoted(FieldLiteral(t, val)[1..]) == Some((val, ""))
  {
    if val != "" && t != Some(BoolType) && t != Some(LongType) && t != Some(DecimalType) {
      QuotedItem(val, "");
      assert QuoteLiteral(val) + "" == QuoteLiteral(val);
    }
  }

  /**
   * The sample that made a column a bit column is written consistently:
   * "true" in any letter case as 1 and "false" as 0, as long as the parser
   * delivered it without surrounding white space.
   */
  lemma SampleBoolLiteral(p: Parsers, val: string)
    requires DeriveDataType(p, val) == BoolType
    requires TrimStart(val) == val && TrimEnd(val) == val
    ensures FieldLiteral(Some(BoolType), val) == (if ToLower(val) == "true" then "1" else "0")
  {
    var l := ToLower(val);
    assert l == "true" || l == "false";
    if l == "false" {
      assert l != "y" && l != "yes" && l != "1";
    }
  }

  // ---------------------------------------------------------------------------
  // The statements Upload sends
  // ---------------------------------------------------------------------------

  function DropStatement(tableName: string): string {
    "\ndrop table if exists [dbo].[" + tableName + "];\n"
  }

  /** "[name]" for each column, in order. */
  function BracketedNames(columns: seq<ColumnInfo>): (names: seq<string>)
    ensures |names| == |columns|
  {
    seq(|columns|, i requires 0 <= i < |columns| => "[" + columns[i].name + "]")
  }

  /** The INSERT template up to the end of the column list. */
  function InsertHead(tableName: string, columns: seq<ColumnInfo>): string {
    "insert into [dbo].[" + tableName + "] (" + Join(", ", BracketedNames(columns))
  }

  /** The INSERT template Upload builds once the types are known. */
  function InsertTemplate(tableName: string, columns: seq<ColumnInfo>): string {
    InsertHead(tableName, columns) + ") values (" + ValsSlot + ")"
  }

  /**
   * When the table and column names do not spell out the placeholder, the
   * INSERT names the columns in order and carries the values in its one
   * VALUES tuple.
   */
  lemma InsertStatementShape(tableName: string, columns: seq<ColumnInfo>, vals: string)
    requires forall k :: !OccursAt(InsertHead(tableName, columns), ValsSlot, k)
    ensures ReplaceAll(InsertTemplate(tableName, columns), ValsSlot, vals) ==
      InsertHead(tableName, columns) + ") values (" + vals + ")"
  {
    var x := InsertHead(tableName, columns);
    var y := ") values (";
    var z := ValsSlot + ")";
    var s := x + y + ValsSlot + ")";
    forall i | 0 <= i < |y|
      ensures y[i] !in ValsSlot
    {
    }
    forall k | k < |x + y|
      ensures !OccursAt(s, ValsSlot, k)
    {
      if OccursAt(s, ValsSlot, k) {
        assert s == x + y + z;
        OccursAcross(x, y, z, ValsSlot, k);
      }
    }
    forall k
      ensures !OccursAt(")", ValsSlot, k)
    {
    }
    ReplaceSingle(x + y, ValsSlot, vals, ")");
  }

  /** A column definition: "[name] type", then a line break and a tab. */
  function ColumnDef(c: ColumnInfo): string {
    "[" + c.name + "] " + c.combinedDataType + "\n\t"
  }

  function ColumnDefs(columns: seq<ColumnInfo>): (defs: seq<string>)
    ensures |defs| == |columns|
  {
    seq(|columns|, i requires 0 <= i < |columns| => ColumnDef(columns[i]))
  }

  /** The CREATE TABLE template up to the table name. */
  function CreateHead(tableName: string): string {
    "\ncreate table [dbo].[" + tableName
  }

  function CreateTemplate(tableName: string): string {
    CreateHead(tableName) + "] (\n    " + ColsSlot + "\n)\n"
  }

  /** The CREATE TABLE statement: the column definitions, joined by ", ", in place of __COLS__. */
  function CreateTableSql(tableName: string, columns: seq<ColumnInfo>): string {
    ReplaceAll(CreateTemplate(tableName), ColsSlot, Join(", ", ColumnDefs(columns)))
  }

  /** CreateTableStatement: one definition per column, in list order. */
  method CreateTableStatement(tableName: string, columns: seq<ColumnInfo>) returns (sql: string)
    ensures sql == CreateTableSql(tableName, columns)
  {
    sql := CreateTemplate(tableName);
    var cols: seq<string> := [];
    for i := 0 to |columns|
      invariant |cols| == i
      invariant forall k :: 0 <= k < i ==> cols[k] == ColumnDef(columns[k])
    {
      var c := columns[i];
      cols := cols + ["[" + c.name + "] " + c.combinedDataType + "\n\t"];
    }
    assert cols == ColumnDefs(columns);
    sql := ReplaceAll(sql, ColsSlot, Join(", ", cols));
  }

  /**
   * When the table name does not spell out the placeholder, the CREATE
   * TABLE statement holds the column definitions, and nothing else,
   * between its parentheses.
   */
  lemma CreateTableShape(tableName: string, columns: seq<ColumnInfo>)
    requires forall k :: !OccursAt(CreateHead(tableName), ColsSlot, k)
    ensures CreateTableSql(tableName, columns) ==
      CreateHead(tableName) + "] (\n    " + Join(", ", ColumnDefs(columns)) + "\n)\n"
  {
    var x := CreateHead(tableName);
    var y := "] (\n    ";
    var z := ColsSlot + "\n)\n";
    var s := x + y + ColsSlot + "\n)\n";
    forall i | 0 <= i < |y|
      ensures y[i] !in ColsSlot
    {
    }
    forall k | k < |x + y|
      ensures !OccursAt(s, ColsSlot, k)
    {
      if OccursAt(s, ColsSlot, k) {
        assert s == x + y + z;
        OccursAcross(x, y, z, ColsSlot, k);
      }
    }
    forall k
      ensures !OccursAt("\n)\n", ColsSlot, k)
    {
    }
    ReplaceSingle(x + y, ColsSlot, Join(", ", ColumnDefs(columns)), "\n)\n");
  }

  // ---------------------------------------------------------------------------
  // The row loop
  // ---------------------------------------------------------------------------

  /** The columns after DeriveTypeInfo has run on each with the sample row's field. */
  function Derived(p: Parsers, columns: seq<ColumnInfo>, row: seq<string>): (typed: seq<ColumnInfo>)
    requires |row| >= |columns|
    ensures |typed| == |columns|
  {
    seq(|columns|, i requires 0 <= i < |columns| => DerivedInfo(p, columns[i], row[i]))
  }

  /** One column after DeriveTypeInfo on its sample: its name, and the type the sample shows. */
  function DerivedInfo(p: Parsers, column: ColumnInfo, sample: string): ColumnInfo {
    var t := DeriveDataType(p, sample);
    ColumnInfo(column.name, CombinedDataTypeFor(t), Some(t))
  }

  /** What Upload holds between rows: its columns, its INSERT template, and the statements executed. */
  datatype UploadState = UploadState(columns: seq<ColumnInfo>, insert: string, log: seq<string>)

  /** How an upload ends: the statements executed, and whether it ran to the end of the file. */
  datatype UploadResult = UploadResult(log: seq<string>, outcome: Outcome<string>)

  /** One parsed row: the header, the sample row, or a further data row. */
  function UploadRow(tableName: string, p: Parsers, st: UploadState, row: seq<string>): Result<UploadState, string> {
    if st.columns == [] then
      Success(st.(columns := HeaderColumns(row)))
    else if |row| < |st.columns| then
      Failure(IndexOutOfRange)
    else if st.columns[0].combinedDataType == "" then
      var typed := Derived(p, st.columns, row);
      var insert := InsertTemplate(tableName, typed);
      Success(UploadState(typed, insert,
        st.log + [DropStatement(tableName), CreateTableSql(tableName, typed), InsertSql(insert, typed, row)]))
    else
      Success(st.(log := st.log + [InsertSql(st.insert, st.columns, row)]))
  }

  /** The rows in file order; an exception ends the upload, keeping what ran before it. */
  function UploadRows(tableName: string, p: Parsers, st: UploadState, rows: seq<seq<string>>): UploadResult
    decreases |rows|
  {
    if rows == [] then UploadResult(st.log, Pass)
    else
      match UploadRow(tableName, p, st, rows[0])
      case Failure(e) => UploadResult(st.log, Fail(e))
      case Success(next) => UploadRows(tableName, p, next, rows[1..])
  }

  /** The statements an upload of the given rows executes, from an empty column list. */
  function UploadStatements(tableName: string, p: Parsers, rows: seq<seq<string>>): UploadResult {
    UploadRows(tableName, p, UploadState([], "", []), rows)
  }

  /** The current properties of a list of Column objects. */
  function Infos(columns: seq<Column>): (infos: seq<ColumnInfo>)
    reads columns
    ensures |infos| == |columns|
  {
    seq(|columns|, i reads columns requires 0 <= i < |columns| => columns[i].Info())
  }

  /** No Column object occurs twice in the list. */
  predicate Distinct(columns: seq<Column>)
    decreases |columns|
  {
    columns == [] || (columns[0] !in columns[1..] && Distinct(columns[1..]))
  }

  lemma {:induction false} DistinctAt(columns: seq<Column>, i: int, j: int)
    requires Distinct(columns) && 0 <= i < j < |columns|
    ensures columns[i] != columns[j]
  {
    if i == 0 {
      assert columns[j] == columns[1..][j - 1];
    } else {
      DistinctAt(columns[1..], i - 1, j - 1);
    }
  }

  lemma {:induction false} DistinctSnoc(columns: seq<Column>, c: Column)
    requires Distinct(columns) && c !in columns
    ensures Distinct(columns + [c])
  {
    if columns != [] {
      assert (columns + [c])[1..] == columns[1..] + [c];
      DistinctSnoc(columns[1..], c);
    }
  }

  /** The header row: one new Column per field, named after it. */
  method NewColumns(row: seq<string>) returns (columns: seq<Column>)
    ensures Infos(columns) == HeaderColumns(row)
    ensures Distinct(columns)
    ensures forall i :: 0 <= i < |columns| ==> fresh(columns[i])
  {
    columns := [];
    for i := 0 to |row|
      invariant |columns| == i && Distinct(columns)
      invariant forall k :: 0 <= k < i ==> fresh(columns[k])
      invariant forall k :: 0 <= k < i ==> columns[k].Info() == HeaderColumns(row)[k]
    {
      var c := new Column();
      c.name := ColumnName(row[i]);
      DistinctSnoc(columns, c);
      columns := columns + [c];
    }
  }

  /** The sample row: DeriveTypeInfo on each column with the field at its position. */
  method DeriveAll(columns: seq<Column>, p: Parsers, row: seq<string>)
    requires |row| >= |columns| && Distinct(columns)
    modifies columns
    ensures Infos(columns) == Derived(p, old(Infos(columns)), row)
  {
    ghost var before := Infos(columns);
    for i := 0 to |columns|
      invariant forall k :: 0 <= k < i ==> columns[k].Info() == DerivedInfo(p, before[k], row[k])
      invariant forall k :: i <= k < |columns| ==> columns[k].Info() == before[k]
    {
      forall k | 0 <= k < |columns| && k != i
        ensures columns[k] != columns[i]
      {
        if k < i {
          DistinctAt(columns, k, i);
        } else {
          DistinctAt(columns, i, k);
        }
      }
      columns[i].DeriveTypeInfo(p, row[i]);
    }
    assert Infos(columns) == Derived(p, before, row) by {
      forall k | 0 <= k < |columns|
        ensures Infos(columns)[k] == Derived(p, before, row)[k]
      {
      }
    }
  }

  /**
   * Upload: each row in turn, with every statement sent through WriteRaw as
   * soon as it is built. The outcome is Fail when a data row is shorter
   * than the header; what was executed before stays executed.
   */
  method Upload(tableName: string, p: Parsers, records: seq<seq<string>>, db: Database) returns (outcome: Outcome<string>)
    modifies db
    ensures db.log == old(db.log) + UploadStatements(tableName, p, records).log
    ensures outcome == UploadStatements(tableName, p, records).outcome
  {
    var columns: seq<Column> := [];
    var insertStatement := "";
    ghost var st := UploadState([], "", []);
    for k := 0 to |records|
      invariant st.columns == Infos(columns) && st.insert == insertStatement
      invariant db.log == old(db.log) + st.log
      invariant Distinct(columns) && forall i :: 0 <= i < |columns| ==> fresh(columns[i])
      invariant UploadRows(tableName, p, st, records[k..]) == UploadStatements(tableName, p, records)
    {
      var result;
      ghost var next;
      columns, insertStatement, result, next := ReadRow(tableName, p, columns, insertStatement, records, k, db, old(db.log), st);
      if result.Fail? {
        return result;
      }
      st := next;
    }
    assert records[|records|..] == [];
    outcome := Pass;
  }

  /** The fold from row k on: row k, then the rows after it, unless row k fails. */
  lemma UploadRowsStep(tableName: string, p: Parsers, st: UploadState, rows: seq<seq<string>>, k: nat)
    requires k < |rows|
    ensures UploadRow(tableName, p, st, rows[k]).Failure? ==>
      UploadRows(tableName, p, st, rows[k..]) == UploadResult(st.log, Fail(UploadRow(tableName, p, st, rows[k]).error))
    ensures UploadRow(tableName, p, st, rows[k]).Success? ==>
      UploadRows(tableName, p, st, rows[k..]) == UploadRows(tableName, p, UploadRow(tableName, p, st, rows[k]).value, rows[k + 1..])
  {
    assert rows[k..][0] == rows[k] && rows[k..][1..] == rows[k + 1..];
  }

  /**
   * The loop body of Upload for row k: the header row makes the columns,
   * any later row goes to DataRow. The upload of the rows from k on is the
   * failure of row k, or the upload of the rest from the next state.
   */
  method ReadRow(tableName: string, p: Parsers, columns: seq<Column>, insertStatement: string,
                 records: seq<seq<string>>, k: nat, db: Database, ghost base: seq<string>, ghost st: UploadState)
    returns (newColumns: seq<Column>, insert: string, result: Outcome<string>, ghost next: UploadState)
    requires k < |records|
    requires Distinct(columns) && st.columns == Infos(columns) && st.insert == insertStatement
    requires db.log == base + st.log
    modifies db, columns
    ensures Distinct(newColumns)
    ensures columns == [] ==> forall i :: 0 <= i < |newColumns| ==> fresh(newColumns[i])
    ensures columns != [] ==> newColumns == columns
    ensures result.Fail? ==>
      UploadRows(tableName, p, st, records[k..]) == UploadResult(st.log, result) && db.log == old(db.log)
    ensures result.Pass? ==>
      UploadRows(tableName, p, st, records[k..]) == UploadRows(tableName, p, next, records[k + 1..]) &&
      next.columns == Infos(newColumns) && next.insert == insert && db.log == base + next.log
  {
    UploadRowsStep(tableName, p, st, records, k);
    var row := records[k];
    if |columns| == 0 {
      newColumns := NewColumns(row);
      next := UploadState(Infos(newColumns), insertStatement, st.log);
      assert UploadRow(tableName, p, st, row) == Success(next);
      return newColumns, insertStatement, Pass, next;
    }
    newColumns := columns;
    insert, result, next := DataRow(tableName, p, columns, insertStatement, row, db, base, st);
  }

  /** What UploadRow makes of a data row, case by case. */
  lemma RowStep(tableName: string, p: Parsers, st: UploadState, row: seq<string>)
    requires st.columns != []
    ensures |row| < |st.columns| ==> UploadRow(tableName, p, st, row) == Failure(IndexOutOfRange)
    ensures |row| >= |st.columns| && st.columns[0].combinedDataType == "" ==>
      var typed := Derived(p, st.columns, row);
      var insert := InsertTemplate(tableName, typed);
      UploadRow(tableName, p, st, row) == Success(UploadState(typed, insert,
        st.log + [DropStatement(tableName), CreateTableSql(tableName, typed)] + [InsertSql(insert, typed, row)]))
    ensures |row| >= |st.columns| && st.columns[0].combinedDataType != "" ==>
      UploadRow(tableName, p, st, row) == Success(st.(log := st.log + [InsertSql(st.insert, st.columns, row)]))
  {
    if |row| >= |st.columns| {
      var typed := Derived(p, st.columns, row);
      var insert := InsertTemplate(tableName, typed);
      assert st.log + [DropStatement(tableName), CreateTableSql(tableName, typed)] + [InsertSql(insert, typed, row)] ==
        st.log + [DropStatement(tableName), CreateTableSql(tableName, typed), InsertSql(insert, typed, row)];
    }
  }

  /**
   * A row after the header: on the first one, the types are derived and
   * the table is dropped and created; then the row's INSERT runs. A row
   * shorter than the header raises the exception before anything runs.
   */
  method DataRow(tableName: string, p: Parsers, columns: seq<Column>, insertStatement: string, row: seq<string>,
                 db: Database, ghost base: seq<string>, ghost st: UploadState)
    returns (insert: string, result: Outcome<string>, ghost next: UploadState)
    requires columns != [] && Distinct(columns)
    requires st.columns == Infos(columns) && st.insert == insertStatement
    requires db.log == base + st.log
    modifies db, columns
    ensures result.Fail? <==> UploadRow(tableName, p, st, row).Failure?
    ensures result.Fail? ==> result.error == UploadRow(tableName, p, st, row).error && db.log == old(db.log)
    ensures result.Pass? ==>
      UploadRow(tableName, p, st, row) == Success(next) &&
      next.columns == Infos(columns) && next.insert == insert && db.log == base + next.log
  {
    insert := insertStatement;
    next := st;
    assert st.columns[0] == columns[0].Info();
    RowStep(tableName, p, st, row);
    if columns[0].combinedDataType == "" && |row| >= |columns| {
      insert := CreateTable(tableName, p, columns, row, db);
      ghost var typed := Infos(columns);
      ghost var created := st.log + [DropStatement(tableName), CreateTableSql(tableName, typed)];
      AppendAssoc(base, st.log, [DropStatement(tableName), CreateTableSql(tableName, typed)]);
      next := UploadState(typed, insert, created + [InsertSql(insert, typed, row)]);
      AppendAssoc(base, created, [InsertSql(insert, typed, row)]);
    } else if |row| >= |columns| {
      next := st.(log := st.log + [InsertSql(insert, st.columns, row)]);
      AppendAssoc(base, st.log, [InsertSql(insert, st.columns, row)]);
    }
    var r := FormatInsert(insert, Infos(columns), row);
    if r.Failure? {
      return insert, Fail(r.error), next;
    }
    db.WriteRaw(r.value);
    result := Pass;
  }

  /**
   * The first data row: type every column from it, drop and create the
   * table, and build the INSERT template from the typed columns.
   */
  method CreateTable(tableName: string, p: Parsers, columns: seq<Column>, row: seq<string>, db: Database)
    returns (insert: string)
    requires |row| >= |columns| && Distinct(columns)
    modifies db, columns
    ensures Infos(columns) == Derived(p, old(Infos(columns)), row)
    ensures insert == InsertTemplate(tableName, Infos(columns))
    ensures db.log == old(db.log) + [DropStatement(tableName), CreateTableSql(tableName, Infos(columns))]
  {
    DeriveAll(columns, p, row);
    var typed := Infos(columns);
    var createSql := CreateTableStatement(tableName, typed);
    db.WriteRaw("\ndrop table if exists [dbo].[" + tableName + "];\n");
    db.WriteRaw(createSql);
    insert := InsertTemplate(tableName, typed);
  }

  // ---------------------------------------------------------------------------
  // The flow of an upload
  // ---------------------------------------------------------------------------

  predicate LongRows(rows: seq<seq<string>>, n: nat) {
    forall i :: 0 <= i < |rows| ==> |rows[i]| >= n
  }

  /** One INSERT per row, from the same template and columns. */
  function Inserts(insert: string, columns: seq<ColumnInfo>, rows: seq<seq<string>>): (r: seq<string>)
    requires LongRows(rows, |columns|)
    ensures |r| == |rows|
  {
    seq(|rows|, i requires 0 <= i < |rows| => InsertSql(insert, columns, rows[i]))
  }

  /** Once the types are known, every further row only adds its INSERT. */
  lemma {:induction false} InsertsOnly(tableName: string, p: Parsers, st: UploadState, rows: seq<seq<string>>)
    requires st.columns != [] && st.columns[0].combinedDataType != ""
    requires LongRows(rows, |st.columns|)
    ensures UploadRows(tableName, p, st, rows) == UploadResult(st.log + Inserts(st.insert, st.columns, rows), Pass)
    decreases |rows|
  {
    if rows != [] {
      var x := InsertSql(st.insert, st.columns, rows[0]);
      var next := st.(log := st.log + [x]);
      assert UploadRow(tableName, p, st, rows[0]) == Success(next);
      LongRowsTail(rows, |st.columns|);
      InsertsOnly(tableName, p, next, rows[1..]);
      InsertsCons(st.insert, st.columns, rows);
      AppendAssoc(st.log, [x], Inserts(st.insert, st.columns, rows[1..]));
    } else {
      assert Inserts(st.insert, st.columns, rows) == [];
    }
  }

  lemma LongRowsTail(rows: seq<seq<string>>, n: nat)
    requires rows != [] && LongRows(rows, n)
    ensures LongRows(rows[1..], n)
  {
    forall i | 0 <= i < |rows[1..]| ensures |rows[1..][i]| >= n {
      assert rows[1..][i] == rows[i + 1];
    }
  }

  lemma InsertsCons(insert: string, columns: seq<ColumnInfo>, rows: seq<seq<string>>)
    requires rows != [] && LongRows(rows, |columns|) && LongRows(rows[1..], |columns|)
    ensures Inserts(insert, columns, rows) == [InsertSql(insert, columns, rows[0])] + Inserts(insert, columns, rows[1..])
  {
    assert Inserts(insert, columns, rows)[1..] == Inserts(insert, columns, rows[1..]);
  }

  /** Once the types are known, a short row ends the upload after the INSERTs of the rows before it. */
  lemma {:induction false} InsertsThenFail(tableName: string, p: Parsers, st: UploadState, rows: seq<seq<string>>, k: nat)
    requires st.columns != [] && st.columns[0].combinedDataType != ""
    requires k < |rows| && LongRows(rows[..k], |st.columns|) && |rows[k]| < |st.columns|
    ensures UploadRows(tableName, p, st, rows) ==
      UploadResult(st.log + Inserts(st.insert, st.columns, rows[..k]), Fail(IndexOutOfRange))
    decreases k
  {
    if k == 0 {
      assert rows[..0] == [];
      assert Inserts(st.insert, st.columns, rows[..0]) == [];
    } else {
      var front := rows[..k];
      assert |front[0]| >= |st.columns|;
      var x := InsertSql(st.insert, st.columns, rows[0]);
      var next := st.(log := st.log + [x]);
      assert UploadRow(tableName, p, st, rows[0]) == Success(next);
      assert front[0] == rows[0];
      assert rows[1..][..k - 1] == front[1..];
      assert rows[1..][k - 1] == rows[k];
      LongRowsTail(front, |st.columns|);
      InsertsThenFail(tableName, p, next, rows[1..], k - 1);
      InsertsCons(st.insert, st.columns, front);
      AppendAssoc(st.log, [x], Inserts(st.insert, st.columns, front[1..]));
    }
  }


  /**
   * An upload of a header and data rows at least as long as it: DROP, then
   * CREATE TABLE with the types read from the first data row alone, then
   * one INSERT per data row in file order.
   */
  lemma UploadFlow(tableName: string, p: Parsers, rows: seq<seq<string>>)
    requires |rows| >= 2 && |rows[0]| > 0 && LongRows(rows[1..], |rows[0]|)
    ensures var typed := Derived(p, HeaderColumns(rows[0]), rows[1]);
      UploadStatements(tableName, p, rows) == UploadResult(
        [DropStatement(tableName), CreateTableSql(tableName, typed)] +
        Inserts(InsertTemplate(tableName, typed), typed, rows[1..]), Pass)
  {
    var typed := Derived(p, HeaderColumns(rows[0]), rows[1]);
    var insert := InsertTemplate(tableName, typed);
    var st2 := UploadState(typed, insert,
      [DropStatement(tableName), CreateTableSql(tableName, typed), InsertSql(insert, typed, rows[1])]);
    HeaderThenSample(tableName, p, rows);
    assert LongRows(rows[2..], |typed|) by {
      forall i | 0 <= i < |rows[2..]|
        ensures |rows[2..][i]| >= |typed|
      {
        assert rows[2..][i] == rows[1..][i + 1];
      }
    }
    InsertsOnly(tableName, p, st2, rows[2..]);
    assert [InsertSql(insert, typed, rows[1])] + Inserts(insert, typed, rows[2..]) == Inserts(insert, typed, rows[1..]);
    var created := [DropStatement(tableName), CreateTableSql(tableName, typed)];
    assert created + [InsertSql(insert, typed, rows[1])] == st2.log;
    AppendAssoc(created, [InsertSql(insert, typed, rows[1])], Inserts(insert, typed, rows[2..]));
  }

  /** The header row, then the sample row: the table is created and the sample's INSERT runs. */
  lemma HeaderThenSample(tableName: string, p: Parsers, rows: seq<seq<string>>)
    requires |rows| >= 2 && |rows[0]| > 0 && |rows[1]| >= |rows[0]|
    ensures var typed := Derived(p, HeaderColumns(rows[0]), rows[1]);
      var insert := InsertTemplate(tableName, typed);
      UploadStatements(tableName, p, rows) == UploadRows(tableName, p, UploadState(typed, insert,
        [DropStatement(tableName), CreateTableSql(tableName, typed), InsertSql(insert, typed, rows[1])]), rows[2..])
  {
    var header := HeaderColumns(rows[0]);
    var st0 := UploadState([], "", []);
    var st1 := UploadState(header, "", []);
    var typed := Derived(p, header, rows[1]);
    var insert := InsertTemplate(tableName, typed);
    var st2 := UploadState(typed, insert,
      [DropStatement(tableName), CreateTableSql(tableName, typed), InsertSql(insert, typed, rows[1])]);
    assert UploadRow(tableName, p, st0, rows[0]) == Success(st1);
    assert header[0].combinedDataType == "";
    RowStep(tableName, p, st1, rows[1]);
    assert [] + [DropStatement(tableName), CreateTableSql(tableName, typed)] + [InsertSql(insert, typed, rows[1])] == st2.log;
    assert UploadRow(tableName, p, st1, rows[1]) == Success(st2);
    calc {
      UploadStatements(tableName, p, rows);
      UploadRows(tableName, p, st0, rows);
      UploadRows(tableName, p, st1, rows[1..]);
      { assert rows[1..][0] == rows[1]; }
      UploadRows(tableName, p, st2, rows[1..][1..]);
      { assert rows[1..][1..] == rows[2..]; }
      UploadRows(tableName, p, st2, rows[2..]);
    }
  }

  /**
   * A data row shorter than the header ends the upload with an exception:
   * the statements of the rows before it were executed, and nothing after.
   */
  lemma ShortRowStops(tableName: string, p: Parsers, rows: seq<seq<string>>, k: nat)
    requires 1 <= k < |rows| && |rows[0]| > 0
    requires LongRows(rows[1..k], |rows[0]|) && |rows[k]| < |rows[0]|
    ensures UploadStatements(tableName, p, rows[..k]).outcome == Pass
    ensures UploadStatements(tableName, p, rows) ==
      UploadResult(UploadStatements(tableName, p, rows[..k]).log, Fail(IndexOutOfRange))
  {
    var header := HeaderColumns(rows[0]);
    var st1 := UploadState(header, "", []);
    assert UploadRow(tableName, p, UploadState([], "", []), rows[0]) == Success(st1);
    assert rows[..k][0] == rows[0] && rows[..k][1..] == rows[1..k];
    assert UploadStatements(tableName, p, rows) == UploadRows(tableName, p, st1, rows[1..]);
    assert UploadStatements(tableName, p, rows[..k]) == UploadRows(tableName, p, st1, rows[1..k]);
    if k == 1 {
      assert rows[1..k] == [];
      assert rows[1..][0] == rows[1];
    } else {
      AfterSample(tableName, p, rows, k);
    }
  }

  /** ShortRowStops when the short row comes after the sample row. */
  lemma AfterSample(tableName: string, p: Parsers, rows: seq<seq<string>>, k: nat)
    requires 2 <= k < |rows| && |rows[0]| > 0
    requires LongRows(rows[1..k], |rows[0]|) && |rows[k]| < |rows[0]|
    ensures var st1 := UploadState(HeaderColumns(rows[0]), "", []);
      UploadRows(tableName, p, st1, rows[1..k]).outcome == Pass &&
      UploadRows(tableName, p, st1, rows[1..]) ==
        UploadResult(UploadRows(tableName, p, st1, rows[1..k]).log, Fail(IndexOutOfRange))
  {
    var header := HeaderColumns(rows[0]);
    var st1 := UploadState(header, "", []);
    assert rows[1..k][0] == rows[1] && rows[1..][0] == rows[1];
    assert header != [] && header[0].combinedDataType == "" && |rows[1]| >= |header|;
    var typed := Derived(p, header, rows[1]);
    var insert := InsertTemplate(tableName, typed);
    var st2 := UploadState(typed, insert,
      [DropStatement(tableName), CreateTableSql(tableName, typed), InsertSql(insert, typed, rows[1])]);
    assert [] + st2.log == st2.log;
    assert UploadRow(tableName, p, st1, rows[1]) == Success(st2);
    var rest := rows[2..];
    assert rows[1..][1..] == rest && rows[1..k][1..] == rest[..k - 2];
    var front := rest[..k - 2];
    assert LongRows(front, |typed|) by {
      forall i | 0 <= i < |front|
        ensures |front[i]| >= |typed|
      {
        assert front[i] == rows[1..k][i + 1];
      }
    }
    assert rest[k - 2] == rows[k];
    InsertsThenFail(tableName, p, st2, rest, k - 2);
    InsertsOnly(tableName, p, st2, front);
    assert UploadRows(tableName, p, st1, rows[1..]) == UploadRows(tableName, p, st2, rest);
    assert UploadRows(tableName, p, st1, rows[1..k]) == UploadRows(tableName, p, st2, front);
  }
}
