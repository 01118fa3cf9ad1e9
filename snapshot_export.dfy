/**
 * Export (Data.cs): write every table of the source database, in the
 * order ListTablesInFKOrder gives, as a script of INSERT statements of at most 100 rows each,
 * every statement closed by a batch marker line.
 */
module SnapshotExport {
  import opened Strings
  import opened ValueCodec
  import opened Catalog
  import opened TextFiles
  import opened SnapshotFormat
  import FkLevels
  import FkLevelProperties
  import FkOrder

  /**
   * What the source database yields for one table: its column names in
   * ordinal order, the result of its count(*) query, and the rows of its
   * "select *" stream.
   */
  datatype TableData = TableData(columns: seq<string>, count: nat, rows: seq<seq<Value>>)

  function ColumnList(columns: seq<string>): seq<string> {
    seq(|columns|, i requires 0 <= i < |columns| => "[" + columns[i] + "]")
  }

  /** The head of every INSERT statement of the table. */
  function InsertStatement(t: TableRef, columns: seq<string>): string {
    "insert into " + FullName(t) + " (" + Join(", ", ColumnList(columns)) + ") values "
  }

  function BeginLines(t: TableRef): seq<string> {
    ["", Separator, "-- Begin table: " + FullName(t), Separator]
  }

  /** What follows the header of a table whose count is 0. */
  function EmptyTableLines(t: TableRef): seq<string> {
    ["-- No data in source table, skipping.", "", Separator, "-- End table: " + FullName(t), Separator,
     "GO -- SQL_BATCH -- No rows in table", ""]
  }

  /** The marker closing a full batch. */
  function BatchLine(n: nat): string {
    "GO -- SQL_BATCH -- " + NatToString(n) + " rows in batch"
  }

  /** The marker closing a table's last batch. */
  function FinalLine(n: nat, total: nat): string {
    "GO -- SQL_BATCH -- " + NatToString(n) + " rows in batch, " + NatToString(total) + " total rows"
  }

  function EndLines(t: TableRef, n: nat, total: nat): seq<string> {
    ["", Separator, "-- End table: " + FullName(t), Separator, FinalLine(n, total), ""]
  }

  function RowTexts(rows: seq<seq<Value>>): (r: seq<string>)
    ensures |r| == |rows|
  {
    seq(|rows|, i requires 0 <= i < |rows| => CreateValuesList(rows[i]))
  }

  /**
   * The lines one row completes: at a multiple of 100 rows it ends the
   * unfinished line, writes the marker of the full batch (none before the
   * first row) and a new INSERT head; any other row ends the unfinished line
   * with a comma. The row's own tuple is then left unfinished.
   */
  function RowHead(partial: string, rowNumber: nat, ins: string): seq<string> {
    if rowNumber % 100 == 0 then [partial] + (if rowNumber > 0 then [BatchLine(rowNumber)] else []) + [ins]
    else [partial + ","]
  }

  /** The count of the current batch once a row is added: a full batch starts over. */
  function NextRowNumber(rowNumber: nat): nat {
    if rowNumber % 100 == 0 then 1 else rowNumber + 1
  }

  /**
   * The lines still to come when the unfinished line holds `partial`, the
   * current batch holds `rowNumber` rows and `texts` are the rows left.
   */
  function RowLines(partial: string, rowNumber: nat, ins: string, texts: seq<string>): seq<string>
    decreases |texts|
  {
    if texts == [] then [partial]
    else RowHead(partial, rowNumber, ins) + RowLines(texts[0], NextRowNumber(rowNumber), ins, texts[1..])
  }

  /** The row count of the current batch after i rows. */
  function BatchPosition(i: nat): nat {
    if i == 0 then 0 else (i - 1) % 100 + 1
  }

  /** The lines written for one table. */
  function TableLines(t: TableRef, d: TableData): seq<string> {
    BeginLines(t) + TableBody(t, d)
  }

  /** What follows the table's header: the empty-table notice, or the rows and the footer. */
  function TableBody(t: TableRef, d: TableData): seq<string> {
    if d.count == 0 then EmptyTableLines(t)
    else
      var texts := RowTexts(d.rows);
      RowLines("", 0, InsertStatement(t, d.columns), texts) + EndLines(t, BatchPosition(|texts|), |texts|)
  }

  /** The lines of the whole script, table after table in the given order. */
  function ExportLines(order: seq<TableRef>, source: TableRef -> TableData): seq<string>
    decreases |order|
  {
    if order == [] then []
    else ExportLines(order[..|order| - 1], source) + TableLines(order[|order| - 1], source(order[|order| - 1]))
  }

  /** The table's header comment. */
  method WriteBegin(wtr: TextWriter, t: TableRef)
    requires wtr.partial == ""
    modifies wtr
    ensures wtr.partial == ""
    ensures wtr.written == old(wtr.written) + BeginLines(t)
  {
    ghost var w0 := wtr.written;
    var name := "-- Begin table: " + FullName(t);
    wtr.WriteLine("");
    assert "" + "" == "";
    wtr.WriteLine(Separator);
    assert "" + Separator == Separator;
    wtr.WriteLine(name);
    assert "" + name == name;
    wtr.WriteLine(Separator);
    assert wtr.written == w0 + ["", Separator, name, Separator];
  }

  /** The rest of a table whose count is 0. */
  method WriteEmpty(wtr: TextWriter, t: TableRef)
    requires wtr.partial == ""
    modifies wtr
    ensures wtr.partial == ""
    ensures wtr.written == old(wtr.written) + EmptyTableLines(t)
  {
    ghost var w0 := wtr.written;
    var name := "-- End table: " + FullName(t);
    var skip := "-- No data in source table, skipping.";
    var marker := "GO -- SQL_BATCH -- No rows in table";
    assert "" + "" == "" && "" + Separator == Separator && "" + name == name;
    assert "" + skip == skip && "" + marker == marker;
    wtr.WriteLine(skip);
    wtr.WriteLine("");
    wtr.WriteLine(Separator);
    wtr.WriteLine(name);
    wtr.WriteLine(Separator);
    wtr.WriteLine(marker);
    wtr.WriteLine("");
    assert wtr.written == w0 + [skip, "", Separator, name, Separator, marker, ""];
  }

  /** The footer of a table with a count, closed by the marker of its last batch. */
  method WriteEnd(wtr: TextWriter, t: TableRef, rowNumber: nat, totalRows: nat)
    requires wtr.partial == ""
    modifies wtr
    ensures wtr.partial == ""
    ensures wtr.written == old(wtr.written) + EndLines(t, rowNumber, totalRows)
  {
    ghost var w0 := wtr.written;
    var name := "-- End table: " + FullName(t);
    var marker := "GO -- SQL_BATCH -- " + NatToString(rowNumber) + " rows in batch, " + NatToString(totalRows) + " total rows";
    assert "" + "" == "" && "" + Separator == Separator && "" + name == name && "" + marker == marker;
    wtr.WriteLine("");
    wtr.WriteLine(Separator);
    wtr.WriteLine(name);
    wtr.WriteLine(Separator);
    wtr.WriteLine(marker);
    wtr.WriteLine("");
    assert wtr.written == w0 + ["", Separator, name, Separator, marker, ""];
  }

  /**
   * The row loop of Export, with the line break that ends its last tuple:
   * rowNumber counts the rows of the current batch and totalRows all rows.
   */
  method WriteRows(wtr: TextWriter, ins: string, rows: seq<seq<Value>>) returns (rowNumber: nat, totalRows: nat)
    requires wtr.partial == ""
    modifies wtr
    ensures wtr.partial == ""
    ensures wtr.written == old(wtr.written) + RowLines("", 0, ins, RowTexts(rows))
    ensures rowNumber == BatchPosition(|rows|) && totalRows == |rows|
  {
    ghost var start := wtr.written;
    ghost var texts := RowTexts(rows);
    rowNumber := 0;
    totalRows := 0;
    var i := 0;
    while i < |rows|
      invariant 0 <= i <= |rows|

      invariant totalRows == i && rowNumber == BatchPosition(i)
      invariant wtr.written + RowLines(wtr.partial, rowNumber, ins, texts[i..]) == start + RowLines("", 0, ins, texts)
    {
      var fileLine := CreateValuesList(rows[i]);
      rowNumber := WriteNextRow(wtr, ins, fileLine, i, rowNumber, texts, start);
      totalRows := totalRows + 1;
      i := i + 1;
    }
    assert texts[i..] == [];
    ghost var last := wtr.partial;
    wtr.WriteLine("");
    assert last + "" == last;
  }

  /** Row i of the loop, with what it contributes to the lines of the table. */
  method WriteNextRow(wtr: TextWriter, ins: string, fileLine: string, i: nat, rowNumber: nat,
                      ghost texts: seq<string>, ghost start: seq<string>) returns (next: nat)
    requires i < |texts| && fileLine == texts[i] && rowNumber == BatchPosition(i)
    requires wtr.written + RowLines(wtr.partial, rowNumber, ins, texts[i..]) == start + RowLines("", 0, ins, texts)
    modifies wtr
    ensures next == BatchPosition(i + 1)
    ensures wtr.written + RowLines(wtr.partial, next, ins, texts[i + 1..]) == start + RowLines("", 0, ins, texts)
  {
    ghost var w := wtr.written;
    ghost var p := wtr.partial;
    ghost var head := RowHead(p, rowNumber, ins);
    ghost var rest := RowLines(texts[i], NextRowNumber(rowNumber), ins, texts[i + 1..]);
    RowLinesAt(p, rowNumber, ins, texts, i);
    BatchPositionNext(i);
    next := WriteRow(wtr, ins, rowNumber, fileLine);
    assert wtr.written + rest == w + (head + rest);
  }

  /** One pass of the row loop: the line breaks, marker and INSERT head before the row, then its tuple. */
  method WriteRow(wtr: TextWriter, ins: string, rowNumber: nat, fileLine: string) returns (next: nat)

    modifies wtr
    ensures wtr.partial == fileLine
    ensures wtr.written == old(wtr.written) + RowHead(old(wtr.partial), rowNumber, ins)
    ensures next == NextRowNumber(rowNumber)
  {
    ghost var w := wtr.written;
    ghost var p := wtr.partial;
    next := rowNumber;
    if next % 100 == 0 {
      wtr.WriteLine("");
      assert p + "" == p;
      if next > 0 {
        wtr.WriteLine(BatchLine(next));
        assert "" + BatchLine(rowNumber) == BatchLine(rowNumber);
      }
      next := 0;
      wtr.WriteLine(ins);
      assert "" + ins == ins;
    } else {
      wtr.WriteLine(",");
    }
    assert wtr.written == w + RowHead(p, rowNumber, ins);
    wtr.Write(fileLine);
    assert "" + fileLine == fileLine;
    next := next + 1;
  }

  /** RowLines from row i on, with row i's head taken off. */
  lemma RowLinesAt(p: string, r: nat, ins: string, texts: seq<string>, i: nat)
    requires i < |texts|
    ensures RowLines(p, r, ins, texts[i..]) ==
      RowHead(p, r, ins) + RowLines(texts[i], NextRowNumber(r), ins, texts[i + 1..])
  {
    assert texts[i..][0] == texts[i];
    assert texts[i..][1..] == texts[i + 1..];
  }

  lemma BatchPositionNext(i: nat)
    ensures BatchPosition(i + 1) == if BatchPosition(i) % 100 == 0 then 1 else BatchPosition(i) + 1
  {
  }

  /** The part of Export that writes one table. */
  method ExportTable(wtr: TextWriter, t: TableRef, d: TableData)
    requires wtr.partial == ""
    modifies wtr
    ensures wtr.partial == ""
    ensures wtr.written == old(wtr.written) + TableLines(t, d)
  {
    ghost var w0 := wtr.written;
    WriteBegin(wtr, t);
    ghost var w1 := wtr.written;
    WriteTableBody(wtr, t, d);
    assert wtr.written == w0 + (BeginLines(t) + TableBody(t, d)) by {
      assert wtr.written == w1 + TableBody(t, d);
    }
  }

  /** Export's writing of a table after its header: the notice of an empty table, or the rows and the footer. */
  method WriteTableBody(wtr: TextWriter, t: TableRef, d: TableData)
    requires wtr.partial == ""
    modifies wtr
    ensures wtr.partial == ""
    ensures wtr.written == old(wtr.written) + TableBody(t, d)
  {
    if d.count == 0 {
      WriteEmpty(wtr, t);
    } else {
      ghost var w1 := wtr.written;
      var ins := InsertStatement(t, d.columns);
      var rowNumber, totalRows := WriteRows(wtr, ins, d.rows);
      ghost var rowLines := RowLines("", 0, ins, RowTexts(d.rows));
      ghost var w2 := wtr.written;
      WriteEnd(wtr, t, rowNumber, totalRows);
      ghost var endLines := EndLines(t, rowNumber, totalRows);
      assert wtr.written == w1 + (rowLines + endLines) by {
        assert wtr.written == w2 + endLines && w2 == w1 + rowLines;
      }
    }
  }

  /** The tables of ListTablesInFKOrder's result, in its order. */
  function TableOrder(ordered: seq<FkOrder.LeveledTable>): (order: seq<TableRef>)
    ensures |order| == |ordered|
    ensures forall i :: 0 <= i < |ordered| ==> order[i] == ordered[i].table
  {
    seq(|ordered|, i requires 0 <= i < |ordered| => ordered[i].table)
  }

  /** The order Export writes the tables in: the foreign-key order of the source database. */
  function ExportOrder(tables: seq<TableRef>, fks: seq<FkLevels.ForeignKey>): seq<TableRef> {
    TableOrder(FkOrder.OrderedTables(tables, fks))
  }

  /**
   * Export: list the tables in foreign-key order, then write the lines of
   * each in that order, each line ended by a newline.
   */
  method Export(tables: seq<TableRef>, fks: seq<FkLevels.ForeignKey>, source: TableRef -> TableData) returns (text: string)
    ensures text == Unlines(ExportLines(ExportOrder(tables, fks), source))
  {
    var ordered := FkOrder.ListTablesInFKOrder(tables, fks);
    var order := TableOrder(ordered);
    var wtr := new TextWriter();
    var k := 0;
    while k < |order|
      invariant 0 <= k <= |order|
      invariant wtr.partial == ""
      invariant wtr.written == ExportLines(order[..k], source)
    {
      ExportTable(wtr, order[k], source(order[k]));
      ExportLinesNext(order, k, source);
      k := k + 1;
    }
    assert order[..|order|] == order;
    text := wtr.Text();
    assert text == Unlines(wtr.written) + "";
  }

  lemma ExportLinesNext(order: seq<TableRef>, k: nat, source: TableRef -> TableData)
    requires k < |order|
    ensures ExportLines(order[..k + 1], source) == ExportLines(order[..k], source) + TableLines(order[k], source(order[k]))
  {
    assert order[..k + 1][..k] == order[..k];
  }

  /** The index of the "-- Begin table:" line of the i-th table of the export. */
  function TableStart(order: seq<TableRef>, i: nat, source: TableRef -> TableData): nat
    requires i <= |order|
  {
    |ExportLines(order[..i], source)| + 2
  }

  /** lines[at] is the "-- Begin table:" line of table t. */
  predicate BeginsSection(lines: seq<string>, at: nat, t: TableRef) {
    at < |lines| && lines[at] == "-- Begin table: " + FullName(t)
  }

  /** One more table extends the lines written so far, by its header and at least one more line. */
  lemma ExportLinesGrow(order: seq<TableRef>, k: nat, source: TableRef -> TableData)
    requires k < |order|
    ensures ExportLines(order[..k], source) <= ExportLines(order[..k + 1], source)
    ensures |ExportLines(order[..k + 1], source)| > TableStart(order, k, source) + 1
    ensures BeginsSection(ExportLines(order[..k + 1], source), TableStart(order, k, source), order[k])
  {
    ExportLinesNext(order, k, source);
    var a := ExportLines(order[..k], source);
    var t := TableLines(order[k], source(order[k]));
    assert t[2] == "-- Begin table: " + FullName(order[k]);
    assert (a + t)[|a| + 2] == t[2];
  }

  /** The lines of the first i tables are a prefix of those of the first j. */
  lemma {:induction false} ExportLinesPrefix(order: seq<TableRef>, i: nat, j: nat, source: TableRef -> TableData)
    requires i <= j <= |order|
    ensures ExportLines(order[..i], source) <= ExportLines(order[..j], source)
    decreases j - i
  {
    if i < j {
      ExportLinesPrefix(order, i, j - 1, source);
      PrefixStep(order, i, j, source);
    }
  }

  lemma PrefixStep(order: seq<TableRef>, i: nat, j: nat, source: TableRef -> TableData)
    requires i < j <= |order|
    requires ExportLines(order[..i], source) <= ExportLines(order[..j - 1], source)
    ensures ExportLines(order[..i], source) <= ExportLines(order[..j], source)
  {
    ExportLinesGrow(order, j - 1, source);
    PrefixTransitive(ExportLines(order[..i], source), ExportLines(order[..j - 1], source), ExportLines(order[..j], source));
  }

  lemma PrefixTransitive<T>(a: seq<T>, b: seq<T>, c: seq<T>)
    requires a <= b && b <= c
    ensures a <= c
  {
    assert a == b[..|a|] && b == c[..|b|];
    assert c[..|b|][..|a|] == c[..|a|];
  }

  /** Each table's section begins with its "-- Begin table:" line, at TableStart. */
  lemma BeginLineAt(order: seq<TableRef>, i: nat, source: TableRef -> TableData)
    requires i < |order|
    ensures BeginsSection(ExportLines(order, source), TableStart(order, i, source), order[i])
  {
    ExportLinesGrow(order, i, source);
    ExportLinesPrefix(order, i + 1, |order|, source);
    assert order[..|order|] == order;
    ghost var a := ExportLines(order[..i + 1], source);
    ghost var b := ExportLines(order, source);
    assert a <= b;
    assert a[TableStart(order, i, source)] == b[TableStart(order, i, source)];
  }

  /** A table listed earlier has its section earlier in the file. */
  lemma TableStartsIncrease(order: seq<TableRef>, i: nat, j: nat, source: TableRef -> TableData)
    requires i < j <= |order|
    ensures TableStart(order, i, source) < TableStart(order, j, source)
  {
    ExportLinesGrow(order, i, source);
    ExportLinesPrefix(order, i + 1, j, source);
  }

  /**
   * In the exported file, a table with a level comes after every table one
   * of its foreign keys references: the referenced table's "-- Begin table:"
   * line is written first, so importing the file in order inserts the
   * referenced rows before the rows that point at them.
   */
  lemma ReferencedSectionFirst(tables: seq<TableRef>, fks: seq<FkLevels.ForeignKey>, source: TableRef -> TableData,
                               p: nat, q: nat, k: nat)
    requires FkLevelProperties.Distinct(tables) && k < |fks|
    requires p < |tables| && q < |tables|
    requires ExportOrder(tables, fks)[p] == fks[k].target
    requires ExportOrder(tables, fks)[q] == fks[k].owner && FkOrder.OrderedTables(tables, fks)[q].level > 0
    ensures TableStart(ExportOrder(tables, fks), p, source) < TableStart(ExportOrder(tables, fks), q, source)
    ensures BeginsSection(ExportLines(ExportOrder(tables, fks), source), TableStart(ExportOrder(tables, fks), p, source), fks[k].target)
    ensures BeginsSection(ExportLines(ExportOrder(tables, fks), source), TableStart(ExportOrder(tables, fks), q, source), fks[k].owner)
  {
    var out := FkOrder.OrderedTables(tables, fks);
    var order := TableOrder(out);
    assert out[p].table == fks[k].target && out[q].table == fks[k].owner;
    FkOrder.ReferencedFirst(tables, fks, p, q, k);
    TableStartsIncrease(order, p, q, source);
    BeginLineAt(order, p, source);
    BeginLineAt(order, q, source);
  }

  // ---------------------------------------------------------------------------
  // The batches, described without the loop

  /** Rows of a batch, one per line, each but the last followed by a comma. */
  function Commas(texts: seq<string>): seq<string> {
    seq(|texts|, i requires 0 <= i < |texts| => if i < |texts| - 1 then texts[i] + "," else texts[i])
  }

  /** Consecutive groups of 100 items, the last one holding the remainder. */
  function Chunks<T>(xs: seq<T>): seq<seq<T>>
    decreases |xs|
  {
    if xs == [] then []
    else if |xs| <= 100 then [xs]
    else [xs[..100]] + Chunks(xs[100..])
  }

  /** Concatenation of a sequence of sequences. */
  function Flatten<T>(xss: seq<seq<T>>): seq<T>
    decreases |xss|
  {
    if xss == [] then [] else xss[0] + Flatten(xss[1..])
  }

  /** Groups of rows, each after an INSERT head, separated by full-batch markers. */
  function BatchedLines(ins: string, chunks: seq<seq<string>>): seq<string>
    decreases |chunks|
  {
    if chunks == [] then []
    else if |chunks| == 1 then Commas(chunks[0])
    else Commas(chunks[0]) + [BatchLine(100), ins] + BatchedLines(ins, chunks[1..])
  }

  lemma CommasCons(x: string, ys: seq<string>)
    requires ys != []
    ensures Commas([x] + ys) == [x + ","] + Commas(ys)
  {
  }

  /** Inside a batch, a row only ends the unfinished line with a comma. */
  lemma RowLinesInBatch(p: string, r: nat, ins: string, texts: seq<string>)
    requires 1 <= r < 100 && texts != []
    ensures RowLines(p, r, ins, texts) == [p + ","] + RowLines(texts[0], r + 1, ins, texts[1..])
  {
    assert r % 100 == r;
  }

  /** Rows that fit in the current batch: each line but the last closed by a comma. */
  lemma {:induction false} RowLinesWithinBatch(p: string, r: nat, ins: string, texts: seq<string>)
    requires 1 <= r && r + |texts| <= 100
    ensures RowLines(p, r, ins, texts) == Commas([p] + texts)
    decreases |texts|
  {
    if texts == [] {
      assert Commas([p]) == [p];
    } else {
      RowLinesInBatch(p, r, ins, texts);
      RowLinesWithinBatch(texts[0], r + 1, ins, texts[1..]);
      assert [texts[0]] + texts[1..] == texts;
      CommasCons(p, texts);
    }
  }

  /**
   * Rows that overflow the current batch: the rows up to its end, its
   * marker, a new INSERT head, then the rest from a new batch.
   */
  lemma {:induction false} RowLinesPastBatch(p: string, r: nat, ins: string, texts: seq<string>)
    requires 1 <= r <= 100 && 100 - r < |texts|
    ensures RowLines(p, r, ins, texts) ==
      Commas([p] + texts[..100 - r]) + [BatchLine(100), ins] + RowLines(texts[100 - r], 1, ins, texts[100 - r + 1..])
    decreases |texts|
  {
    if r == 100 {
      RowLinesAtBatchEnd(p, ins, texts);
    } else {
      var m := 100 - r;
      var rest := texts[1..];
      var head := [p + ","];
      var batch := Commas(texts[..m]);
      var next := [BatchLine(100), ins];
      var after := RowLines(texts[m], 1, ins, texts[m + 1..]);
      calc {
        RowLines(p, r, ins, texts);
        == { RowLinesInBatch(p, r, ins, texts); }
        head + RowLines(texts[0], r + 1, ins, rest);
        == { RowLinesPastBatch(texts[0], r + 1, ins, rest); TailSlices(texts, m); }
        head + (batch + next + after);
        == { AppendAssoc(head, batch + next, after); AppendAssoc(head, batch, next); }
        head + batch + next + after;
        == { CommasCons(p, texts[..m]); }
        Commas([p] + texts[..m]) + next + after;
      }
    }
  }

  /** The row that fills a batch is followed by the batch's marker and a new INSERT head. */
  lemma RowLinesAtBatchEnd(p: string, ins: string, texts: seq<string>)
    requires texts != []
    ensures RowLines(p, 100, ins, texts) == Commas([p] + texts[..0]) + [BatchLine(100), ins] + RowLines(texts[0], 1, ins, texts[1..])
  {
    assert [p] + texts[..0] == [p];
    assert Commas([p]) == [p];
  }

  lemma TailSlices<T>(s: seq<T>, m: nat)
    requires 1 <= m < |s|
    ensures [s[0]] + s[1..][..m - 1] == s[..m]
    ensures s[1..][m - 1] == s[m] && s[1..][m..] == s[m + 1..]
  {
  }

  /** From a batch's first row on, the rows are written in groups of 100. */
  lemma {:induction false} RowLinesBatched(ins: string, texts: seq<string>)
    requires texts != []
    ensures RowLines(texts[0], 1, ins, texts[1..]) == BatchedLines(ins, Chunks(texts))
    decreases |texts|
  {
    var rest := texts[1..];
    if |texts| <= 100 {
      RowLinesWithinBatch(texts[0], 1, ins, rest);
      assert [texts[0]] + rest == texts;
    } else {
      RowLinesPastBatch(texts[0], 1, ins, rest);
      assert [texts[0]] + rest[..99] == texts[..100];
      var tail := texts[100..];
      RowLinesBatched(ins, tail);
      assert rest[99] == tail[0];
      assert rest[100..] == tail[1..];
      var c := Chunks(texts);
      assert c == [texts[..100]] + Chunks(tail);
      assert c[1..] == Chunks(tail);
    }
  }

  /** What Chunks promises: the groups put back together are the input; 1..100 items each; all but the last exactly 100. */
  lemma {:induction false} ChunksShape<T>(xs: seq<T>)
    ensures Flatten(Chunks(xs)) == xs
    ensures forall j :: 0 <= j < |Chunks(xs)| ==> 1 <= |Chunks(xs)[j]| <= 100
    ensures forall j :: 0 <= j < |Chunks(xs)| - 1 ==> |Chunks(xs)[j]| == 100
    ensures xs != [] ==> |Chunks(xs)| > 0 && |Chunks(xs)[|Chunks(xs)| - 1]| == BatchPosition(|xs|)
    ensures |Chunks(xs)| == (|xs| + 99) / 100
    decreases |xs|
  {
    if xs != [] && |xs| > 100 {
      var tail := xs[100..];
      ChunksShape(tail);
      var c := Chunks(xs);
      assert c == [xs[..100]] + Chunks(tail);
      assert c[1..] == Chunks(tail);
      assert Flatten(c) == xs[..100] + Flatten(Chunks(tail));
      assert xs[..100] + tail == xs;
      assert BatchPosition(|xs|) == BatchPosition(|tail|);
      forall j | 0 <= j < |c|
        ensures 1 <= |c[j]| <= 100
      {
        if j > 0 {
          assert c[j] == Chunks(tail)[j - 1];
        }
      }
      forall j | 0 <= j < |c| - 1
        ensures |c[j]| == 100
      {
        if j > 0 {
          assert c[j] == Chunks(tail)[j - 1];
        }
      }
    } else if xs != [] {
      assert Flatten(Chunks(xs)) == xs + [];
    }
  }

  /**
   * A table with rows is written as its header, a blank line, then its rows
   * in consecutive groups of 100, each group after one INSERT head and every
   * full group closed by a "100 rows in batch" marker; the last marker gives
   * the size of the last group and the total.
   */
  lemma TableLinesBatched(t: TableRef, d: TableData)
    requires d.count != 0 && d.rows != []
    ensures var texts := RowTexts(d.rows);
      var ins := InsertStatement(t, d.columns);
      var c := Chunks(texts);
      TableLines(t, d) ==
        BeginLines(t) + ["", ins] + BatchedLines(ins, c) + EndLines(t, |c[|c| - 1]|, |d.rows|)
  {
    var texts := RowTexts(d.rows);
    var ins := InsertStatement(t, d.columns);
    var c := Chunks(texts);
    ChunksShape(texts);
    var e := EndLines(t, |c[|c| - 1]|, |d.rows|);
    calc {
      TableLines(t, d);
      BeginLines(t) + (RowLines("", 0, ins, texts) + e);
      == { RowLinesFirst(ins, texts); }
      BeginLines(t) + (["", ins] + RowLines(texts[0], 1, ins, texts[1..]) + e);
      == { RowLinesBatched(ins, texts); }
      BeginLines(t) + (["", ins] + BatchedLines(ins, c) + e);
      == { AppendAssoc(BeginLines(t), ["", ins] + BatchedLines(ins, c), e);
           AppendAssoc(BeginLines(t), ["", ins], BatchedLines(ins, c)); }
      BeginLines(t) + ["", ins] + BatchedLines(ins, c) + e;
    }
  }

  /** The first row opens the table's first batch with its INSERT head. */
  lemma RowLinesFirst(ins: string, texts: seq<string>)
    requires texts != []
    ensures RowLines("", 0, ins, texts) == ["", ins] + RowLines(texts[0], 1, ins, texts[1..])
  {
  }

  /** A table whose count is 0 gets its header, the "No rows in table" notice, and no INSERT. */
  lemma EmptyTable(t: TableRef, d: TableData)
    requires d.count == 0
    ensures TableLines(t, d) == BeginLines(t) + EmptyTableLines(t)
    ensures forall j :: 0 <= j < |TableLines(t, d)| ==> !StartsWith(TableLines(t, d)[j], "insert into")
  {
    var lines := TableLines(t, d);
    var marker := "GO -- SQL_BATCH -- No rows in table";
    assert lines == ["", Separator, "-- Begin table: " + FullName(t), Separator,
                     "-- No data in source table, skipping.", "", Separator, "-- End table: " + FullName(t), Separator,
                     marker, ""];
    assert Separator[0] == '-';
    assert ("-- Begin table: " + FullName(t))[0] == '-';
    assert ("-- End table: " + FullName(t))[0] == '-';
    assert "-- No data in source table, skipping."[0] == '-';
    assert marker[0] == 'G';
    forall j | 0 <= j < |lines|
      ensures !StartsWith(lines[j], "insert into")
    {
      assert lines[j] == [] || lines[j][0] == '-' || lines[j][0] == 'G';
      NotStartsWith(lines[j], "insert into");
    }
  }

  /** 250 rows are written as batches of 100, 100 and 50, and the last marker says so. */
  lemma TwoHundredFiftyRows(t: TableRef, d: TableData)
    requires d.count != 0 && |d.rows| == 250
    ensures var c := Chunks(RowTexts(d.rows));
      |c| == 3 && |c[0]| == 100 && |c[1]| == 100 && |c[2]| == 50
    ensures TableLines(t, d)[|TableLines(t, d)| - 2] ==
      "GO -- SQL_BATCH -- " + "50" + " rows in batch, " + "250" + " total rows"
  {
    var texts := RowTexts(d.rows);
    ChunksShape(texts);
    var c := Chunks(texts);
    assert |c| == 3;
    assert |c[2]| == BatchPosition(250) == 50;
    LastMarker(t, d);
    FinalLineOf250();
  }

  /** The final marker of 250 rows, spelt out. */
  lemma FinalLineOf250()
    ensures FinalLine(50, 250) ==
      "GO -- SQL_BATCH -- " + "50" + " rows in batch, " + "250" + " total rows"
  {
    assert NatToString(50) == "50" by {
      assert NatToString(5) == "5";
    }
    assert NatToString(250) == "250" by {
      assert NatToString(2) == "2";
      assert NatToString(25) == "25";
    }
  }

  /** The line before a table's last one is the marker of its last batch. */
  lemma LastMarker(t: TableRef, d: TableData)
    requires d.count != 0
    ensures TableLines(t, d)[|TableLines(t, d)| - 2] == FinalLine(BatchPosition(|d.rows|), |d.rows|)
  {
    var front := BeginLines(t) + RowLines("", 0, InsertStatement(t, d.columns), RowTexts(d.rows));
    var end := EndLines(t, BatchPosition(|d.rows|), |d.rows|);
    assert TableLines(t, d) == front + end;
    assert (front + end)[|front + end| - 2] == end[4];
  }
}
