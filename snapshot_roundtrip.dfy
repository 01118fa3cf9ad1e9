/**
 * Export followed by Import: when no written line contains a line break,
 * importing an exported script executes one batch per marker line, each
 * batch holding the lines since the previous marker and at most one INSERT
 * statement; a table contributes one batch per group of up to 100 rows.
 */
module SnapshotRoundTrip {
  import opened Wrappers
  import opened Strings
  import opened ValueCodec
  import opened Catalog
  import opened SnapshotFormat
  import opened SnapshotExport
  import opened SnapshotImport

  predicate IsInsertLine(line: string) {
    StartsWith(line, "insert into")
  }

  /** A line that is neither a marker nor an INSERT head. */
  predicate Plain(line: string) {
    !IsMarker(line) && !IsInsertLine(line)
  }

  predicate AllPlain(lines: seq<string>) {
    forall j :: 0 <= j < |lines| ==> Plain(lines[j])
  }

  lemma PlainByFirst(line: string)
    requires line == [] || (line[0] != 'G' && line[0] != 'i')
    ensures Plain(line)
  {
    NotMarker(line);
    NotStartsWith(line, "insert into");
  }

  /** Every marker the export writes starts with the marker prefix. */
  lemma MarkerText(rest: string)
    ensures IsMarker("GO -- SQL_BATCH -- " + rest)
  {
    assert ("GO -- SQL_BATCH -- " + rest)[..|MarkerPrefix|] == MarkerPrefix;
  }

  // ---------------------------------------------------------------------------
  // Scanning for batches with two INSERT heads

  /**
   * Scanning lines, `seen` telling whether the current batch already has an
   * INSERT head: None when some batch gets a second one, otherwise whether
   * the batch open at the end has one.
   */
  function Scan(lines: seq<string>, seen: bool): Option<bool>
    decreases |lines|
  {
    if lines == [] then Some(seen)
    else if IsMarker(lines[0]) then Scan(lines[1..], false)
    else if IsInsertLine(lines[0]) then (if seen then None else Scan(lines[1..], true))
    else Scan(lines[1..], seen)
  }

  lemma {:induction false} ScanAppend(a: seq<string>, b: seq<string>, seen: bool)
    ensures Scan(a + b, seen) == match Scan(a, seen) case None => None case Some(s) => Scan(b, s)
    decreases |a|
  {
    if a == [] {
      assert a + b == b;
    } else {
      assert (a + b)[1..] == a[1..] + b;
      if IsMarker(a[0]) {
        ScanAppend(a[1..], b, false);
      } else if IsInsertLine(a[0]) {
        if !seen {
          ScanAppend(a[1..], b, true);
        }
      } else {
        ScanAppend(a[1..], b, seen);
      }
    }
  }

  lemma {:induction false} ScanPlain(lines: seq<string>, seen: bool)
    requires AllPlain(lines)
    ensures Scan(lines, seen) == Some(seen)
    decreases |lines|
  {
    if lines != [] {
      ScanPlain(lines[1..], seen);
    }
  }

  lemma {:induction false} MarkerCountAppend(a: seq<string>, b: seq<string>)
    ensures MarkerCount(a + b) == MarkerCount(a) + MarkerCount(b)
    decreases |a|
  {
    if a == [] {
      assert a + b == b;
    } else {
      assert (a + b)[1..] == a[1..] + b;
      MarkerCountAppend(a[1..], b);
    }
  }

  lemma {:induction false} MarkerCountPlain(lines: seq<string>)
    requires AllPlain(lines)
    ensures MarkerCount(lines) == 0
    decreases |lines|
  {
    if lines != [] {
      MarkerCountPlain(lines[1..]);
    }
  }

  /** Plain lines, one marker, plain lines: the batch is closed, and that is the only marker. */
  lemma ClosedByMarker(p: seq<string>, m: string, q: seq<string>, seen: bool)
    requires AllPlain(p) && IsMarker(m) && AllPlain(q)
    ensures Scan(p + [m] + q, seen) == Some(false)
    ensures MarkerCount(p + [m] + q) == 1
  {
    ScanAppend(p + [m], q, seen);
    ScanAppend(p, [m], seen);
    ScanPlain(p, seen);
    ScanPlain(q, false);
    assert [m][1..] == [];
    MarkerCountAppend(p + [m], q);
    MarkerCountAppend(p, [m]);
    MarkerCountPlain(p);
    MarkerCountPlain(q);
  }

  // ---------------------------------------------------------------------------
  // The lines of one table

  /** What CreateValuesList writes: empty, or a tuple opening with '('. */
  predicate ValueText(s: string) {
    s == [] || s[0] == '('
  }

  predicate AllValueTexts(texts: seq<string>) {
    forall j :: 0 <= j < |texts| ==> ValueText(texts[j])
  }

  lemma RowTextsAreValueTexts(rows: seq<seq<Value>>)
    ensures AllValueTexts(RowTexts(rows))
  {
  }

  lemma CommasPlain(texts: seq<string>)
    requires AllValueTexts(texts)
    ensures AllPlain(Commas(texts))
  {
    forall j | 0 <= j < |texts|
      ensures Plain(Commas(texts)[j])
    {
      var l := Commas(texts)[j];
      if texts[j] == [] {
        assert l == [] || l == ",";
      } else {
        assert l[0] == '(';
      }
      PlainByFirst(l);
    }
  }

  lemma {:induction false} ChunksValueTexts(texts: seq<string>)
    requires AllValueTexts(texts)
    ensures forall j :: 0 <= j < |Chunks(texts)| ==> AllValueTexts(Chunks(texts)[j])
    decreases |texts|
  {
    if |texts| > 100 {
      var tail := texts[100..];
      ChunksValueTexts(tail);
      var c := Chunks(texts);
      assert c == [texts[..100]] + Chunks(tail);
      forall j | 0 <= j < |c|
        ensures AllValueTexts(c[j])
      {
        if j > 0 {
          assert c[j] == Chunks(tail)[j - 1];
        }
      }
    }
  }

  lemma InsertHead(t: TableRef, columns: seq<string>)
    ensures IsInsertLine(InsertStatement(t, columns)) && !IsMarker(InsertStatement(t, columns))
  {
    var ins := InsertStatement(t, columns);
    assert ins[..11] == "insert into";
    NotMarker(ins);
  }

  /** Inside the groups of rows, every INSERT head follows a marker, and there is one marker fewer than groups. */
  lemma {:induction false} ScanBatched(ins: string, chunks: seq<seq<string>>)
    requires IsInsertLine(ins) && !IsMarker(ins)
    requires chunks != [] && forall j :: 0 <= j < |chunks| ==> AllValueTexts(chunks[j])
    ensures Scan(BatchedLines(ins, chunks), true) == Some(true)
    ensures MarkerCount(BatchedLines(ins, chunks)) == |chunks| - 1
    decreases |chunks|
  {
    CommasPlain(chunks[0]);
    ScanPlain(Commas(chunks[0]), true);
    MarkerCountPlain(Commas(chunks[0]));
    if |chunks| > 1 {
      var rest := chunks[1..];
      ScanBatched(ins, rest);
      var c := Commas(chunks[0]);
      var b := BatchedLines(ins, rest);
      assert BatchedLines(ins, chunks) == c + ([BatchLine(100), ins] + b);
      NextBatch(ins, b);
      ScanAppend(c, [BatchLine(100), ins] + b, true);
      MarkerCountAppend(c, [BatchLine(100), ins] + b);
    }
  }

  /** A full-batch marker then an INSERT head: the next batch starts with its one INSERT. */
  lemma NextBatch(ins: string, b: seq<string>)
    requires IsInsertLine(ins) && !IsMarker(ins)
    ensures Scan([BatchLine(100), ins] + b, true) == Scan(b, true)
    ensures MarkerCount([BatchLine(100), ins] + b) == 1 + MarkerCount(b)
  {
    BatchLineIsMarker(100);
    var l := [BatchLine(100), ins] + b;
    assert l[1..] == [ins] + b;
    assert l[1..][1..] == b;
  }

  lemma BatchLineIsMarker(n: nat)
    ensures IsMarker(BatchLine(n))
  {
    MarkerText(NatToString(n) + " rows in batch");
    assert BatchLine(n) == "GO -- SQL_BATCH -- " + (NatToString(n) + " rows in batch");
  }

  lemma FinalLineIsMarker(n: nat, total: nat)
    ensures IsMarker(FinalLine(n, total))
  {
    MarkerText(NatToString(n) + " rows in batch, " + NatToString(total) + " total rows");
    assert FinalLine(n, total) == "GO -- SQL_BATCH -- " + (NatToString(n) + " rows in batch, " + NatToString(total) + " total rows");
  }

  lemma BeginLinesPlain(t: TableRef)
    ensures AllPlain(BeginLines(t))
  {
    var name := "-- Begin table: " + FullName(t);
    assert name[0] == '-';
    assert Separator[0] == '-';
    PlainByFirst(Separator);
    PlainByFirst(name);
    PlainByFirst("");
  }

  /** A table's footer closes its last batch with the final marker. */
  lemma EndLinesShape(t: TableRef, n: nat, total: nat)
    ensures var e := EndLines(t, n, total);
      e == e[..4] + [e[4]] + e[5..] && AllPlain(e[..4]) && IsMarker(e[4]) && AllPlain(e[5..])
  {
    var e := EndLines(t, n, total);
    var name := "-- End table: " + FullName(t);
    assert name[0] == '-';
    assert Separator[0] == '-';
    PlainByFirst(Separator);
    PlainByFirst(name);
    PlainByFirst("");
    assert e[..4] == ["", Separator, name, Separator];
    assert e[5..] == [""];
    FinalLineIsMarker(n, total);
  }

  /** The number of batches a table is written in: one per group of up to 100 rows, and one for a table without rows. */
  function TableBatchCount(d: TableData): nat {
    if d.count == 0 || d.rows == [] then 1 else (|d.rows| + 99) / 100
  }

  /** Each table's batches hold at most one INSERT head each, and the table ends with its batches closed. */
  lemma TableScan(t: TableRef, d: TableData)
    ensures Scan(TableLines(t, d), false) == Some(false)
    ensures MarkerCount(TableLines(t, d)) == TableBatchCount(d)
  {
    if d.count == 0 {
      EmptyTableScan(t, d);
    } else if d.rows == [] {
      NoRowsScan(t, d);
    } else {
      RowsScan(t, d);
    }
  }

  lemma EmptyTableScan(t: TableRef, d: TableData)
    requires d.count == 0
    ensures Scan(TableLines(t, d), false) == Some(false)
    ensures MarkerCount(TableLines(t, d)) == 1
  {
    var b := BeginLines(t);
    var n := EmptyTableLines(t);
    BeginLinesPlain(t);
    EmptyTableLinesShape(t);
    var p := b + n[..5];
    AllPlainAppend(b, n[..5]);
    assert TableLines(t, d) == p + [n[5]] + n[6..];
    ClosedByMarker(p, n[5], n[6..], false);
  }

  lemma EmptyTableLinesShape(t: TableRef)
    ensures var n := EmptyTableLines(t);
      n == n[..5] + [n[5]] + n[6..] && AllPlain(n[..5]) && IsMarker(n[5]) && AllPlain(n[6..])
  {
    var skip := "-- No data in source table, skipping.";
    var name := "-- End table: " + FullName(t);
    var marker := "GO -- SQL_BATCH -- No rows in table";
    assert skip[0] == '-' && name[0] == '-' && Separator[0] == '-';
    PlainByFirst(skip);
    PlainByFirst(name);
    PlainByFirst(Separator);
    PlainByFirst("");
    MarkerText("No rows in table");
    assert marker == "GO -- SQL_BATCH -- " + "No rows in table";
  }

  lemma NoRowsScan(t: TableRef, d: TableData)
    requires d.count != 0 && d.rows == []
    ensures Scan(TableLines(t, d), false) == Some(false)
    ensures MarkerCount(TableLines(t, d)) == 1
  {
    var b := BeginLines(t);
    var e := EndLines(t, 0, 0);
    NoRowsLines(t, d);
    BeginLinesPlain(t);
    EndLinesShape(t, 0, 0);
    PlainByFirst("");
    var p := b + ([""] + e[..4]);
    AllPlainAppend([""], e[..4]);
    AllPlainAppend(b, [""] + e[..4]);
    assert TableLines(t, d) == p + [e[4]] + e[5..];
    ClosedByMarker(p, e[4], e[5..], false);
  }

  /** A table with a count but no rows read: its header, one empty line, then the footer. */
  lemma NoRowsLines(t: TableRef, d: TableData)
    requires d.count != 0 && d.rows == []
    ensures TableLines(t, d) == BeginLines(t) + ([""] + EndLines(t, 0, 0))
  {
    assert RowTexts(d.rows) == [];
    assert TableBody(t, d) == [""] + EndLines(t, 0, 0);
  }

  lemma AllPlainAppend(a: seq<string>, b: seq<string>)
    requires AllPlain(a) && AllPlain(b)
    ensures AllPlain(a + b)
  {
    forall j | 0 <= j < |a + b| ensures Plain((a + b)[j]) {
      if j >= |a| {
        assert (a + b)[j] == b[j - |a|];
      }
    }
  }

  lemma RowsScan(t: TableRef, d: TableData)
    requires d.count != 0 && d.rows != []
    ensures Scan(TableLines(t, d), false) == Some(false)
    ensures MarkerCount(TableLines(t, d)) == (|d.rows| + 99) / 100
  {
    var ins := InsertStatement(t, d.columns);
    var c := Chunks(RowTexts(d.rows));
    var bl := BatchedLines(ins, c);
    var e := EndLines(t, |c[|c| - 1]|, |d.rows|);
    var front := BeginLines(t) + [""];
    RowsLayout(t, d, ins, c, bl, e);
    RowsPieces(t, d, ins, c, bl, e);
    TableTail(front, ins, bl, e);
  }

  /** The lines of a table with rows, cut where the scan changes state. */
  lemma RowsLayout(t: TableRef, d: TableData, ins: string, c: seq<seq<string>>, bl: seq<string>, e: seq<string>)
    requires d.count != 0 && d.rows != []
    requires ins == InsertStatement(t, d.columns) && c == Chunks(RowTexts(d.rows)) && c != []
    requires bl == BatchedLines(ins, c) && e == EndLines(t, |c[|c| - 1]|, |d.rows|)
    ensures TableLines(t, d) == (BeginLines(t) + [""]) + ([ins] + (bl + e))
  {
    var front := BeginLines(t) + [""];
    TableLinesBatched(t, d);
    calc {
      TableLines(t, d);
      BeginLines(t) + ["", ins] + bl + e;
      == { assert BeginLines(t) + ["", ins] == front + [ins]; }
      front + [ins] + bl + e;
      == { AppendAssoc(front + [ins], bl, e); AppendAssoc(front, [ins], bl + e); }
      front + ([ins] + (bl + e));
    }
  }

  /** The pieces of a table with rows: plain header, INSERT head, closed batches, footer with its marker. */
  lemma RowsPieces(t: TableRef, d: TableData, ins: string, c: seq<seq<string>>, bl: seq<string>, e: seq<string>)
    requires d.count != 0 && d.rows != []
    requires ins == InsertStatement(t, d.columns) && c == Chunks(RowTexts(d.rows)) && c != []
    requires bl == BatchedLines(ins, c) && e == EndLines(t, |c[|c| - 1]|, |d.rows|)
    ensures AllPlain(BeginLines(t) + [""]) && IsInsertLine(ins) && !IsMarker(ins)
    ensures Scan(bl, true) == Some(true) && MarkerCount(bl) == (|d.rows| + 99) / 100 - 1
    ensures |e| >= 5 && e == e[..4] + [e[4]] + e[5..] && AllPlain(e[..4]) && IsMarker(e[4]) && AllPlain(e[5..])
  {
    var texts := RowTexts(d.rows);
    ChunksShape(texts);
    RowTextsAreValueTexts(d.rows);
    ChunksValueTexts(texts);
    InsertHead(t, d.columns);
    ScanBatched(ins, c);
    BeginLinesPlain(t);
    PlainByFirst("");
    EndLinesShape(t, |c[|c| - 1]|, |d.rows|);
  }

  /** Header, INSERT head, groups of rows, footer: scanned and counted piece by piece. */
  lemma TableTail(front: seq<string>, ins: string, bl: seq<string>, e: seq<string>)
    requires AllPlain(front) && IsInsertLine(ins) && !IsMarker(ins)
    requires Scan(bl, true) == Some(true)
    requires |e| >= 5 && e == e[..4] + [e[4]] + e[5..] && AllPlain(e[..4]) && IsMarker(e[4]) && AllPlain(e[5..])
    ensures Scan(front + ([ins] + (bl + e)), false) == Some(false)
    ensures MarkerCount(front + ([ins] + (bl + e))) == MarkerCount(bl) + 1
  {
    ClosedByMarker(e[..4], e[4], e[5..], true);
    AfterFront(front, ins, bl + e);
    ScanAppend(bl, e, true);
    MarkerCountAppend(bl, e);
  }

  lemma AfterFront(front: seq<string>, ins: string, rest: seq<string>)
    requires AllPlain(front) && IsInsertLine(ins) && !IsMarker(ins)
    ensures Scan(front + ([ins] + rest), false) == Scan(rest, true)
    ensures MarkerCount(front + ([ins] + rest)) == MarkerCount(rest)
  {
    ScanPlain(front, false);
    MarkerCountPlain(front);
    ScanAppend(front, [ins] + rest, false);
    MarkerCountAppend(front, [ins] + rest);
    assert ([ins] + rest)[1..] == rest;
  }

  /** The number of batches of the whole script. */
  function BatchTotal(order: seq<TableRef>, source: TableRef -> TableData): nat
    decreases |order|
  {
    if order == [] then 0
    else BatchTotal(order[..|order| - 1], source) + TableBatchCount(source(order[|order| - 1]))
  }

  lemma {:induction false} ExportScan(order: seq<TableRef>, source: TableRef -> TableData)
    ensures Scan(ExportLines(order, source), false) == Some(false)
    ensures MarkerCount(ExportLines(order, source)) == BatchTotal(order, source)
    decreases |order|
  {
    if order != [] {
      var init := order[..|order| - 1];
      var t := order[|order| - 1];
      ExportScan(init, source);
      TableScan(t, source(t));
      ScanAppend(ExportLines(init, source), TableLines(t, source(t)), false);
      MarkerCountAppend(ExportLines(init, source), TableLines(t, source(t)));
    }
  }

  // ---------------------------------------------------------------------------
  // Batches as groups of lines

  /** The lines of each batch: the lines before each marker since the previous one. */
  function Groups(lines: seq<string>): seq<seq<string>>
    decreases |lines|
  {
    var k := FirstMarker(lines);
    if k == |lines| then [] else [lines[..k]] + Groups(lines[k + 1..])
  }

  function UnlinesAll(groups: seq<seq<string>>): (r: seq<string>)
    ensures |r| == |groups|
  {
    seq(|groups|, i requires 0 <= i < |groups| => Unlines(groups[i]))
  }

  function InsertCount(lines: seq<string>): nat
    decreases |lines|
  {
    if lines == [] then 0 else (if IsInsertLine(lines[0]) then 1 else 0) + InsertCount(lines[1..])
  }

  lemma {:induction false} SegmentsGroups(lines: seq<string>)
    ensures Segments("", lines) == UnlinesAll(Groups(lines))
    decreases |lines|
  {
    var k := FirstMarker(lines);
    if k < |lines| {
      var rest := lines[k + 1..];
      SegmentsGroups(rest);
      assert "" + Unlines(lines[..k]) == Unlines(lines[..k]);
      UnlinesAllCons(lines[..k], Groups(rest));
      calc {
        Segments("", lines);
        [Unlines(lines[..k])] + Segments("", rest);
        [Unlines(lines[..k])] + UnlinesAll(Groups(rest));
        UnlinesAll([lines[..k]] + Groups(rest));
        UnlinesAll(Groups(lines));
      }
    } else {
      assert UnlinesAll(Groups(lines)) == [];
    }
  }

  lemma UnlinesAllCons(g: seq<string>, groups: seq<seq<string>>)
    ensures UnlinesAll([g] + groups) == [Unlines(g)] + UnlinesAll(groups)
  {
    assert UnlinesAll([g] + groups)[1..] == UnlinesAll(groups);
  }

  /** Within a batch, a scan that does not fail has seen at most one INSERT head. */
  lemma {:induction false} ScanInsertCount(g: seq<string>, seen: bool)
    requires forall j :: 0 <= j < |g| ==> !IsMarker(g[j])
    requires Scan(g, seen).Some?
    ensures InsertCount(g) + (if seen then 1 else 0) <= 1
    decreases |g|
  {
    if g != [] {
      ScanInsertCount(g[1..], seen || IsInsertLine(g[0]));
    }
  }

  lemma {:induction false} ScanGroups(lines: seq<string>)
    requires Scan(lines, false).Some?
    ensures forall j :: 0 <= j < |Groups(lines)| ==> InsertCount(Groups(lines)[j]) <= 1
    decreases |lines|
  {
    var k := FirstMarker(lines);
    if k < |lines| {
      var rest := lines[k + 1..];
      assert lines == lines[..k] + ([lines[k]] + rest);
      ScanAppend(lines[..k], [lines[k]] + rest, false);
      assert ([lines[k]] + rest)[1..] == rest;
      var s := Scan(lines[..k], false);
      assert s.Some?;
      ScanInsertCount(lines[..k], false);
      ScanGroups(rest);
      var g := Groups(lines);
      assert g == [lines[..k]] + Groups(rest);
      forall j | 0 <= j < |g|
        ensures InsertCount(g[j]) <= 1
      {
        if j > 0 {
          assert g[j] == Groups(rest)[j - 1];
        }
      }
    }
  }

  /**
   * Importing an exported script, when no written line contains a line
   * break (so reading the file back gives the written lines): the batches
   * executed are the groups of lines between markers, there are as many as
   * the tables' batch counts add up to, and none holds two INSERT heads.
   */
  lemma ExportThenImport(order: seq<TableRef>, source: TableRef -> TableData)
    requires forall j :: 0 <= j < |ExportLines(order, source)| ==> NoBreaks(ExportLines(order, source)[j])
    ensures var lines := ExportLines(order, source);
      var executed := ImportedBatches(ReadLines(Unlines(lines)));
      executed == UnlinesAll(Groups(lines)) &&
      |executed| == BatchTotal(order, source) &&
      forall j :: 0 <= j < |Groups(lines)| ==> InsertCount(Groups(lines)[j]) <= 1
  {
    var lines := ExportLines(order, source);
    ReadLinesUnlines(lines);
    ImportedBatchesAreSegments(lines);
    SegmentsGroups(lines);
    ImportExecutesOncePerMarker(lines);
    ExportScan(order, source);
    ScanGroups(lines);
  }
}
