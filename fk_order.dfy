/**
 * The result of ListTablesInFKOrder (Data.cs): every table with its level,
 * ordered by level, then schema, then name. Tables without a level (0)
 * come first; every other table comes after each table it references.
 */
module FkOrder {
  import opened Strings
  import opened Catalog
  import opened FkLevels
  import opened FkLevelProperties

  /** A result row: schema_name and table_name, and the level as cardinality. */
  datatype LeveledTable = LeveledTable(table: TableRef, level: int)

  /** a comes strictly before b in ordinal character order. */
  predicate LexLt(a: string, b: string) {
    LexLe(a, b) && a != b
  }

  /** ORDER BY sort_order, table_schema, table_name, with names compared character by character. */
  predicate RowLe(a: LeveledTable, b: LeveledTable) {
    a.level < b.level ||
    (a.level == b.level &&
      (LexLt(a.table.schema, b.table.schema) ||
        (a.table.schema == b.table.schema && LexLe(a.table.name, b.table.name))))
  }

  lemma RowLeTotal(a: LeveledTable, b: LeveledTable)
    ensures RowLe(a, b) || RowLe(b, a)
  {
    LexLeTotal(a.table.schema, b.table.schema);
    LexLeTotal(a.table.name, b.table.name);
  }

  lemma RowLeTransitive(a: LeveledTable, b: LeveledTable, c: LeveledTable)
    requires RowLe(a, b) && RowLe(b, c)
    ensures RowLe(a, c)
  {
    if a.level == b.level == c.level {
      var sa, sb, sc := a.table.schema, b.table.schema, c.table.schema;
      if sa == sb == sc {
        LexLeTransitive(a.table.name, b.table.name, c.table.name);
      } else {
        LexLeReflexive(sa);
        LexLeReflexive(sb);
        LexLeTransitive(sa, sb, sc);
        if sa == sc {
          LexLeAntisymmetric(sa, sb);
        }
      }
    }
  }

  predicate Sorted(s: seq<LeveledTable>) {
    forall p, q :: 0 <= p < q < |s| ==> RowLe(s[p], s[q])
  }

  /** Insert x before the first row it does not follow. */
  function Insert(x: LeveledTable, s: seq<LeveledTable>): (r: seq<LeveledTable>)
    ensures multiset(r) == multiset(s) + multiset{x}
    ensures |r| == |s| + 1
    decreases |s|
  {
    if s == [] || RowLe(x, s[0]) then [x] + s
    else
      assert s == [s[0]] + s[1..];
      [s[0]] + Insert(x, s[1..])
  }

  /** The ORDER BY, as an insertion sort. */
  function SortRows(s: seq<LeveledTable>): (r: seq<LeveledTable>)
    ensures multiset(r) == multiset(s)
    ensures |r| == |s|
    decreases |s|
  {
    if s == [] then []
    else
      assert s == [s[0]] + s[1..];
      Insert(s[0], SortRows(s[1..]))
  }

  lemma SortedTail(s: seq<LeveledTable>)
    requires Sorted(s) && s != []
    ensures Sorted(s[1..])
  {
    forall p, q | 0 <= p < q < |s[1..]|
      ensures RowLe(s[1..][p], s[1..][q])
    {
      assert s[1..][p] == s[p + 1] && s[1..][q] == s[q + 1];
    }
  }

  lemma {:induction false} InsertSorted(x: LeveledTable, s: seq<LeveledTable>)
    requires Sorted(s)
    ensures Sorted(Insert(x, s))
    decreases |s|
  {
    var r := Insert(x, s);
    if s == [] || RowLe(x, s[0]) {
      forall p, q | 0 <= p < q < |r|
        ensures RowLe(r[p], r[q])
      {
        if p == 0 && q > 1 {
          RowLeTransitive(x, s[0], s[q - 1]);
        } else if p > 0 {
          assert r[p] == s[p - 1] && r[q] == s[q - 1];
        }
      }
    } else {
      SortedTail(s);
      InsertSorted(x, s[1..]);
      RowLeTotal(x, s[0]);
      var t := Insert(x, s[1..]);
      forall p, q | 0 <= p < q < |r|
        ensures RowLe(r[p], r[q])
      {
        if p == 0 {
          var e := r[q];
          assert e == t[q - 1];
          assert e in multiset(t);
          if e != x {
            assert e in multiset(s[1..]);
            var y :| 0 <= y < |s[1..]| && s[1..][y] == e;
            assert e == s[y + 1];
          }
        } else {
          assert r[p] == t[p - 1] && r[q] == t[q - 1];
        }
      }
    }
  }

  lemma {:induction false} SortRowsSorted(s: seq<LeveledTable>)
    ensures Sorted(SortRows(s))
    decreases |s|
  {
    if s != [] {
      SortRowsSorted(s[1..]);
      InsertSorted(s[0], SortRows(s[1..]));
    }
  }

  /** The rows of #tables: each table with its level. */
  function Rows(tables: seq<TableRef>, levels: seq<int>): (rows: seq<LeveledTable>)
    requires |levels| == |tables|
    ensures |rows| == |tables|
  {
    seq(|tables|, j requires 0 <= j < |tables| => LeveledTable(tables[j], levels[j]))
  }

  /** The result of ListTablesInFKOrder. */
  function OrderedTables(tables: seq<TableRef>, fks: seq<ForeignKey>): (out: seq<LeveledTable>)
    ensures |out| == |tables|
  {
    SortRows(Rows(tables, TableLevels(tables, fks)))
  }

  /** ListTablesInFKOrder: compute the levels, then read #tables in order. */
  method ListTablesInFKOrder(tables: seq<TableRef>, fks: seq<ForeignKey>) returns (result: seq<LeveledTable>)
    ensures result == OrderedTables(tables, fks)
  {
    var levels := ComputeLevels(tables, fks);
    result := SortRows(Rows(tables, levels[..]));
  }

  /** The result lists every table once with its level, in ORDER BY order. */
  lemma OrderedTablesSortedPermutation(tables: seq<TableRef>, fks: seq<ForeignKey>)
    ensures multiset(OrderedTables(tables, fks)) == multiset(Rows(tables, TableLevels(tables, fks)))
    ensures |OrderedTables(tables, fks)| == |tables|
    ensures Sorted(OrderedTables(tables, fks))
  {
    SortRowsSorted(Rows(tables, TableLevels(tables, fks)));
  }

  /** A row of the result is the row of some table. */
  lemma RowOfResult(tables: seq<TableRef>, fks: seq<ForeignKey>, q: int) returns (j: int)
    requires 0 <= q < |OrderedTables(tables, fks)|
    ensures 0 <= j < |tables| && OrderedTables(tables, fks)[q] == LeveledTable(tables[j], TableLevels(tables, fks)[j])
  {
    var out := OrderedTables(tables, fks);
    var rows := Rows(tables, TableLevels(tables, fks));
    assert out[q] in multiset(out);
    assert out[q] in multiset(rows);
    j :| 0 <= j < |rows| && rows[j] == out[q];
  }

  /**
   * A table with a level is listed after every table it references: the
   * order in which rows can be inserted without breaking a foreign key.
   */
  lemma ReferencedFirst(tables: seq<TableRef>, fks: seq<ForeignKey>, p: int, q: int, k: int)
    requires Distinct(tables) && 0 <= k < |fks|
    requires 0 <= p < |OrderedTables(tables, fks)| && 0 <= q < |OrderedTables(tables, fks)|
    requires OrderedTables(tables, fks)[q].table == fks[k].owner && OrderedTables(tables, fks)[q].level > 0
    requires OrderedTables(tables, fks)[p].table == fks[k].target
    ensures p < q
  {
    var out := OrderedTables(tables, fks);
    var levels := TableLevels(tables, fks);
    OrderedTablesSortedPermutation(tables, fks);
    var jq := RowOfResult(tables, fks, q);
    var jp := RowOfResult(tables, fks, p);
    FkCountMember(fks, fks[k]);
    LevelOneIffNoForeignKeys(tables, fks, jq);
    LevelAboveReferenced(tables, fks, jq);
    IndexOfAt(tables, jp);
    assert LevelOf(tables, levels, fks[k].target) == levels[jp];
    assert out[p].level < out[q].level;
  }
}
