/**
 * Wipe (Data.cs): take the tables in foreign-key order, reverse the list in
 * place, and delete the rows of each table in turn, so that a table is
 * emptied before every table it references.
 */
module Wipe {
  import opened Catalog
  import opened SqlLog
  import opened FkLevels
  import opened FkLevelProperties
  import opened FkOrder

  function Reversed<T>(s: seq<T>): (r: seq<T>)
    ensures |r| == |s|
    ensures forall i :: 0 <= i < |s| ==> r[i] == s[|s| - 1 - i]
    decreases |s|
  {
    if s == [] then [] else Reversed(s[1..]) + [s[0]]
  }

  /** List.Reverse: swap from both ends towards the middle. */
  method ReverseInPlace<T>(a: array<T>)
    modifies a
    ensures a[..] == Reversed(old(a[..]))
  {
    ghost var s := a[..];
    var lo, hi := 0, a.Length - 1;
    while lo < hi
      invariant 0 <= lo <= a.Length && hi == a.Length - 1 - lo
      invariant forall i :: 0 <= i < lo ==> a[i] == s[a.Length - 1 - i] && a[a.Length - 1 - i] == s[i]
      invariant forall i :: lo <= i <= hi ==> a[i] == s[i]
      decreases hi - lo
    {
      a[lo], a[hi] := a[hi], a[lo];
      lo, hi := lo + 1, hi - 1;
    }
  }

  /** Reversing twice gives the list back. */
  lemma ReversedTwice<T>(s: seq<T>)
    ensures Reversed(Reversed(s)) == s
  {
    assert forall i :: 0 <= i < |s| ==> Reversed(Reversed(s))[i] == s[i];
  }

  /** The statement Wipe runs for one table. */
  function DeleteStatement(t: TableRef): string {
    "delete from " + FullName(t)
  }

  function DeleteStatements(rows: seq<LeveledTable>): (r: seq<string>)
    ensures |r| == |rows|
    ensures forall i :: 0 <= i < |rows| ==> r[i] == DeleteStatement(rows[i].table)
  {
    seq(|rows|, i requires 0 <= i < |rows| => DeleteStatement(rows[i].table))
  }

  /** The deletes, in the order Wipe runs them. */
  function WipeStatements(tables: seq<TableRef>, fks: seq<ForeignKey>): seq<string> {
    DeleteStatements(Reversed(OrderedTables(tables, fks)))
  }

  method Wipe(tables: seq<TableRef>, fks: seq<ForeignKey>, db: Database)
    modifies db
    ensures db.log == old(db.log) + WipeStatements(tables, fks)
  {
    var ordered := ListTablesInFKOrder(tables, fks);
    var a := new LeveledTable[|ordered|](i requires 0 <= i < |ordered| => ordered[i]);
    assert a[..] == ordered;
    ReverseInPlace(a);
    DeleteEach(a, db);
  }

  /** The foreach loop: one delete per row, in list order. */
  method DeleteEach(a: array<LeveledTable>, db: Database)
    modifies db
    ensures db.log == old(db.log) + DeleteStatements(a[..])
  {
    for k := 0 to a.Length
      invariant db.log == old(db.log) + DeleteStatements(a[..k])
    {
      assert a[..k + 1] == a[..k] + [a[k]];
      db.WriteRaw(DeleteStatement(a[k].table));
    }
    assert a[..a.Length] == a[..];
  }

  /**
   * A table with a level is deleted before each table it references, so
   * no delete removes rows that a remaining row still points at.
   */
  lemma WipeDeletesDependentsFirst(tables: seq<TableRef>, fks: seq<ForeignKey>, x: int, y: int, k: int)
    requires Distinct(tables) && 0 <= k < |fks|
    requires 0 <= x < |tables| && 0 <= y < |tables|
    requires Reversed(OrderedTables(tables, fks))[x].table == fks[k].owner
    requires Reversed(OrderedTables(tables, fks))[x].level > 0
    requires Reversed(OrderedTables(tables, fks))[y].table == fks[k].target
    ensures x < y
    ensures WipeStatements(tables, fks)[x] == DeleteStatement(fks[k].owner)
    ensures WipeStatements(tables, fks)[y] == DeleteStatement(fks[k].target)
  {
    var out := OrderedTables(tables, fks);
    OrderedTablesSortedPermutation(tables, fks);
    var n := |out|;
    ReferencedFirst(tables, fks, n - 1 - y, n - 1 - x, k);
  }
}
