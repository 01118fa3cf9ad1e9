/**
 * The level computation of ListTablesInFKOrder (Data.cs), a T-SQL script:
 * tables without foreign keys get level 1; then passes i = 2, 3, ... give
 * level i to every table still at level 0 all of whose foreign keys point,
 * through a primary key, at tables that already have a positive level. The
 * loop stops at the first pass that assigns nothing, or before pass 100.
 *
 * The scratch tables are modelled as they are: #tables holds one level
 * (sort_order) per table, #table_refs one row per primary-key reference
 * with its total_mapped column.
 */
module FkLevels {
  import opened Catalog

  /** A FOREIGN KEY constraint: the table it is declared on, the table its referenced constraint belongs to, and whether that constraint is a PRIMARY KEY. */
  datatype ForeignKey = ForeignKey(owner: TableRef, target: TableRef, toPrimaryKey: bool)

  /** A row of #table_refs: the referencing table, its foreign_key_count, and the referenced table. */
  datatype RefRow = RefRow(owner: TableRef, fkCount: nat, target: TableRef)

  /** The number of FOREIGN KEY constraints declared on t. */
  function FkCount(fks: seq<ForeignKey>, t: TableRef): nat
    decreases |fks|
  {
    if fks == [] then 0 else (if fks[0].owner == t then 1 else 0) + FkCount(fks[1..], t)
  }

  /** The foreign keys of listed tables whose referenced constraint is a primary key, in order. */
  function PkFks(tables: seq<TableRef>, fks: seq<ForeignKey>): (pk: seq<ForeignKey>)
    ensures forall r :: 0 <= r < |pk| ==> pk[r] in fks && pk[r].toPrimaryKey && pk[r].owner in tables
    decreases |fks|
  {
    if fks == [] then []
    else (if fks[0].toPrimaryKey && fks[0].owner in tables then [fks[0]] else []) + PkFks(tables, fks[1..])
  }

  /** The rows of #table_refs: one per primary-key reference, carrying its table's foreign_key_count. */
  function RefRows(tables: seq<TableRef>, fks: seq<ForeignKey>): (refs: seq<RefRow>)
    ensures |refs| == |PkFks(tables, fks)|
  {
    RowsOf(PkFks(tables, fks), fks)
  }

  /** One #table_refs row per reference in pk, with the owner's count of foreign keys in fks. */
  function RowsOf(pk: seq<ForeignKey>, fks: seq<ForeignKey>): (refs: seq<RefRow>)
    ensures |refs| == |pk|
  {
    seq(|pk|, r requires 0 <= r < |pk| => RefRow(pk[r].owner, FkCount(fks, pk[r].owner), pk[r].target))
  }

  /** The levels after the base case: 1 for a table without foreign keys, 0 for the others. */
  function InitialLevels(tables: seq<TableRef>, fks: seq<ForeignKey>): (levels: seq<int>)
    ensures |levels| == |tables|
  {
    seq(|tables|, j requires 0 <= j < |tables| => if FkCount(fks, tables[j]) == 0 then 1 else 0)
  }

  /** The count(*) subquery: rows of #tables for t with a positive level. */
  function ResolvedCount(tables: seq<TableRef>, levels: seq<int>, t: TableRef): nat
    requires |levels| == |tables|
    decreases |tables|
  {
    if tables == [] then 0
    else (if tables[0] == t && levels[0] > 0 then 1 else 0) + ResolvedCount(tables[1..], levels[1..], t)
  }

  /** The first UPDATE: rows whose foreign_key_count differs from total_mapped get their target's count. */
  function UpdateMapped(tables: seq<TableRef>, refs: seq<RefRow>, levels: seq<int>, mapped: seq<nat>): (m: seq<nat>)
    requires |levels| == |tables| && |mapped| == |refs|
    ensures |m| == |refs|
  {
    seq(|refs|, r requires 0 <= r < |refs| =>
      if refs[r].fkCount != mapped[r] then ResolvedCount(tables, levels, refs[r].target) else mapped[r])
  }

  /** Whether #table_refs has a row for t (the GROUP BY yields a group). */
  predicate HasRef(refs: seq<RefRow>, t: TableRef)
    decreases |refs|
  {
    refs != [] && (refs[0].owner == t || HasRef(refs[1..], t))
  }

  /** sum(total_mapped) over t's rows. */
  function MappedSum(refs: seq<RefRow>, mapped: seq<nat>, t: TableRef): nat
    requires |mapped| == |refs|
    decreases |refs|
  {
    if refs == [] then 0
    else (if refs[0].owner == t then mapped[0] else 0) + MappedSum(refs[1..], mapped[1..], t)
  }

  /** max(foreign_key_count) over t's rows. */
  function MaxFkCount(refs: seq<RefRow>, t: TableRef): nat
    decreases |refs|
  {
    if refs == [] then 0
    else
      var rest := MaxFkCount(refs[1..], t);
      if refs[0].owner == t && refs[0].fkCount > rest then refs[0].fkCount else rest
  }

  /** The HAVING clause: t has rows, and all of its foreign keys are mapped. */
  predicate Qualifies(refs: seq<RefRow>, mapped: seq<nat>, t: TableRef)
    requires |mapped| == |refs|
  {
    HasRef(refs, t) && MaxFkCount(refs, t) == MappedSum(refs, mapped, t)
  }

  /** The second UPDATE: tables at level 0 that qualify get level i. */
  function AssignLevels(tables: seq<TableRef>, refs: seq<RefRow>, levels: seq<int>, mapped: seq<nat>, i: int): (next: seq<int>)
    requires |levels| == |tables| && |mapped| == |refs|
    ensures |next| == |tables|
  {
    seq(|tables|, j requires 0 <= j < |tables| =>
      if levels[j] == 0 && Qualifies(refs, mapped, tables[j]) then i else levels[j])
  }

  /** @@rowcount of the second UPDATE. */
  function RowCount(tables: seq<TableRef>, refs: seq<RefRow>, levels: seq<int>, mapped: seq<nat>): nat
    requires |levels| == |tables| && |mapped| == |refs|
    decreases |tables|
  {
    if tables == [] then 0
    else
      (if levels[0] == 0 && Qualifies(refs, mapped, tables[0]) then 1 else 0) +
      RowCount(tables[1..], refs, levels[1..], mapped)
  }

  /** The WHILE loop: a pass runs while the previous one assigned something and i < 100. */
  function Run(tables: seq<TableRef>, refs: seq<RefRow>, levels: seq<int>, mapped: seq<nat>, i: int, rows: int): (final: seq<int>)
    requires |levels| == |tables| && |mapped| == |refs|
    ensures |final| == |tables|
    decreases 100 - i
  {
    if !(rows > 0 && i < 100) then levels
    else
      var m := UpdateMapped(tables, refs, levels, mapped);
      Run(tables, refs, AssignLevels(tables, refs, levels, m, i), m, i + 1, RowCount(tables, refs, levels, m))
  }

  function Zeros(n: nat): (z: seq<nat>)
    ensures |z| == n && forall r :: 0 <= r < n ==> z[r] == 0
  {
    seq(n, _ => 0)
  }

  /** The final sort_order of every table. */
  function TableLevels(tables: seq<TableRef>, fks: seq<ForeignKey>): (levels: seq<int>)
    ensures |levels| == |tables|
  {
    var refs := RefRows(tables, fks);
    Run(tables, refs, InitialLevels(tables, fks), Zeros(|refs|), 2, 1)
  }

  /**
   * The level computation: the two scratch tables are filled by INSERT ...
   * SELECT, then each pass runs the two UPDATEs row by row.
   */
  method ComputeLevels(tables: seq<TableRef>, fks: seq<ForeignKey>) returns (levels: array<int>)
    ensures levels.Length == |tables|
    ensures levels[..] == TableLevels(tables, fks)
  {
    var refs := RefRows(tables, fks);
    levels := new int[|tables|](j requires 0 <= j < |tables| => InitialLevels(tables, fks)[j]);
    var mapped := new nat[|refs|](r => 0);
    assert levels[..] == InitialLevels(tables, fks);
    assert mapped[..] == Zeros(|refs|);
    var i := 2;
    var rows := 1;
    while rows > 0 && i < 100
      invariant Run(tables, refs, levels[..], mapped[..], i, rows) == TableLevels(tables, fks)
      decreases 100 - i
    {
      ghost var m := UpdateMapped(tables, refs, levels[..], mapped[..]);
      UpdateMappedRows(tables, refs, levels, mapped);
      assert mapped[..] == m;
      ghost var next := AssignLevels(tables, refs, levels[..], m, i);
      ghost var count := RowCount(tables, refs, levels[..], m);
      rows := AssignLevelRows(tables, refs, levels, mapped, i);
      assert levels[..] == next && rows == count;
      i := i + 1;
    }
  }

  /** The first UPDATE, row by row over #table_refs. */
  method UpdateMappedRows(tables: seq<TableRef>, refs: seq<RefRow>, levels: array<int>, mapped: array<nat>)
    requires levels.Length == |tables| && mapped.Length == |refs|
    modifies mapped
    ensures mapped[..] == UpdateMapped(tables, refs, levels[..], old(mapped[..]))
  {
    ghost var m0 := mapped[..];
    for r := 0 to |refs|
      invariant forall k :: 0 <= k < r ==> mapped[k] == UpdateMapped(tables, refs, levels[..], m0)[k]
      invariant forall k :: r <= k < |refs| ==> mapped[k] == m0[k]
    {
      if refs[r].fkCount != mapped[r] {
        mapped[r] := ResolvedCount(tables, levels[..], refs[r].target);
      }
    }
  }

  /** The second UPDATE, row by row over #tables; returns @@rowcount. */
  method AssignLevelRows(tables: seq<TableRef>, refs: seq<RefRow>, levels: array<int>, mapped: array<nat>, i: int)
    returns (rows: nat)
    requires levels.Length == |tables| && mapped.Length == |refs|
    modifies levels
    ensures levels[..] == AssignLevels(tables, refs, old(levels[..]), mapped[..], i)
    ensures rows == RowCount(tables, refs, old(levels[..]), mapped[..])
  {
    ghost var l0 := levels[..];
    rows := 0;
    for j := 0 to |tables|
      invariant forall k :: 0 <= k < j ==> levels[k] == AssignLevels(tables, refs, l0, mapped[..], i)[k]
      invariant forall k :: j <= k < |tables| ==> levels[k] == l0[k]
      invariant rows + RowCount(tables[j..], refs, l0[j..], mapped[..]) == RowCount(tables, refs, l0, mapped[..])
    {
      assert tables[j..][1..] == tables[j + 1..];
      assert l0[j..][1..] == l0[j + 1..];
      if levels[j] == 0 && Qualifies(refs, mapped[..], tables[j]) {
        levels[j] := i;
        rows := rows + 1;
      }
    }
  }
}
