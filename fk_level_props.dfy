/**
 * What the levels computed by ListTablesInFKOrder mean. With table names
 * unique, the final level of a table is
 *   1 when it has no foreign key,
 *   1 + the largest level of the tables it references, when every one of
 *     its foreign keys references a primary key of a table with a level,
 *   0 otherwise (a cycle, a reference to a non-primary key, or a pass
 *     limit reached).
 * With at most 98 tables the loop always ends at a pass that assigns
 * nothing, and then every table outside a cycle whose foreign keys all
 * reference primary keys of listed tables gets a positive level.
 */
module FkLevelProperties {
  import opened Catalog
  import opened FkLevels

  /** The catalog lists every (schema, name) once. */
  predicate Distinct(tables: seq<TableRef>) {
    forall a, b :: 0 <= a < b < |tables| ==> tables[a] != tables[b]
  }

  function IndexOf(tables: seq<TableRef>, t: TableRef): (k: nat)
    requires t in tables
    ensures k < |tables| && tables[k] == t
    decreases |tables|
  {
    if tables[0] == t then 0 else 1 + IndexOf(tables[1..], t)
  }

  lemma IndexOfAt(tables: seq<TableRef>, k: nat)
    requires Distinct(tables) && k < |tables|
    ensures IndexOf(tables, tables[k]) == k
  {
  }

  /** The level of the table named t; a table that is not listed has none (0). */
  function LevelOf(tables: seq<TableRef>, levels: seq<int>, t: TableRef): int
    requires |levels| == |tables|
  {
    if t in tables then levels[IndexOf(tables, t)] else 0
  }

  lemma DistinctTail(tables: seq<TableRef>)
    requires Distinct(tables) && tables != []
    ensures Distinct(tables[1..]) && tables[0] !in tables[1..]
  {
    forall a, b | 0 <= a < b < |tables[1..]|
      ensures tables[1..][a] != tables[1..][b]
    {
      assert tables[1..][a] == tables[a + 1] && tables[1..][b] == tables[b + 1];
    }
  }

  lemma {:induction false} ResolvedCountAbsent(tables: seq<TableRef>, levels: seq<int>, t: TableRef)
    requires |levels| == |tables| && t !in tables
    ensures ResolvedCount(tables, levels, t) == 0
    decreases |tables|
  {
    if tables != [] {
      ResolvedCountAbsent(tables[1..], levels[1..], t);
    }
  }

  /** With unique names the count(*) subquery is 1 exactly when the referenced table has a level. */
  lemma {:induction false} ResolvedCountLevel(tables: seq<TableRef>, levels: seq<int>, t: TableRef)
    requires |levels| == |tables| && Distinct(tables)
    ensures ResolvedCount(tables, levels, t) == if LevelOf(tables, levels, t) > 0 then 1 else 0
    decreases |tables|
  {
    if tables != [] {
      var rest := tables[1..];
      DistinctTail(tables);
      ResolvedCountLevel(rest, levels[1..], t);
      if tables[0] == t {
        ResolvedCountAbsent(rest, levels[1..], t);
      } else if t in rest {
        assert t in tables;
        assert IndexOf(tables, t) == 1 + IndexOf(rest, t);
      } else {
        assert t !in tables;
      }
    }
  }

  // ---------------------------------------------------------------------------
  // The HAVING clause, read as a statement about foreign keys

  /** The references in pk from t to a table with a positive level. */
  function CountResolved(tables: seq<TableRef>, levels: seq<int>, pk: seq<ForeignKey>, t: TableRef): nat
    requires |levels| == |tables|
    decreases |pk|
  {
    if pk == [] then 0
    else
      (if pk[0].owner == t && LevelOf(tables, levels, pk[0].target) > 0 then 1 else 0) +
      CountResolved(tables, levels, pk[1..], t)
  }

  /** Every foreign key of t references a primary key of a table with a positive level. */
  predicate AllResolved(tables: seq<TableRef>, levels: seq<int>, fks: seq<ForeignKey>, t: TableRef)
    requires |levels| == |tables|
  {
    forall k :: 0 <= k < |fks| && fks[k].owner == t ==>
      fks[k].toPrimaryKey && LevelOf(tables, levels, fks[k].target) > 0
  }

  /** At most all of t's foreign keys are resolved primary-key references, and all of them are exactly when AllResolved holds. */
  lemma {:induction false} CountResolvedBound(tables: seq<TableRef>, levels: seq<int>, fks: seq<ForeignKey>, t: TableRef)
    requires |levels| == |tables| && t in tables
    ensures CountResolved(tables, levels, PkFks(tables, fks), t) <= FkCount(fks, t)
    ensures CountResolved(tables, levels, PkFks(tables, fks), t) == FkCount(fks, t) <==> AllResolved(tables, levels, fks, t)
    decreases |fks|
  {
    if fks != [] {
      var f := fks[0];
      var rest := fks[1..];
      CountResolvedBound(tables, levels, rest, t);
      var head := if f.toPrimaryKey && f.owner in tables then [f] else [];
      assert PkFks(tables, fks) == head + PkFks(tables, rest);
      if head != [] {
        assert (head + PkFks(tables, rest))[1..] == PkFks(tables, rest);
      } else {
        assert head + PkFks(tables, rest) == PkFks(tables, rest);
      }
      assert AllResolved(tables, levels, fks, t) <==>
        (f.owner == t ==> f.toPrimaryKey && LevelOf(tables, levels, f.target) > 0) && AllResolved(tables, levels, rest, t)
      by {
        if AllResolved(tables, levels, fks, t) {
          forall k | 0 <= k < |rest| && rest[k].owner == t
            ensures rest[k].toPrimaryKey && LevelOf(tables, levels, rest[k].target) > 0
          {
            assert rest[k] == fks[k + 1];
          }
        }
        if (f.owner == t ==> f.toPrimaryKey && LevelOf(tables, levels, f.target) > 0) && AllResolved(tables, levels, rest, t) {
          forall k | 0 <= k < |fks| && fks[k].owner == t
            ensures fks[k].toPrimaryKey && LevelOf(tables, levels, fks[k].target) > 0
          {
            if k > 0 {
              assert fks[k] == rest[k - 1];
            }
          }
        }
      }
    }
  }

  /** With every total_mapped exact, sum(total_mapped) counts t's resolved references. */
  lemma {:induction false} MappedSumRows(tables: seq<TableRef>, levels: seq<int>, pk: seq<ForeignKey>, fks: seq<ForeignKey>, m: seq<nat>, t: TableRef)
    requires |levels| == |tables| && Distinct(tables) && |m| == |pk|
    requires forall r :: 0 <= r < |pk| ==> m[r] == ResolvedCount(tables, levels, pk[r].target)
    ensures MappedSum(RowsOf(pk, fks), m, t) == CountResolved(tables, levels, pk, t)
    decreases |pk|
  {
    if pk != [] {
      assert RowsOf(pk, fks)[1..] == RowsOf(pk[1..], fks);
      MappedSumRows(tables, levels, pk[1..], fks, m[1..], t);
      ResolvedCountLevel(tables, levels, pk[0].target);
    }
  }

  /** A positive sum(total_mapped) means the group exists. */
  lemma {:induction false} MappedSumHasRef(refs: seq<RefRow>, m: seq<nat>, t: TableRef)
    requires |m| == |refs| && MappedSum(refs, m, t) > 0
    ensures HasRef(refs, t)
    decreases |refs|
  {
    if refs[0].owner != t {
      MappedSumHasRef(refs[1..], m[1..], t);
    }
  }

  /** max(foreign_key_count) is the table's foreign-key count, as every row of the group carries it. */
  lemma {:induction false} MaxFkCountRows(pk: seq<ForeignKey>, fks: seq<ForeignKey>, t: TableRef)
    ensures MaxFkCount(RowsOf(pk, fks), t) == if HasRef(RowsOf(pk, fks), t) then FkCount(fks, t) else 0
    decreases |pk|
  {
    if pk != [] {
      assert RowsOf(pk, fks)[1..] == RowsOf(pk[1..], fks);
      MaxFkCountRows(pk[1..], fks, t);
    }
  }

  lemma {:induction false} FkCountMember(fks: seq<ForeignKey>, f: ForeignKey)
    requires f in fks
    ensures FkCount(fks, f.owner) >= 1
    decreases |fks|
  {
    if fks[0] != f {
      FkCountMember(fks[1..], f);
    }
  }

  lemma {:induction false} FkCountWitness(fks: seq<ForeignKey>, t: TableRef)
    requires FkCount(fks, t) >= 1
    ensures exists k :: 0 <= k < |fks| && fks[k].owner == t
    decreases |fks|
  {
    if fks[0].owner != t {
      FkCountWitness(fks[1..], t);
      var k :| 0 <= k < |fks[1..]| && fks[1..][k].owner == t;
      assert fks[k + 1].owner == t;
    }
  }

  /**
   * With every total_mapped exact, the HAVING clause holds for a table with
   * foreign keys exactly when all of them are resolved primary-key references.
   */
  lemma QualifiesIff(tables: seq<TableRef>, fks: seq<ForeignKey>, levels: seq<int>, m: seq<nat>, t: TableRef)
    requires |levels| == |tables| && Distinct(tables) && t in tables && FkCount(fks, t) >= 1
    requires |m| == |RefRows(tables, fks)|
    requires forall r :: 0 <= r < |m| ==> m[r] == ResolvedCount(tables, levels, RefRows(tables, fks)[r].target)
    ensures Qualifies(RefRows(tables, fks), m, t) <==> AllResolved(tables, levels, fks, t)
  {
    var pk := PkFks(tables, fks);
    var refs := RefRows(tables, fks);
    assert refs == RowsOf(pk, fks);
    MappedSumRows(tables, levels, pk, fks, m, t);
    CountResolvedBound(tables, levels, fks, t);
    MaxFkCountRows(pk, fks, t);
    if AllResolved(tables, levels, fks, t) {
      MappedSumHasRef(refs, m, t);
    }
  }

  /** The first UPDATE makes every total_mapped exact, given that none is ahead of its target. */
  lemma UpdateMappedExact(tables: seq<TableRef>, fks: seq<ForeignKey>, levels: seq<int>, mapped: seq<nat>)
    requires |levels| == |tables| && Distinct(tables) && |mapped| == |RefRows(tables, fks)|
    requires forall r :: 0 <= r < |mapped| ==> mapped[r] <= ResolvedCount(tables, levels, RefRows(tables, fks)[r].target)
    ensures forall r :: 0 <= r < |mapped| ==>
      UpdateMapped(tables, RefRows(tables, fks), levels, mapped)[r] == ResolvedCount(tables, levels, RefRows(tables, fks)[r].target)
  {
    var refs := RefRows(tables, fks);
    var pk := PkFks(tables, fks);
    forall r | 0 <= r < |mapped|
      ensures UpdateMapped(tables, refs, levels, mapped)[r] == ResolvedCount(tables, levels, refs[r].target)
    {
      assert refs[r].owner == pk[r].owner && refs[r].target == pk[r].target;
      FkCountMember(fks, pk[r]);
      ResolvedCountLevel(tables, levels, refs[r].target);
    }
  }

  // ---------------------------------------------------------------------------
  // The invariant of the WHILE loop

  /** Level L of t is justified: every foreign key of t references a primary key of a table of level 1..L-1, and one of them has level L-1. */
  predicate Justified(tables: seq<TableRef>, levels: seq<int>, fks: seq<ForeignKey>, t: TableRef, L: int)
    requires |levels| == |tables|
  {
    (forall k :: 0 <= k < |fks| && fks[k].owner == t ==>
      fks[k].toPrimaryKey && 1 <= LevelOf(tables, levels, fks[k].target) < L) &&
    (exists k :: 0 <= k < |fks| && fks[k].owner == t && LevelOf(tables, levels, fks[k].target) == L - 1)
  }

  /** What a level means, for table j: 0 or below bound, 1 for no foreign keys, otherwise justified. */
  predicate LevelOk(tables: seq<TableRef>, fks: seq<ForeignKey>, levels: seq<int>, j: int, bound: int)
    requires |levels| == |tables| && 0 <= j < |tables|
  {
    (levels[j] == 0 || 1 <= levels[j] < bound) &&
    (levels[j] == 1 <==> FkCount(fks, tables[j]) == 0) &&
    (levels[j] >= 2 ==> Justified(tables, levels, fks, tables[j], levels[j]))
  }

  predicate WellFormed(tables: seq<TableRef>, fks: seq<ForeignKey>, levels: seq<int>, bound: int)
    requires |levels| == |tables|
  {
    forall j :: 0 <= j < |tables| ==> LevelOk(tables, fks, levels, j, bound)
  }

  /** t was passed over by pass p: one of its foreign keys is not a primary-key reference, or its table had no level before pass p. */
  predicate Blocked(tables: seq<TableRef>, levels: seq<int>, fks: seq<ForeignKey>, t: TableRef, p: int)
    requires |levels| == |tables|
  {
    exists k :: 0 <= k < |fks| && fks[k].owner == t &&
      (!fks[k].toPrimaryKey || LevelOf(tables, levels, fks[k].target) == 0 || LevelOf(tables, levels, fks[k].target) == p)
  }

  /** The state before pass i. */
  predicate PassInvariant(tables: seq<TableRef>, fks: seq<ForeignKey>, levels: seq<int>, mapped: seq<nat>, i: int)
  {
    |levels| == |tables| && |mapped| == |RefRows(tables, fks)| && 2 <= i <= 100 &&
    WellFormed(tables, fks, levels, i) &&
    (i > 2 ==> forall j :: 0 <= j < |tables| && levels[j] == 0 ==> Blocked(tables, levels, fks, tables[j], i - 1)) &&
    (forall r :: 0 <= r < |mapped| ==> mapped[r] <= ResolvedCount(tables, levels, RefRows(tables, fks)[r].target))
  }

  /** A pass changes a level only from 0 to i. */
  predicate Extends(levels: seq<int>, next: seq<int>, i: int) {
    |next| == |levels| &&
    forall j :: 0 <= j < |levels| ==> next[j] == levels[j] || (levels[j] == 0 && next[j] == i)
  }

  lemma LevelOfExtends(tables: seq<TableRef>, levels: seq<int>, next: seq<int>, i: int, t: TableRef)
    requires |levels| == |tables| && Extends(levels, next, i)
    ensures LevelOf(tables, next, t) == LevelOf(tables, levels, t) ||
      (LevelOf(tables, levels, t) == 0 && LevelOf(tables, next, t) == i)
  {
    if t in tables {
      var x := IndexOf(tables, t);
      assert next[x] == levels[x] || (levels[x] == 0 && next[x] == i);
    }
  }

  lemma LevelOfBelow(tables: seq<TableRef>, fks: seq<ForeignKey>, levels: seq<int>, bound: int, t: TableRef)
    requires |levels| == |tables| && WellFormed(tables, fks, levels, bound)
    ensures LevelOf(tables, levels, t) == 0 || 1 <= LevelOf(tables, levels, t) < bound
  {
    if t in tables {
      assert LevelOk(tables, fks, levels, IndexOf(tables, t), bound);
    }
  }

  lemma InitialInvariant(tables: seq<TableRef>, fks: seq<ForeignKey>)
    ensures PassInvariant(tables, fks, InitialLevels(tables, fks), Zeros(|RefRows(tables, fks)|), 2)
  {
  }

  /** A table that already has a level keeps a justified one. */
  lemma StepKept(tables: seq<TableRef>, fks: seq<ForeignKey>, levels: seq<int>, next: seq<int>, i: int, j: int)
    requires |levels| == |tables| && Extends(levels, next, i) && 0 <= j < |tables|
    requires LevelOk(tables, fks, levels, j, i) && levels[j] > 0 && next[j] == levels[j]
    ensures LevelOk(tables, fks, next, j, i + 1)
  {
    var t := tables[j];
    var L := levels[j];
    if L >= 2 {
      forall k | 0 <= k < |fks| && fks[k].owner == t
        ensures fks[k].toPrimaryKey && 1 <= LevelOf(tables, next, fks[k].target) < L
      {
        LevelOfExtends(tables, levels, next, i, fks[k].target);
      }
      var k :| 0 <= k < |fks| && fks[k].owner == t && LevelOf(tables, levels, fks[k].target) == L - 1;
      LevelOfExtends(tables, levels, next, i, fks[k].target);
    }
  }

  /** A table that qualifies at pass i gets a justified level i. */
  lemma StepAssigned(tables: seq<TableRef>, fks: seq<ForeignKey>, levels: seq<int>, next: seq<int>, i: int, j: int)
    requires |levels| == |tables| && Extends(levels, next, i) && 0 <= j < |tables| && 2 <= i
    requires WellFormed(tables, fks, levels, i)
    requires i > 2 ==> Blocked(tables, levels, fks, tables[j], i - 1)
    requires levels[j] == 0 && next[j] == i && FkCount(fks, tables[j]) >= 1
    requires AllResolved(tables, levels, fks, tables[j])
    ensures LevelOk(tables, fks, next, j, i + 1)
  {
    var t := tables[j];
    forall k | 0 <= k < |fks| && fks[k].owner == t
      ensures fks[k].toPrimaryKey && 1 <= LevelOf(tables, next, fks[k].target) < i
    {
      LevelOfBelow(tables, fks, levels, i, fks[k].target);
      LevelOfExtends(tables, levels, next, i, fks[k].target);
    }
    if i == 2 {
      FkCountWitness(fks, t);
      var k :| 0 <= k < |fks| && fks[k].owner == t;
      assert 1 <= LevelOf(tables, next, fks[k].target) < i;
    } else {
      var k :| 0 <= k < |fks| && fks[k].owner == t &&
        (!fks[k].toPrimaryKey || LevelOf(tables, levels, fks[k].target) == 0 || LevelOf(tables, levels, fks[k].target) == i - 1);
      LevelOfExtends(tables, levels, next, i, fks[k].target);
    }
  }

  /** A table passed over at pass i is blocked by a reference whose table had no level before pass i. */
  lemma StepPassedOver(tables: seq<TableRef>, fks: seq<ForeignKey>, levels: seq<int>, next: seq<int>, i: int, j: int)
    requires |levels| == |tables| && Extends(levels, next, i) && 0 <= j < |tables|
    requires WellFormed(tables, fks, levels, i)
    requires !AllResolved(tables, levels, fks, tables[j])
    ensures Blocked(tables, next, fks, tables[j], i)
  {
    var t := tables[j];
    var k :| 0 <= k < |fks| && fks[k].owner == t &&
      !(fks[k].toPrimaryKey && LevelOf(tables, levels, fks[k].target) > 0);
    LevelOfBelow(tables, fks, levels, i, fks[k].target);
    LevelOfExtends(tables, levels, next, i, fks[k].target);
  }

  /** One pass of the loop keeps the invariant. */
  lemma PassStep(tables: seq<TableRef>, fks: seq<ForeignKey>, levels: seq<int>, mapped: seq<nat>, i: int)
    requires Distinct(tables) && PassInvariant(tables, fks, levels, mapped, i) && i < 100
    ensures var refs := RefRows(tables, fks);
      var m := UpdateMapped(tables, refs, levels, mapped);
      PassInvariant(tables, fks, AssignLevels(tables, refs, levels, m, i), m, i + 1)
  {
    var refs := RefRows(tables, fks);
    var m := UpdateMapped(tables, refs, levels, mapped);
    var next := AssignLevels(tables, refs, levels, m, i);
    UpdateMappedExact(tables, fks, levels, mapped);
    assert Extends(levels, next, i);
    forall j | 0 <= j < |tables|
      ensures LevelOk(tables, fks, next, j, i + 1)
      ensures next[j] == 0 ==> Blocked(tables, next, fks, tables[j], i)
    {
      assert LevelOk(tables, fks, levels, j, i);
      if levels[j] > 0 {
        StepKept(tables, fks, levels, next, i, j);
      } else {
        QualifiesIff(tables, fks, levels, m, tables[j]);
        if next[j] == i {
          StepAssigned(tables, fks, levels, next, i, j);
        } else {
          StepPassedOver(tables, fks, levels, next, i, j);
        }
      }
    }
    forall r | 0 <= r < |m|
      ensures m[r] <= ResolvedCount(tables, next, refs[r].target)
    {
      ResolvedCountLevel(tables, levels, refs[r].target);
      ResolvedCountLevel(tables, next, refs[r].target);
      LevelOfExtends(tables, levels, next, i, refs[r].target);
    }
  }

  // ---------------------------------------------------------------------------
  // The loop as a whole

  /** The final levels are well formed, each below 100. */
  lemma {:induction false} RunWellFormed(tables: seq<TableRef>, fks: seq<ForeignKey>, levels: seq<int>, mapped: seq<nat>, i: int, rows: int)
    requires Distinct(tables) && PassInvariant(tables, fks, levels, mapped, i)
    ensures WellFormed(tables, fks, Run(tables, RefRows(tables, fks), levels, mapped, i, rows), 100)
    decreases 100 - i
  {
    var refs := RefRows(tables, fks);
    if rows > 0 && i < 100 {
      var m := UpdateMapped(tables, refs, levels, mapped);
      PassStep(tables, fks, levels, mapped, i);
      RunWellFormed(tables, fks, AssignLevels(tables, refs, levels, m, i), m, i + 1, RowCount(tables, refs, levels, m));
    } else {
      forall j | 0 <= j < |tables|
        ensures LevelOk(tables, fks, levels, j, 100)
      {
        assert LevelOk(tables, fks, levels, j, i);
      }
    }
  }

  /** A level, once positive, is never changed by a later pass. */
  lemma {:induction false} RunKeepsAssigned(tables: seq<TableRef>, refs: seq<RefRow>, levels: seq<int>, mapped: seq<nat>, i: int, rows: int, j: int)
    requires |levels| == |tables| && |mapped| == |refs| && 0 <= j < |tables| && levels[j] > 0
    ensures Run(tables, refs, levels, mapped, i, rows)[j] == levels[j]
    decreases 100 - i
  {
    if rows > 0 && i < 100 {
      var m := UpdateMapped(tables, refs, levels, mapped);
      RunKeepsAssigned(tables, refs, AssignLevels(tables, refs, levels, m, i), m, i + 1, RowCount(tables, refs, levels, m), j);
    }
  }

  function ZeroCount(levels: seq<int>): (n: nat)
    ensures n <= |levels|
    decreases |levels|
  {
    if levels == [] then 0 else (if levels[0] == 0 then 1 else 0) + ZeroCount(levels[1..])
  }

  lemma {:induction false} ZeroCountNone(levels: seq<int>)
    requires ZeroCount(levels) == 0
    ensures forall j :: 0 <= j < |levels| ==> levels[j] != 0
    decreases |levels|
  {
    if levels != [] {
      ZeroCountNone(levels[1..]);
      forall j | 1 <= j < |levels|
        ensures levels[j] != 0
      {
        assert levels[j] == levels[1..][j - 1];
      }
    }
  }

  /** Every table a pass assigns leaves level 0. */
  lemma {:induction false} RowCountZeroCount(tables: seq<TableRef>, refs: seq<RefRow>, levels: seq<int>, m: seq<nat>, i: int)
    requires |levels| == |tables| && |m| == |refs| && i != 0
    ensures ZeroCount(AssignLevels(tables, refs, levels, m, i)) + RowCount(tables, refs, levels, m) == ZeroCount(levels)
    decreases |tables|
  {
    if tables != [] {
      assert AssignLevels(tables, refs, levels, m, i)[1..] == AssignLevels(tables[1..], refs, levels[1..], m, i);
      RowCountZeroCount(tables[1..], refs, levels[1..], m, i);
    }
  }

  /** A pass that assigns nothing changes nothing. */
  lemma {:induction false} RowCountZeroUnchanged(tables: seq<TableRef>, refs: seq<RefRow>, levels: seq<int>, m: seq<nat>, i: int)
    requires |levels| == |tables| && |m| == |refs| && RowCount(tables, refs, levels, m) == 0
    ensures AssignLevels(tables, refs, levels, m, i) == levels
    decreases |tables|
  {
    if tables != [] {
      RowCountZeroUnchanged(tables[1..], refs, levels[1..], m, i);
      assert AssignLevels(tables, refs, levels, m, i)[1..] == AssignLevels(tables[1..], refs, levels[1..], m, i);
    }
  }

  /** The loop reached its fixed point: every table without a level has a foreign key that is not a primary-key reference or whose table has no level. */
  predicate Closed(tables: seq<TableRef>, fks: seq<ForeignKey>, levels: seq<int>)
    requires |levels| == |tables|
  {
    forall j :: 0 <= j < |tables| && levels[j] == 0 ==>
      exists k :: 0 <= k < |fks| && fks[k].owner == tables[j] &&
        (!fks[k].toPrimaryKey || LevelOf(tables, levels, fks[k].target) == 0)
  }

  /** With no more tables left at level 0 than passes left, the loop ends at its fixed point. */
  lemma {:induction false} RunClosed(tables: seq<TableRef>, fks: seq<ForeignKey>, levels: seq<int>, mapped: seq<nat>, i: int, rows: int)
    requires Distinct(tables) && PassInvariant(tables, fks, levels, mapped, i)
    requires rows > 0 && ZeroCount(levels) <= 100 - i
    ensures Closed(tables, fks, Run(tables, RefRows(tables, fks), levels, mapped, i, rows))
    decreases 100 - i
  {
    var refs := RefRows(tables, fks);
    if i >= 100 {
      ZeroCountNone(levels);
    } else {
      var m := UpdateMapped(tables, refs, levels, mapped);
      var next := AssignLevels(tables, refs, levels, m, i);
      var count := RowCount(tables, refs, levels, m);
      PassStep(tables, fks, levels, mapped, i);
      RowCountZeroCount(tables, refs, levels, m, i);
      if count == 0 {
        RowCountZeroUnchanged(tables, refs, levels, m, i);
        forall j | 0 <= j < |tables| && next[j] == 0
          ensures exists k :: 0 <= k < |fks| && fks[k].owner == tables[j] && (!fks[k].toPrimaryKey || LevelOf(tables, next, fks[k].target) == 0)
        {
          assert Blocked(tables, next, fks, tables[j], i);
          var k :| 0 <= k < |fks| && fks[k].owner == tables[j] &&
            (!fks[k].toPrimaryKey || LevelOf(tables, next, fks[k].target) == 0 || LevelOf(tables, next, fks[k].target) == i);
          LevelOfBelow(tables, fks, levels, i, fks[k].target);
        }
      } else {
        RunClosed(tables, fks, next, m, i + 1, count);
      }
    }
  }

  // ---------------------------------------------------------------------------
  // The levels ListTablesInFKOrder reports

  lemma FkLevelsWellFormed(tables: seq<TableRef>, fks: seq<ForeignKey>)
    requires Distinct(tables)
    ensures WellFormed(tables, fks, TableLevels(tables, fks), 100)
  {
    InitialInvariant(tables, fks);
    RunWellFormed(tables, fks, InitialLevels(tables, fks), Zeros(|RefRows(tables, fks)|), 2, 1);
  }

  /** Every level is 0 or between 1 and 99. */
  lemma LevelsInRange(tables: seq<TableRef>, fks: seq<ForeignKey>, j: int)
    requires Distinct(tables) && 0 <= j < |tables|
    ensures TableLevels(tables, fks)[j] == 0 || 1 <= TableLevels(tables, fks)[j] <= 99
  {
    FkLevelsWellFormed(tables, fks);
    assert LevelOk(tables, fks, TableLevels(tables, fks), j, 100);
  }

  /** Level 1 is exactly the tables without foreign keys. */
  lemma LevelOneIffNoForeignKeys(tables: seq<TableRef>, fks: seq<ForeignKey>, j: int)
    requires Distinct(tables) && 0 <= j < |tables|
    ensures TableLevels(tables, fks)[j] == 1 <==> FkCount(fks, tables[j]) == 0
  {
    FkLevelsWellFormed(tables, fks);
    assert LevelOk(tables, fks, TableLevels(tables, fks), j, 100);
  }

  /**
   * A level L of 2 or more is one more than the largest level among the
   * referenced tables: every foreign key references a primary key of a
   * table of level 1..L-1, and one of them has level L-1.
   */
  lemma LevelAboveReferenced(tables: seq<TableRef>, fks: seq<ForeignKey>, j: int)
    requires Distinct(tables) && 0 <= j < |tables| && TableLevels(tables, fks)[j] >= 2
    ensures var levels := TableLevels(tables, fks);
      (forall k :: 0 <= k < |fks| && fks[k].owner == tables[j] ==>
        fks[k].toPrimaryKey && 1 <= LevelOf(tables, levels, fks[k].target) < levels[j]) &&
      (exists k :: 0 <= k < |fks| && fks[k].owner == tables[j] && LevelOf(tables, levels, fks[k].target) == levels[j] - 1)
  {
    FkLevelsWellFormed(tables, fks);
    assert LevelOk(tables, fks, TableLevels(tables, fks), j, 100);
  }

  /** A table with a foreign key to a unique constraint that is not its table's primary key is never given a level. */
  lemma NonPrimaryKeyReferenceUnresolved(tables: seq<TableRef>, fks: seq<ForeignKey>, j: int, k: int)
    requires Distinct(tables) && 0 <= j < |tables| && 0 <= k < |fks|
    requires fks[k].owner == tables[j] && !fks[k].toPrimaryKey
    ensures TableLevels(tables, fks)[j] == 0
  {
    FkLevelsWellFormed(tables, fks);
    assert LevelOk(tables, fks, TableLevels(tables, fks), j, 100);
    FkCountMember(fks, fks[k]);
  }

  /** A table whose foreign key references a table that is not listed is never given a level. */
  lemma MissingTargetUnresolved(tables: seq<TableRef>, fks: seq<ForeignKey>, j: int, k: int)
    requires Distinct(tables) && 0 <= j < |tables| && 0 <= k < |fks|
    requires fks[k].owner == tables[j] && fks[k].target !in tables
    ensures TableLevels(tables, fks)[j] == 0
  {
    FkLevelsWellFormed(tables, fks);
    assert LevelOk(tables, fks, TableLevels(tables, fks), j, 100);
    FkCountMember(fks, fks[k]);
  }

  /** With at most 98 tables the loop stops at a pass that assigns nothing, never at the pass limit. */
  lemma FewTablesConverge(tables: seq<TableRef>, fks: seq<ForeignKey>)
    requires Distinct(tables) && |tables| <= 98
    ensures Closed(tables, fks, TableLevels(tables, fks))
  {
    InitialInvariant(tables, fks);
    RunClosed(tables, fks, InitialLevels(tables, fks), Zeros(|RefRows(tables, fks)|), 2, 1);
  }
}
