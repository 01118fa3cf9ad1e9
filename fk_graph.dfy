/**
 * The levels of ListTablesInFKOrder read on the graph of foreign keys:
 * tables on a cycle never get a level, and when the graph has no cycle,
 * only primary-key references to listed tables and at most 98 tables,
 * every table gets one.
 */
module FkGraph {
  import opened Catalog
  import opened FkLevels
  import opened FkLevelProperties

  /** Table a has a foreign key referencing table b. */
  predicate Edge(tables: seq<TableRef>, fks: seq<ForeignKey>, a: int, b: int)
    requires 0 <= a < |tables| && 0 <= b < |tables|
  {
    exists k :: 0 <= k < |fks| && fks[k].owner == tables[a] && fks[k].target == tables[b]
  }

  /** A walk along foreign keys, as table positions. */
  predicate Path(tables: seq<TableRef>, fks: seq<ForeignKey>, p: seq<int>) {
    (forall m :: 0 <= m < |p| ==> 0 <= p[m] < |tables|) &&
    (forall m :: 0 <= m < |p| - 1 ==> Edge(tables, fks, p[m], p[m + 1]))
  }

  predicate Cycle(tables: seq<TableRef>, fks: seq<ForeignKey>, p: seq<int>) {
    |p| >= 2 && Path(tables, fks, p) && p[0] == p[|p| - 1]
  }

  ghost predicate Acyclic(tables: seq<TableRef>, fks: seq<ForeignKey>) {
    forall p :: !Cycle(tables, fks, p)
  }

  /** Every foreign key of a listed table references the primary key of a listed table. */
  predicate PrimaryKeysOnly(tables: seq<TableRef>, fks: seq<ForeignKey>) {
    forall k :: 0 <= k < |fks| && fks[k].owner in tables ==> fks[k].toPrimaryKey && fks[k].target in tables
  }

  /** Along a walk from a table with a level, levels drop by at least one per step and stay positive. */
  lemma {:induction false} DescendAlong(tables: seq<TableRef>, fks: seq<ForeignKey>, levels: seq<int>, p: seq<int>, n: int)
    requires Distinct(tables) && |levels| == |tables| && WellFormed(tables, fks, levels, 100)
    requires Path(tables, fks, p) && 0 <= n < |p| && levels[p[0]] > 0
    ensures 1 <= levels[p[n]] <= levels[p[0]] - n
    decreases n
  {
    if n > 0 {
      DescendAlong(tables, fks, levels, p, n - 1);
      var a := p[n - 1];
      var b := p[n];
      assert Edge(tables, fks, a, b);
      var k :| 0 <= k < |fks| && fks[k].owner == tables[a] && fks[k].target == tables[b];
      FkCountMember(fks, fks[k]);
      assert LevelOk(tables, fks, levels, a, 100);
      IndexOfAt(tables, b);
    }
  }

  /** A table on a cycle of foreign keys (a self-reference included) is never given a level. */
  lemma CycleUnresolved(tables: seq<TableRef>, fks: seq<ForeignKey>, p: seq<int>)
    requires Distinct(tables) && Cycle(tables, fks, p)
    ensures TableLevels(tables, fks)[p[0]] == 0
  {
    var levels := TableLevels(tables, fks);
    FkLevelsWellFormed(tables, fks);
    assert LevelOk(tables, fks, levels, p[0], 100);
    if levels[p[0]] > 0 {
      DescendAlong(tables, fks, levels, p, |p| - 1);
    }
  }

  /** From a table without a level, at the fixed point, a walk of any length through tables without a level. */
  lemma {:induction false} UnresolvedWalk(tables: seq<TableRef>, fks: seq<ForeignKey>, levels: seq<int>, j: int, n: nat)
    returns (p: seq<int>)
    requires |levels| == |tables| && Closed(tables, fks, levels) && PrimaryKeysOnly(tables, fks)
    requires 0 <= j < |tables| && levels[j] == 0
    ensures |p| == n + 1 && p[0] == j && Path(tables, fks, p)
    ensures forall m :: 0 <= m < |p| ==> levels[p[m]] == 0
    decreases n
  {
    if n == 0 {
      p := [j];
    } else {
      var k :| 0 <= k < |fks| && fks[k].owner == tables[j] &&
        (!fks[k].toPrimaryKey || LevelOf(tables, levels, fks[k].target) == 0);
      assert fks[k].owner in tables;
      var b := IndexOf(tables, fks[k].target);
      assert levels[b] == 0;
      var rest := UnresolvedWalk(tables, fks, levels, b, n - 1);
      assert Edge(tables, fks, j, b);
      PathCons(tables, fks, j, rest);
      p := [j] + rest;
      forall m | 0 <= m < |p|
        ensures levels[p[m]] == 0
      {
        if m > 0 {
          assert p[m] == rest[m - 1];
        }
      }
    }
  }

  /** A step along a foreign key put before a walk gives a walk. */
  lemma PathCons(tables: seq<TableRef>, fks: seq<ForeignKey>, j: int, rest: seq<int>)
    requires 0 <= j < |tables| && Path(tables, fks, rest) && rest != [] && 0 <= rest[0] < |tables|
    requires Edge(tables, fks, j, rest[0])
    ensures Path(tables, fks, [j] + rest)
  {
    var p := [j] + rest;
    forall m | 0 <= m < |p| - 1
      ensures Edge(tables, fks, p[m], p[m + 1])
    {
      if m > 0 {
        assert p[m] == rest[m - 1] && p[m + 1] == rest[m];
      }
    }
    forall m | 0 <= m < |p|
      ensures 0 <= p[m] < |tables|
    {
      if m > 0 {
        assert p[m] == rest[m - 1];
      }
    }
  }

  /** More positions than values: some value repeats. */
  lemma {:induction false} Pigeonhole(p: seq<int>, n: int) returns (a: int, b: int)
    requires 1 <= n < |p| && forall m :: 0 <= m < |p| ==> 0 <= p[m] < n
    ensures 0 <= a < b < |p| && p[a] == p[b]
    decreases n
  {
    var last := |p| - 1;
    var v := p[last];
    if exists x :: 0 <= x < last && p[x] == v {
      a :| 0 <= a < last && p[a] == v;
      b := last;
    } else {
      assert p[0] != v;
      var q := seq(last, x requires 0 <= x < last => if p[x] == n - 1 then v else p[x]);
      forall m | 0 <= m < |q|
        ensures 0 <= q[m] < n - 1
      {
        assert p[m] != v;
      }
      a, b := Pigeonhole(q, n - 1);
      assert p[a] != v && p[b] != v;
    }
  }

  /**
   * At the fixed point, with primary-key references to listed tables only,
   * a table without a level lies behind a cycle: a walk w of level-0 tables
   * leads from it to the start of a cycle c, and no table on c has a level.
   */
  lemma UnresolvedReachesCycle(tables: seq<TableRef>, fks: seq<ForeignKey>, levels: seq<int>, j: int)
    returns (c: seq<int>, w: seq<int>)
    requires |levels| == |tables| && Closed(tables, fks, levels) && PrimaryKeysOnly(tables, fks)
    requires 0 <= j < |tables| && levels[j] == 0
    ensures Cycle(tables, fks, c)
    ensures |w| >= 1 && w[0] == j && Path(tables, fks, w) && w[|w| - 1] == c[0]
    ensures forall m :: 0 <= m < |w| ==> levels[w[m]] == 0
    ensures forall m :: 0 <= m < |c| ==> levels[c[m]] == 0
  {
    var p := UnresolvedWalk(tables, fks, levels, j, |tables|);
    var a, b := Pigeonhole(p, |tables|);
    c := p[a..b + 1];
    SubPathCycle(tables, fks, p, a, b);
    w := p[..a + 1];
    PathPrefix(tables, fks, p, a + 1);
    UnresolvedSlice(levels, p, 0, a + 1);
    UnresolvedSlice(levels, p, a, b + 1);
    assert p[0..a + 1] == w;
  }

  lemma PathPrefix(tables: seq<TableRef>, fks: seq<ForeignKey>, p: seq<int>, n: int)
    requires Path(tables, fks, p) && 0 <= n <= |p|
    ensures Path(tables, fks, p[..n])
  {
    var w := p[..n];
    forall m | 0 <= m < |w| - 1
      ensures Edge(tables, fks, w[m], w[m + 1])
    {
      assert w[m] == p[m] && w[m + 1] == p[m + 1];
    }
  }

  lemma UnresolvedSlice(levels: seq<int>, p: seq<int>, a: int, b: int)
    requires 0 <= a <= b <= |p|
    requires forall m :: 0 <= m < |p| ==> 0 <= p[m] < |levels| && levels[p[m]] == 0
    ensures forall m :: 0 <= m < b - a ==> 0 <= p[a..b][m] < |levels| && levels[p[a..b][m]] == 0
  {
    forall m | 0 <= m < b - a
      ensures 0 <= p[a..b][m] < |levels| && levels[p[a..b][m]] == 0
    {
      assert p[a..b][m] == p[a + m];
    }
  }

  /** A walk that comes back to a table contains a cycle. */
  lemma SubPathCycle(tables: seq<TableRef>, fks: seq<ForeignKey>, p: seq<int>, a: int, b: int)
    requires Path(tables, fks, p) && 0 <= a < b < |p| && p[a] == p[b]
    ensures Cycle(tables, fks, p[a..b + 1])
  {
    var c := p[a..b + 1];
    forall m | 0 <= m < |c| - 1
      ensures Edge(tables, fks, c[m], c[m + 1])
    {
      assert c[m] == p[a + m] && c[m + 1] == p[a + m + 1];
    }
  }

  /**
   * With at most 98 tables, no cycle, and every foreign key of a listed
   * table referencing the primary key of a listed table, every table gets
   * a level.
   */
  lemma AcyclicAllResolved(tables: seq<TableRef>, fks: seq<ForeignKey>)
    requires Distinct(tables) && |tables| <= 98 && PrimaryKeysOnly(tables, fks) && Acyclic(tables, fks)
    ensures forall j :: 0 <= j < |tables| ==> TableLevels(tables, fks)[j] >= 1
  {
    var levels := TableLevels(tables, fks);
    FewTablesConverge(tables, fks);
    FkLevelsWellFormed(tables, fks);
    forall j | 0 <= j < |tables|
      ensures levels[j] >= 1
    {
      assert LevelOk(tables, fks, levels, j, 100);
      if levels[j] == 0 {
        var c, w := UnresolvedReachesCycle(tables, fks, levels, j);
      }
    }
  }
}
