/**
  What a built schema says about the rows it was built from.
 */
module SchemaTheorems {
  import opened Bytes
  import opened Symbols
  import opened SchemaTypes
  import opened SchemaRows
  import opened TopoSort
  import opened NameIndex
  import opened Resolution
  import opened Compaction
  import opened SchemaBuild

  // ----- the parts of `Built`

  lemma BuiltFacts(s: Tables, o: Origin)
    requires Built(s, o)
    ensures RawOk(o.raw, o.rows) && DistinctNames(o.raw.tables) && TablesOk(o.raw.tables, o.rows)
    ensures GraphOf(o.graph, ResolveAll(o.raw, o.raw.unresolved), |o.raw.tables|)
    ensures TableOrdered(o.graph, o.order, o.emitted) && Inverse(o.order, o.place)
    ensures |s.tables| == |o.raw.tables| == |o.order| == |o.place| == |o.graph|
    ensures Distinct(o.order) && Bounded(o.order, |o.raw.tables|)
    ensures s.columnNames == o.raw.columnNames && |s.columns| == |s.columnNames| == |o.rows|
    ensures |o.raw.unresolved| == |Declared(o.rows)|
    ensures s.foreignKeyPool == FinalFks(o.raw, o.place, Declared(o.rows))
  {
  }

  lemma BuiltTable(s: Tables, o: Origin, i: nat)
    requires Built(s, o) && i < |s.tables|
    ensures i < |o.order| && o.order[i] < |o.raw.tables| && TableOk(o.raw.tables[o.order[i]], o.rows)
    ensures var t := o.raw.tables[o.order[i]];
            t.fkStart + t.fkLen <= |o.raw.unresolved| && s.tables[i] == MovedTable(o.raw, t)
  {
    hide TableOrdered, GraphOf, FinalFks, ColumnsOk, FksOk;
    assert RangesOk(o.raw);
    assert TableOk(o.raw.tables[o.order[i]], o.rows);
  }

  lemma BuiltColumn(s: Tables, o: Origin, k: nat)
    requires Built(s, o) && k < |s.columns|
    ensures k < |o.rows|
    ensures var c := ColumnOf(o.rows, k);
            c.foreignKeys.start + c.foreignKeys.len <= |o.raw.unresolved| && s.columns[k] == MovedColumn(o.raw, c)
  {
    hide TableOrdered, GraphOf, FinalFks, TablesOk, FksOk;
    assert RangesOk(o.raw) && o.raw.columns[k] == ColumnOf(o.rows, k);
  }

  // ----- foreign keys

  /** Each column's range holds exactly its row's declared foreign keys that lead somewhere, in order. */
  lemma ColumnFksExact(s: Tables, o: Origin, k: nat)
    requires Built(s, o) && k < |s.columns|
    ensures k < |o.rows| && |o.place| == |o.raw.tables|
    ensures s.columns[k].foreignKeys.start + s.columns[k].foreignKeys.len <= |s.foreignKeyPool|
    ensures ColumnFks(s, k) == FinalFks(o.raw, o.place, o.rows[k].fks)
  {
    hide Built, RawOk, DistinctNames, TablesOk, GraphOf, TableOrdered, Inverse, FinalFks, ResolveAll;
    BuiltFacts(s, o);
    BuiltColumn(s, o, k);
    RowSlice(o.rows, k);
    ShrunkSlice(o.raw, o.rows, o.place, FkPos(o.rows, k), FkPos(o.rows, k + 1));
  }

  /** Each table's range holds exactly the foreign keys of its rows that lead somewhere, in order. */
  lemma TableFksExact(s: Tables, o: Origin, i: nat)
    requires Built(s, o) && i < |s.tables|
    ensures |o.place| == |o.raw.tables|
    ensures s.tables[i].fkStart + s.tables[i].fkLen <= |s.foreignKeyPool|
    ensures ColumnsEnd(s.tables[i]) <= |o.rows|
    ensures var rows := o.rows[s.tables[i].columnsStart..ColumnsEnd(s.tables[i])];
            TableFks(s, i) == FinalFks(o.raw, o.place, Declared(rows))
  {
    hide Built, RawOk, DistinctNames, TablesOk, GraphOf, TableOrdered, Inverse, FinalFks, ResolveAll;
    BuiltFacts(s, o);
    BuiltTable(s, o, i);
    var t := o.raw.tables[o.order[i]];
    DeclaredSlice(o.rows, t.columnsStart, ColumnsEnd(t));
    ShrunkSlice(o.raw, o.rows, o.place, t.fkStart, t.fkStart + t.fkLen);
  }

  /** The column at position `c` of table `t` is called `name`. */
  ghost predicate HasColumn(s: Tables, t: nat, c: nat, name: Symbol) {
    && t < |s.tables| && c < s.tables[t].columnsLen && s.tables[t].columnsStart + c < |s.columnNames|
    && s.columnNames[s.tables[t].columnsStart + c] == name
  }

  lemma Shapes(s: Tables, o: Origin, i: nat)
    requires Built(s, o) && i < |s.tables|
    ensures i < |o.order| && o.order[i] < |o.raw.tables|
    ensures var was := o.raw.tables[o.order[i]];
            && s.tables[i].name == was.name && s.tables[i].columnsStart == was.columnsStart
            && s.tables[i].columnsLen == was.columnsLen && s.tables[i].primaryKey == was.primaryKey
            && ColumnsEnd(was) <= |s.columnNames|
  {
    hide Built, RawOk, TablesOk, GraphOf, TableOrdered, FinalFks, ResolveAll, Inverse;
    BuiltFacts(s, o);
    BuiltTable(s, o, i);
  }

  /** Where an old table went, its index names it. */
  lemma PlaceOf(s: Tables, o: Origin, u: nat)
    requires Built(s, o) && u < |o.raw.tables|
    ensures u < |o.place| && o.place[u] < |s.tables| == |o.order| && o.order[o.place[u]] == u
  {
    hide Built, RawOk, TablesOk, GraphOf, TableOrdered, FinalFks, ResolveAll, DistinctNames;
    BuiltFacts(s, o);
    Pigeonhole(o.order, |o.raw.tables|);
    assert u in o.order;
    var i :| 0 <= i < |o.order| && o.order[i] == u;
  }

  ghost predicate HasTarget(s: Tables, fk: RawForeignKey, t: nat, c: nat) {
    t < |s.tables| && s.tables[t].name == fk.refTable && HasColumn(s, t, c, fk.refColumn)
  }

  /** A kept key's indices name its declared target, in the schema as ordered. */
  lemma KeptNamesTarget(s: Tables, o: Origin, fk: RawForeignKey)
    requires Built(s, o) && |o.place| == |o.raw.tables| && FinalFk(o.raw, o.place, fk).Some?
    ensures var f := FinalFk(o.raw, o.place, fk).value;
            && HasTarget(s, fk, f.table, f.column)
            && f.constraintName == fk.constraintName && f.namespace == fk.namespace
            && f.onUpdate == fk.onUpdate && f.onDelete == fk.onDelete
  {
    hide Built, RawOk, TablesOk, GraphOf, TableOrdered, FinalFks, ResolveAll, DistinctNames, Inverse, Distinct, Bounded;
    BuiltFacts(s, o);
    var target := TargetOf(o.raw.tables, o.raw.columnNames, fk.refTable, fk.refColumn).value;
    PlaceOf(s, o, target.table);
    Shapes(s, o, o.place[target.table]);
  }

  /** A key whose table and column exist is kept. */
  lemma TargetKept(s: Tables, o: Origin, fk: RawForeignKey, t: nat, c: nat)
    requires Built(s, o) && |o.place| == |o.raw.tables| && HasTarget(s, fk, t, c)
    ensures FinalFk(o.raw, o.place, fk).Some?
  {
    hide Built, RawOk, TablesOk, GraphOf, TableOrdered, FinalFks, ResolveAll, Inverse, Distinct, Bounded;
    BuiltFacts(s, o);
    Shapes(s, o, t);
    var u := o.order[t];
    var was := o.raw.tables[u];
    assert IndexOfName(o.raw.tables, fk.refTable) == Some(u);
    var names := o.raw.columnNames[was.columnsStart..ColumnsEnd(was)];
    assert names[c] == fk.refColumn;
  }

  /** Table names stay distinct, so the by-name index finds each of them. */
  lemma NamesDistinct(s: Tables, o: Origin)
    requires Built(s, o)
    ensures DistinctNames(s.tables) && ByNameOk(s.byName, s.tables)
  {
    forall i, j | 0 <= i < j < |s.tables| ensures s.tables[i].name != s.tables[j].name {
      Shapes(s, o, i);
      Shapes(s, o, j);
      BuiltFacts(s, o);
      assert o.order[i] != o.order[j];
    }
  }

  // ----- references

  /** Some foreign key of table `i` leads to table `j`. */
  ghost predicate Refers(s: Tables, i: nat, j: nat) {
    && i < |s.tables| && s.tables[i].fkStart + s.tables[i].fkLen <= |s.foreignKeyPool|
    && exists f | f in TableFks(s, i) :: f.table == j
  }

  lemma {:induction false} FinalSource(raw: Raw, place: seq<nat>, fks: seq<RawForeignKey>, f: ForeignKey)
    returns (q: nat)
    requires |place| == |raw.tables| && f in FinalFks(raw, place, fks)
    ensures q < |fks| && FinalFk(raw, place, fks[q]) == Some(f)
  {
    hide FinalFk;
    var n := |fks| - 1;
    if f in FinalFks(raw, place, fks[..n]) {
      q := FinalSource(raw, place, fks[..n], f);
    } else {
      q := n;
    }
  }

  lemma {:induction false} FinalMember(raw: Raw, place: seq<nat>, fks: seq<RawForeignKey>, q: nat)
    requires |place| == |raw.tables| && q < |fks| && FinalFk(raw, place, fks[q]).Some?
    ensures FinalFk(raw, place, fks[q]).value in FinalFks(raw, place, fks)
  {
    hide FinalFk;
    var n := |fks| - 1;
    if q < n { FinalMember(raw, place, fks[..n], q); }
  }

  /** A pool entry belongs to one table only. */
  lemma FkOwner(ts: seq<TableMeta>, rows: seq<Row>, a: nat, b: nat, p: nat)
    requires TablesOk(ts, rows) && a < |ts| && b < |ts| && CoversFk(ts[a], p) && CoversFk(ts[b], p)
    ensures a == b
  {
    assert TableOk(ts[a], rows) && TableOk(ts[b], rows);
    if a < b {
      TablesAscend(ts, rows, a, b);
      PosMonotone(rows, ColumnsEnd(ts[a]), ts[b].columnsStart);
    } else if b < a {
      TablesAscend(ts, rows, b, a);
      PosMonotone(rows, ColumnsEnd(ts[b]), ts[a].columnsStart);
    }
  }

  lemma PosMonotone(rows: seq<Row>, a: nat, b: nat)
    requires a <= b <= |rows|
    ensures FkPos(rows, a) <= FkPos(rows, b)
  {
    DeclaredSlice(rows, a, b);
  }

  /** The old range of a table and the rows it covers. */
  lemma OldSlice(s: Tables, o: Origin, i: nat)
    requires Built(s, o) && i < |s.tables|
    ensures i < |o.order| && o.order[i] < |o.raw.tables| && ColumnsEnd(s.tables[i]) <= |o.rows|
    ensures var t := o.raw.tables[o.order[i]];
            && t.fkStart + t.fkLen <= |Declared(o.rows)| == |o.raw.unresolved|
            && Declared(o.rows)[t.fkStart..t.fkStart + t.fkLen]
               == Declared(o.rows[s.tables[i].columnsStart..ColumnsEnd(s.tables[i])])
  {
    hide Built, RawOk, TablesOk, GraphOf, TableOrdered, FinalFks, ResolveAll, Inverse, DistinctNames;
    BuiltFacts(s, o);
    BuiltTable(s, o, i);
    var t := o.raw.tables[o.order[i]];
    DeclaredSlice(o.rows, t.columnsStart, ColumnsEnd(t));
  }

  /** Declared key `p` of the rows of table `i` leads to table `j`, and both sides see it so. */
  ghost predicate Leads(o: Origin, p: nat, v: nat, u: nat) {
    && p < |o.raw.unresolved| && o.raw.unresolved[p].sourceTable == v
    && var r := ResolveOne(o.raw, o.raw.unresolved[p]); r.Some? && r.value.target.table == u
  }

  /** Resolved keys and declared keys that lead from `v` to `u` are the same thing. */
  lemma LeadsIsEdge(o: Origin, v: nat, u: nat)
    requires RawOk(o.raw, o.rows) && u != v
    ensures HasEdge(ResolveAll(o.raw, o.raw.unresolved), u, v) <==> exists p: nat :: Leads(o, p, v, u)
  {
    hide RawOk;
    var n, all := |o.raw.unresolved|, ResolveAll(o.raw, o.raw.unresolved);
    assert o.raw.unresolved[..n] == o.raw.unresolved;
    PoolIndices(o.raw, o.rows);
    if HasEdge(all, u, v) {
      var e :| 0 <= e < |all| && IsEdge(all[e], u, v);
      var p := EntryRank(o.raw, e, n);
      assert Leads(o, p, v, u);
    }
    forall p: nat | Leads(o, p, v, u) ensures HasEdge(all, u, v) {
      RankEntry(o.raw, p, n);
      assert IsEdge(all[Rank(o.raw, p)], u, v);
    }
  }

  lemma Owned(o: Origin, p: nat)
    requires RawOk(o.raw, o.rows) && p < |o.raw.unresolved|
    ensures p < |Declared(o.rows)| && UnresolvedOk(o.raw.unresolved[p], p, Declared(o.rows)[p], o.raw.tables)
  {
  }

  /** A reference in the schema is an edge of the graph. */
  lemma RefersEdge(s: Tables, o: Origin, i: nat, j: nat)
    requires Built(s, o) && i < |s.tables| && j < |s.tables| && i != j && Refers(s, i, j)
    ensures i < |o.order| && j < |o.order| && References(o.graph, o.order[i], o.order[j])
  {
    hide Built, RawOk, TablesOk, TableOrdered, FinalFks, FinalFk, ResolveAll, Inverse, DistinctNames, HasEdge, Leads;
    hide Declared;
    BuiltFacts(s, o);
    var f :| f in TableFks(s, i) && f.table == j;
    TableFksExact(s, o, i);
    OldSlice(s, o, i);
    var t := o.raw.tables[o.order[i]];
    var fks := Declared(o.rows)[t.fkStart..t.fkStart + t.fkLen];
    var q := FinalSource(o.raw, o.place, fks, f);
    assert fks[q] == Declared(o.rows)[t.fkStart + q];
    KeyLeads(s, o, i, t.fkStart + q, f);
    LeadsIsEdge(o, o.order[i], o.order[j]);
  }

  /** A declared key of a table's range that is kept as `f` leads to the table `f` names. */
  lemma KeyLeads(s: Tables, o: Origin, i: nat, p: nat, f: ForeignKey)
    requires Built(s, o) && i < |o.order| && o.order[i] < |o.raw.tables| && |o.place| == |o.raw.tables|
    requires CoversFk(o.raw.tables[o.order[i]], p) && p < |o.raw.unresolved| && p < |Declared(o.rows)|
    requires FinalFk(o.raw, o.place, Declared(o.rows)[p]) == Some(f)
    ensures f.table < |o.order| && Leads(o, p, o.order[i], o.order[f.table])
  {
    hide Built, RawOk, TablesOk, TableOrdered, FinalFks, ResolveAll, Inverse, DistinctNames, HasEdge, Declared, GraphOf;
    BuiltFacts(s, o);
    Owned(o, p);
    var u := o.raw.unresolved[p];
    FkOwner(o.raw.tables, o.rows, u.sourceTable, o.order[i], p);
    PlaceOf(s, o, TargetOf(o.raw.tables, o.raw.columnNames, u.refTable, u.refColumn).value.table);
  }

  /** An edge of the graph is a reference in the schema. */
  lemma EdgeRefers(s: Tables, o: Origin, i: nat, j: nat)
    requires Built(s, o) && i < |s.tables| == |o.order| && j < |s.tables| && References(o.graph, o.order[i], o.order[j])
    ensures i != j && Refers(s, i, j)
  {
    hide Built, RawOk, TablesOk, TableOrdered, FinalFks, ResolveAll, DistinctNames, HasEdge, GraphOf, References;
    hide Distinct, Declared;
    BuiltFacts(s, o);
    assert o.place[o.order[j]] == j;
    NoSelf(o.graph, ResolveAll(o.raw, o.raw.unresolved), |o.raw.tables|, o.order[i], o.order[j]);
    LeadsIsEdge(o, o.order[i], o.order[j]);
    var p: nat :| Leads(o, p, o.order[i], o.order[j]);
    hide Leads;
    LeadsRefers(s, o, i, j, p);
  }

  /** A declared key that leads from a table to another is among the former's keys. */
  lemma LeadsRefers(s: Tables, o: Origin, i: nat, j: nat, p: nat)
    requires Built(s, o) && i < |s.tables| == |o.order| && j < |s.tables| && Leads(o, p, o.order[i], o.order[j])
    requires o.order[j] < |o.place| && o.place[o.order[j]] == j
    ensures Refers(s, i, j)
  {
    hide Built, RawOk, TablesOk, TableOrdered, FinalFks, ResolveAll, DistinctNames, HasEdge, GraphOf, Distinct;
    hide Declared;
    BuiltFacts(s, o);
    Owned(o, p);
    OldSlice(s, o, i);
    var t := o.raw.tables[o.order[i]];
    var fks := Declared(o.rows)[t.fkStart..t.fkStart + t.fkLen];
    var q := p - t.fkStart;
    assert fks[q] == Declared(o.rows)[p];
    FinalMember(o.raw, o.place, fks, q);
    TableFksExact(s, o, i);
    var f := FinalFk(o.raw, o.place, fks[q]).value;
    assert f in TableFks(s, i) && f.table == j;
  }

  lemma NoSelf(graph: seq<seq<nat>>, resolved: seq<ResolvedFk>, n: nat, v: nat, u: nat)
    requires GraphOf(graph, resolved, n) && References(graph, v, u)
    ensures u != v && u < n && v < n && HasEdge(resolved, u, v)
  {
    var k :| 0 <= k < |graph[u]| && graph[u][k] == v;
  }

  // ----- order

  /** Each table of the walk references the next, another one. */
  ghost predicate Walk(s: Tables, path: seq<nat>) {
    && |path| > 0 && Bounded(path, |s.tables|)
    && forall k | 0 <= k < |path| - 1 :: path[k] != path[k + 1] && Refers(s, path[k], path[k + 1])
  }

  /** Following references from table `i` one can come back to a table already passed. */
  ghost predicate ReachesCycle(s: Tables, i: nat) {
    exists path :: Walk(s, path) && path[0] == i && !Distinct(path)
  }

  lemma WalkIsChain(s: Tables, o: Origin, path: seq<nat>)
    requires Built(s, o) && Walk(s, path) && |o.order| == |s.tables| && !Distinct(path)
    ensures DependsOnCycle(o.graph, o.order[path[0]])
  {
    hide Built, Refers, References;
    var there := seq(|path|, k requires 0 <= k < |path| => o.order[path[k]]);
    forall k | 0 <= k < |there| - 1 ensures References(o.graph, there[k], there[k + 1]) {
      RefersEdge(s, o, path[k], path[k + 1]);
    }
    assert Chain(o.graph, there);
    var a, b :| 0 <= a < b < |path| && path[a] == path[b];
    assert there[a] == there[b];
  }

  lemma ChainBounded(graph: seq<seq<nat>>, path: seq<nat>)
    requires GraphOk(graph) && Chain(graph, path) && |path| > 1
    ensures Bounded(path, |graph|)
  {
    forall k | 0 <= k < |path| ensures path[k] < |graph| {
      if k > 0 {
        assert References(graph, path[k - 1], path[k]);
      } else {
        assert References(graph, path[0], path[1]);
        var m :| 0 <= m < |graph[path[1]]| && graph[path[1]][m] == path[0];
      }
    }
  }

  lemma ChainIsWalk(s: Tables, o: Origin, path: seq<nat>, i: nat)
    requires Built(s, o) && Chain(o.graph, path) && !Distinct(path)
    requires |o.order| == |s.tables| && i < |o.order| && path[0] == o.order[i]
    ensures ReachesCycle(s, i)
  {
    hide Built, Refers, RawOk, TableOrdered, FinalFks, ResolveAll, References, DistinctNames, TablesOk;
    BuiltFacts(s, o);
    ChainBounded(o.graph, path);
    var n := |s.tables|;
    forall k | 0 <= k < |path| ensures o.place[path[k]] < n && o.order[o.place[path[k]]] == path[k] {
      PlaceOf(s, o, path[k]);
    }
    var there := seq(|path|, k requires 0 <= k < |path| => o.place[path[k]]);
    forall k | 0 <= k < |there| - 1 ensures there[k] != there[k + 1] && Refers(s, there[k], there[k + 1]) {
      assert References(o.graph, path[k], path[k + 1]);
      EdgeRefers(s, o, there[k], there[k + 1]);
    }
    assert Walk(s, there) && there[0] == i;
    var a, b :| 0 <= a < b < |path| && path[a] == path[b];
    assert there[a] == there[b];
  }

  /**
    The tables that the queue ordered come after all other tables they reference;
    the remaining tables are exactly those that depend, directly or not, on a
    cycle, so without cycles the whole schema is ordered.
   */
  lemma OrderTheorem(s: Tables, o: Origin, i: nat)
    requires Built(s, o) && i < |s.tables|
    ensures i < o.emitted ==> forall j: nat | j != i && Refers(s, i, j) :: j < i
    ensures i >= o.emitted <==> ReachesCycle(s, i)
  {
    hide Built, RawOk, TablesOk, FinalFks, ResolveAll, DistinctNames, GraphOf, Refers, References;
    BuiltFacts(s, o);
    InFront(o.order, o.emitted, i);
    if i < o.emitted {
      forall j: nat | j != i && Refers(s, i, j) ensures j < i { EarlierTarget(s, o, i, j); }
    }
    if ReachesCycle(s, i) {
      var path :| Walk(s, path) && path[0] == i && !Distinct(path);
      WalkIsChain(s, o, path);
    }
    if DependsOnCycle(o.graph, o.order[i]) {
      var path :| Chain(o.graph, path) && path[0] == o.order[i] && !Distinct(path);
      ChainIsWalk(s, o, path, i);
    }
  }

  lemma EarlierTarget(s: Tables, o: Origin, i: nat, j: nat)
    requires Built(s, o) && i < |s.tables| && j != i && Refers(s, i, j) && i < o.emitted
    ensures j < i
  {
    hide Built, RawOk, TablesOk, FinalFks, ResolveAll, DistinctNames, GraphOf, Refers;
    BuiltFacts(s, o);
    RefersWithin(s, o, i, j);
    RefersEdge(s, o, i, j);
    var front := o.order[..o.emitted];
    assert front[i] == o.order[i] && o.order[j] in front[..i];
    var k :| 0 <= k < i && front[..i][k] == o.order[j];
    assert o.order[k] == o.order[j];
  }

  lemma InFront(order: seq<nat>, m: nat, i: nat)
    requires Distinct(order) && m <= |order| && i < |order|
    ensures order[i] in order[..m] <==> i < m
  {
    if i < m { assert order[..m][i] == order[i]; }
  }

  // ----- table queries

  /** `independent_tables` keeps the tables all of whose foreign keys lead to themselves. */
  ghost predicate Independent(s: Tables, i: nat) {
    forall j: nat | j != i :: !Refers(s, i, j)
  }

  /** The independent tables are exactly an initial segment of the table order. */
  lemma IndependentPrefix(s: Tables, o: Origin, i: nat)
    requires Built(s, o) && i < |s.tables|
    ensures Independent(s, i) <==> i < |Roots(o.graph, |o.graph|)|
  {
    hide Built, RawOk, TablesOk, FinalFks, ResolveAll, DistinctNames, GraphOf, Refers;
    BuiltFacts(s, o);
    var roots, v := Roots(o.graph, |o.graph|), o.order[i];
    assert roots <= o.order[..o.emitted] <= o.order;
    InFront(o.order, |roots|, i);
    RootsAre(o.graph, |o.graph|);
    assert o.order[..|roots|] == roots;
    if i < |roots| {
      forall j: nat | j != i && Refers(s, i, j) ensures false {
        RefersWithin(s, o, i, j);
        RefersEdge(s, o, i, j);
      }
    } else {
      var u :| 0 <= u < |o.graph| && v in o.graph[u];
      PlaceOf(s, o, u);
      assert References(o.graph, v, o.order[o.place[u]]);
      EdgeRefers(s, o, i, o.place[u]);
    }
  }

  /** The test that `independent_tables` applies to one table. */
  method OwnKeysOnly(s: Tables, ghost o: Origin, i: nat) returns (own: bool)
    requires Built(s, o) && i < |s.tables|
    ensures own <==> Independent(s, i)
  {
    hide Built, FinalFks;
    TableFksExact(s, o, i);
    var fks := TableFks(s, i);
    own := true;
    for q := 0 to |fks|
      invariant own ==> forall r | 0 <= r < q :: fks[r].table == i
      invariant !own ==> exists j: nat :: j != i && Refers(s, i, j)
    {
      if fks[q].table != i {
        assert Refers(s, i, fks[q].table);
        own := false;
      }
    }
  }

  /** `independent_tables` yields exactly the independent tables, and they are an initial segment of the table order. */
  method IndependentTables(s: Tables, ghost o: Origin) returns (found: seq<nat>)
    requires Built(s, o)
    ensures |found| <= |s.tables| && forall k | 0 <= k < |found| :: found[k] == k
    ensures forall i: nat | i < |s.tables| :: i in found <==> Independent(s, i)
  {
    hide Built, Independent;
    ghost var roots := |Roots(o.graph, |o.graph|)|;
    found := [];
    for i := 0 to |s.tables|
      invariant |found| == (if i <= roots then i else roots) && forall k | 0 <= k < |found| :: found[k] == k
      invariant forall j: nat | j < i :: j in found <==> Independent(s, j)
    {
      IndependentPrefix(s, o, i);
      var own := OwnKeysOnly(s, o, i);
      if own {
        found := found + [i];
      }
    }
  }

  lemma RefersWithin(s: Tables, o: Origin, i: nat, j: nat)
    requires Built(s, o) && Refers(s, i, j)
    ensures j < |s.tables|
  {
    hide Built, FinalFks, FinalFk, Declared;
    var f :| f in TableFks(s, i) && f.table == j;
    TableFksExact(s, o, i);
    var fks := Declared(o.rows[s.tables[i].columnsStart..ColumnsEnd(s.tables[i])]);
    var q := FinalSource(o.raw, o.place, fks, f);
    KeptNamesTarget(s, o, fks[q]);
  }

  /** One of the first `n` tables, other than `j`, references table `j`. */
  ghost predicate Referenced(s: Tables, n: nat, j: nat) {
    exists i: nat | i < n && i != j :: Refers(s, i, j)
  }

  /** The marking of everything that one table references. */
  method MarkTargets(s: Tables, ghost o: Origin, i: nat, referenced: array<bool>)
    requires Built(s, o) && i < |s.tables| && referenced.Length == |s.tables|
    modifies referenced
    ensures forall j: nat | j < |s.tables| :: referenced[j] <==> old(referenced[j]) || (j != i && Refers(s, i, j))
  {
    hide Built, FinalFks;
    TableFksExact(s, o, i);
    var fks := TableFks(s, i);
    for q := 0 to |fks|
      invariant forall j: nat | j < |s.tables| ::
                  referenced[j] <==> old(referenced[j]) || (j != i && exists r: nat | r < q :: fks[r].table == j)
    {
      assert Refers(s, i, fks[q].table);
      RefersWithin(s, o, i, fks[q].table);
      if fks[q].table != i {
        referenced[fks[q].table] := true;
      }
    }
    forall j: nat | j < |s.tables| ensures (exists r: nat | r < |fks| :: fks[r].table == j) <==> Refers(s, i, j) {
      if exists r: nat | r < |fks| :: fks[r].table == j {
        var r: nat :| r < |fks| && fks[r].table == j;
        assert fks[r] in TableFks(s, i);
      }
    }
  }

  /** `leaf_tables`: in ascending order, exactly the tables that no other table references. */
  method LeafTables(s: Tables, ghost o: Origin) returns (leaves: seq<nat>)
    requires Built(s, o)
    ensures Bounded(leaves, |s.tables|) && forall a, b | 0 <= a < b < |leaves| :: leaves[a] < leaves[b]
    ensures forall j: nat | j < |s.tables| :: j in leaves <==> !Referenced(s, |s.tables|, j)
  {
    hide Built, Refers;
    var n := |s.tables|;
    var referenced := new bool[n](_ => false);
    for i := 0 to n
      invariant forall j: nat | j < n :: referenced[j] <==> Referenced(s, i, j)
    {
      ghost var before := referenced[..];
      MarkTargets(s, o, i, referenced);
      forall j: nat | j < n ensures referenced[j] <==> Referenced(s, i + 1, j) {
        assert before[j] <==> Referenced(s, i, j);
      }
    }
    leaves := [];
    for j := 0 to n
      invariant Bounded(leaves, j) && forall a, b | 0 <= a < b < |leaves| :: leaves[a] < leaves[b]
      invariant forall k: nat | k < j :: k in leaves <==> !Referenced(s, n, k)
      invariant forall j: nat | j < n :: referenced[j] <==> Referenced(s, n, j)
    {
      if !referenced[j] {
        leaves := leaves + [j];
      }
    }
  }
}
