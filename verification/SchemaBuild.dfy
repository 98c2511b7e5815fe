/**
  `build` as a whole, what the finished schema is in terms of the rows, and the
  two table queries that depend on the order and the references.
 */
module SchemaBuild {
  import opened Bytes
  import opened SchemaTypes
  import opened SchemaRows
  import opened TopoSort
  import opened NameIndex
  import opened Resolution
  import opened Compaction
  import opened Builder

  /** `place` sends every old table index to its position in `order`. */
  ghost predicate Inverse(order: seq<nat>, place: seq<nat>) {
    && |place| == |order|
    && (forall i | 0 <= i < |order| :: order[i] < |place| && place[order[i]] == i)
  }

  function MovedTable(raw: Raw, t: TableMeta): TableMeta
    requires t.fkStart + t.fkLen <= |raw.unresolved|
  {
    var r := Shrunk(raw, t.fkStart, t.fkStart + t.fkLen);
    t.(fkStart := r.start, fkLen := r.len)
  }

  function MovedColumn(raw: Raw, c: Column): Column
    requires c.foreignKeys.start + c.foreignKeys.len <= |raw.unresolved|
  {
    c.(foreignKeys := Shrunk(raw, c.foreignKeys.start, c.foreignKeys.start + c.foreignKeys.len))
  }

  ghost predicate RangesOk(raw: Raw) {
    && (forall i | 0 <= i < |raw.tables| :: raw.tables[i].fkStart + raw.tables[i].fkLen <= |raw.unresolved|)
    && (forall k | 0 <= k < |raw.columns| ::
          raw.columns[k].foreignKeys.start + raw.columns[k].foreignKeys.len <= |raw.unresolved|)
  }

  lemma RawRanges(raw: Raw, rows: seq<Row>)
    requires RawOk(raw, rows)
    ensures RangesOk(raw)
  {
    forall i | 0 <= i < |raw.tables| ensures raw.tables[i].fkStart + raw.tables[i].fkLen <= |raw.unresolved| {
      assert TableOk(raw.tables[i], rows);
      DeclaredSlice(rows, ColumnsEnd(raw.tables[i]), |rows|);
    }
    forall k | 0 <= k < |raw.columns|
      ensures raw.columns[k].foreignKeys.start + raw.columns[k].foreignKeys.len <= |raw.unresolved|
    {
      RowSlice(rows, k);
      assert raw.columns[k] == ColumnOf(rows, k);
    }
  }

  /** A column's old range holds its row's foreign keys. */
  lemma RowSlice(rows: seq<Row>, k: nat)
    requires k < |rows|
    ensures FkPos(rows, k) + |rows[k].fks| == FkPos(rows, k + 1) <= |Declared(rows)|
    ensures Declared(rows)[FkPos(rows, k)..FkPos(rows, k + 1)] == rows[k].fks
  {
    DeclaredSlice(rows, k, k + 1);
    DeclaredConcat(rows[..k], rows[k..k + 1]);
    assert rows[..k] + rows[k..k + 1] == rows[..k + 1] && rows[k..k + 1] == [rows[k]] && [rows[k]][..0] == [];
  }

  /** Where a schema comes from: what was collected, the reference graph, and the order with its inverse. */
  datatype Origin = Origin(
    raw: Raw, rows: seq<Row>, graph: seq<seq<nat>>, order: seq<nat>, emitted: nat, place: seq<nat>)

  ghost predicate Planned(o: Origin) {
    && RawOk(o.raw, o.rows) && DistinctNames(o.raw.tables) && RangesOk(o.raw)
    && GraphOf(o.graph, ResolveAll(o.raw, o.raw.unresolved), |o.raw.tables|)
    && TableOrdered(o.graph, o.order, o.emitted)
    && |o.order| == |o.raw.tables| && Inverse(o.order, o.place)
  }

  /** The finished schema: the tables in their order, and every range moved into the compacted pool. */
  ghost predicate Built(s: Tables, o: Origin) {
    && Planned(o)
    && |s.tables| == |o.raw.tables|
    && (forall i | 0 <= i < |s.tables| ::
          o.order[i] < |o.raw.tables| && s.tables[i] == MovedTable(o.raw, o.raw.tables[o.order[i]]))
    && |s.columns| == |o.raw.columns|
    && (forall k | 0 <= k < |s.columns| :: s.columns[k] == MovedColumn(o.raw, o.raw.columns[k]))
    && s.columnNames == o.raw.columnNames && s.constraintPool == o.raw.constraintPool
    && s.foreignKeyPool == FinalFks(o.raw, o.place, Declared(o.rows))
    && ByNameOk(s.byName, s.tables)
  }

  method Places(order: seq<nat>) returns (place: seq<nat>)
    requires Distinct(order) && Bounded(order, |order|)
    ensures Inverse(order, place)
  {
    var a := new nat[|order|](_ => 0);
    for i := 0 to |order|
      invariant forall j | 0 <= j < i :: a[order[j]] == j
    {
      a[order[i]] := i;
    }
    place := a[..];
  }

  method MoveTables(raw: Raw, order: seq<nat>, position: array<Option<nat>>) returns (tables: seq<TableMeta>)
    requires RangesOk(raw) && Bounded(order, |raw.tables|)
    requires |raw.unresolved| < U32_SIZE && PositionsOk(raw, position[..], Rank(raw, |raw.unresolved|))
    ensures |tables| == |order| && forall i | 0 <= i < |order| :: tables[i] == MovedTable(raw, raw.tables[order[i]])
  {
    hide Rank, PositionsOk, Shrunk;
    tables := [];
    for i := 0 to |order|
      invariant |tables| == i && forall j | 0 <= j < i :: tables[j] == MovedTable(raw, raw.tables[order[j]])
    {
      var t := raw.tables[order[i]];
      var r := NewRange(raw, position, t.fkStart, t.fkStart + t.fkLen);
      tables := tables + [t.(fkStart := r.start, fkLen := r.len)];
    }
  }

  method MoveColumns(raw: Raw, position: array<Option<nat>>) returns (columns: seq<Column>)
    requires RangesOk(raw)
    requires |raw.unresolved| < U32_SIZE && PositionsOk(raw, position[..], Rank(raw, |raw.unresolved|))
    ensures |columns| == |raw.columns|
    ensures forall k | 0 <= k < |columns| :: columns[k] == MovedColumn(raw, raw.columns[k])
  {
    hide Rank, PositionsOk, Shrunk;
    columns := [];
    for k := 0 to |raw.columns|
      invariant |columns| == k && forall j | 0 <= j < k :: columns[j] == MovedColumn(raw, raw.columns[j])
    {
      var c := raw.columns[k];
      var r := NewRange(raw, position, c.foreignKeys.start, c.foreignKeys.start + c.foreignKeys.len);
      columns := columns + [c.(foreignKeys := r)];
    }
  }

  /** `build`, from the collected vectors on. Table indices are 16 bits wide, pool positions 32. */
  method BuildTables(raw: Raw, ghost rows: seq<Row>)
    returns (s: Tables, ghost o: Origin)
    requires RawOk(raw, rows) && DistinctNames(raw.tables)
    requires |raw.tables| < U16_SIZE && |raw.fkPool| < U32_SIZE
    ensures Built(s, o) && o.raw == raw && o.rows == rows
  {
    hide RawOk, ResolveAll, Rank, GraphOf, TableOrdered, ByNameOk, PositionsOk, RangesOk, FinalFks, DistinctNames,
         Inverse;
    DeclaredCount(raw, rows);
    RawRanges(raw, rows);
    var byName := SortByName(raw.tables);
    var resolved, references, inDegree := ResolveForeignKeys(raw, byName, rows);
    GraphFacts(references, resolved, |raw.tables|);
    var sorted, e := TableOrder(references, inDegree);
    OrderFacts(references, sorted, e);
    assert forall i | 0 <= i < |sorted| :: sorted[i] < |raw.tables|;
    var newPlace := Places(sorted);
    InverseFacts(sorted, newPlace);
    var pool, position := CompactPool(raw, rows, resolved, newPlace);
    assert raw.unresolved[..|raw.unresolved|] == raw.unresolved;
    RankCount(raw);
    var columns := MoveColumns(raw, position);
    var tables := MoveTables(raw, sorted, position);
    var finalByName := SortByName(tables);
    s := Tables(tables, finalByName, columns, raw.columnNames, raw.constraintPool, pool);
    o := Origin(raw, rows, references, sorted, e, newPlace);
    assert Planned(o);
  }

  lemma GraphFacts(graph: seq<seq<nat>>, resolved: seq<ResolvedFk>, n: nat)
    requires GraphOf(graph, resolved, n)
    ensures |graph| == n && GraphOk(graph)
  {
  }

  lemma OrderFacts(graph: seq<seq<nat>>, order: seq<nat>, emitted: nat)
    requires TableOrdered(graph, order, emitted)
    ensures |order| == |graph| && Distinct(order) && Bounded(order, |graph|)
  {
  }

  lemma InverseFacts(order: seq<nat>, place: seq<nat>)
    requires Inverse(order, place)
    ensures |place| == |order|
  {
  }

  /** `build`: closes the last table and finishes the schema. */
  method Build(b: SchemaBuilder)
    returns (s: Tables, ghost o: Origin)
    requires b.Valid() && Grouped(b.rows) && |b.AllTables()| < U16_SIZE
    modifies b`tables
    ensures Built(s, o) && o.raw == old(b.Collected()) && o.rows == b.rows
  {
    GroupedDistinct(b.AllTables(), b.rows);
    b.FinishTable();
    var collected := Raw(b.tables, b.columns, b.columnNames, b.constraintPool, b.fkPool, b.unresolved);
    s, o := BuildTables(collected, b.rows);
  }
}
