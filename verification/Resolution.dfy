/**
  Late resolution of foreign keys: each declared key whose table and column exist
  becomes a resolved key, and an edge of the reference graph unless the table
  references itself.
 */
module Resolution {
  import opened Bytes
  import opened Symbols
  import opened SchemaTypes
  import opened SchemaRows
  import opened TopoSort
  import opened NameIndex

  /** The target of a foreign key: the table's index before ordering, and the column's position in it. */
  datatype Target = Target(table: nat, column: nat)

  datatype ResolvedFk = ResolvedFk(poolIndex: nat, source: nat, target: Target)

  /** First position of a name. */
  function Position(names: seq<Symbol>, name: Symbol): (r: Option<nat>)
    ensures r.Some? ==> r.value < |names| && names[r.value] == name
                        && forall i | 0 <= i < r.value :: names[i] != name
    ensures r.None? ==> name !in names
  {
    if names == [] then None
    else if names[0] == name then Some(0)
    else match Position(names[1..], name) case None => None case Some(i) => Some(i + 1)
  }

  /** Where a declared reference leads: nowhere if its table or its column is missing. */
  function TargetOf(ts: seq<TableMeta>, columnNames: seq<Symbol>, refTable: Symbol,
                    refColumn: Symbol): (r: Option<Target>)
    ensures r.Some? ==> r.value.table < |ts| && ts[r.value.table].name == refTable
  {
    match IndexOfName(ts, refTable)
    case None => None
    case Some(t) =>
      if ColumnsEnd(ts[t]) > |columnNames| then None else
      match Position(columnNames[ts[t].columnsStart..ColumnsEnd(ts[t])], refColumn)
      case None => None
      case Some(c) => Some(Target(t, c))
  }

  function ResolveOne(raw: Raw, u: Unresolved): Option<ResolvedFk> {
    match TargetOf(raw.tables, raw.columnNames, u.refTable, u.refColumn)
    case None => None
    case Some(target) => Some(ResolvedFk(u.poolIndex, u.sourceTable, target))
  }

  function ResolveAll(raw: Raw, us: seq<Unresolved>): seq<ResolvedFk> {
    if us == [] then []
    else ResolveAll(raw, us[..|us| - 1])
         + match ResolveOne(raw, us[|us| - 1]) case None => [] case Some(r) => [r]
  }

  /** The graph has an edge for every resolved key between different tables, and no other. */
  ghost predicate GraphOf(graph: seq<seq<nat>>, resolved: seq<ResolvedFk>, n: nat) {
    && |graph| == n && GraphOk(graph)
    && forall u: nat, v: nat | u < n && v < n :: v in graph[u] <==> HasEdge(resolved, u, v)
  }

  predicate IsEdge(r: ResolvedFk, u: nat, v: nat) { r.source == v && r.target.table == u && u != v }

  ghost predicate HasEdge(resolved: seq<ResolvedFk>, u: nat, v: nat) {
    exists i | 0 <= i < |resolved| :: IsEdge(resolved[i], u, v)
  }

  lemma HasEdgePush(resolved: seq<ResolvedFk>, r: ResolvedFk, u: nat, v: nat)
    ensures HasEdge(resolved + [r], u, v) <==> HasEdge(resolved, u, v) || IsEdge(r, u, v)
  {
    var after := resolved + [r];
    if HasEdge(resolved, u, v) {
      var i :| 0 <= i < |resolved| && IsEdge(resolved[i], u, v);
      assert IsEdge(after[i], u, v);
    }
    assert after[|resolved|] == r;
  }

  ghost predicate Degrees(inDegree: array<nat>, graph: seq<seq<nat>>)
    reads inDegree
  {
    inDegree.Length == |graph| && forall v | 0 <= v < |graph| :: inDegree[v] == Pending(graph, {}, v, |graph|)
  }

  /** One more edge from `u` raises the pending count of its end, and of no other table. */
  lemma {:induction false} PendingPush(graph: seq<seq<nat>>, u: nat, v: nat, w: nat, m: nat)
    requires m <= |graph| && u < |graph|
    ensures Pending(graph[u := graph[u] + [v]], {}, w, m)
         == Pending(graph, {}, w, m) + if u < m && v == w then 1 else 0
  {
    if m > 0 { PendingPush(graph, u, v, w, m - 1); }
  }

  lemma {:induction false} PendingEmpty(graph: seq<seq<nat>>, v: nat, m: nat)
    requires m <= |graph| && forall u | 0 <= u < m :: graph[u] == []
    ensures Pending(graph, {}, v, m) == 0
  {
    if m > 0 { PendingEmpty(graph, v, m - 1); }
  }

  lemma GraphEmpty(graph: seq<seq<nat>>, n: nat)
    requires |graph| == n && forall u | 0 <= u < n :: graph[u] == []
    ensures GraphOf(graph, [], n)
  {
  }

  lemma GraphPush(graph: seq<seq<nat>>, resolved: seq<ResolvedFk>, n: nat, r: ResolvedFk)
    requires GraphOf(graph, resolved, n) && r.source < n && r.target.table < n
    ensures r.source == r.target.table ==> GraphOf(graph, resolved + [r], n)
    ensures r.source != r.target.table ==>
              GraphOf(graph[r.target.table := graph[r.target.table] + [r.source]], resolved + [r], n)
  {
    var ref := r.target.table;
    var after := if r.source == ref then graph else graph[ref := graph[ref] + [r.source]];
    forall u: nat, v: nat | u < n && v < n ensures v in after[u] <==> HasEdge(resolved + [r], u, v) {
      HasEdgePush(resolved, r, u, v);
    }
    assert GraphOk(after);
  }

  /** An edge more: the graph gains it, and the in-degrees follow. */
  method AddEdge(graph: seq<seq<nat>>, inDegree: array<nat>, ref: nat, source: nat) returns (graph': seq<seq<nat>>)
    requires Degrees(inDegree, graph) && ref < |graph| && source < |graph|
    modifies inDegree
    ensures graph' == graph[ref := graph[ref] + [source]]
    ensures Degrees(inDegree, graph')
  {
    graph' := graph[ref := graph[ref] + [source]];
    inDegree[source] := inDegree[source] + 1;
    forall w | 0 <= w < |graph| ensures inDegree[w] == Pending(graph', {}, w, |graph|) {
      PendingPush(graph, ref, source, w, |graph|);
    }
  }

  /** The resolution loop of `build`. */
  method ResolveForeignKeys(raw: Raw, byName: seq<nat>, ghost rows: seq<Row>)
    returns (resolved: seq<ResolvedFk>, graph: seq<seq<nat>>, inDegree: array<nat>)
    requires RawOk(raw, rows) && DistinctNames(raw.tables) && ByNameOk(byName, raw.tables)
    ensures resolved == ResolveAll(raw, raw.unresolved)
    ensures GraphOf(graph, resolved, |raw.tables|)
    ensures fresh(inDegree) && Degrees(inDegree, graph)
  {
    hide GraphOf, TablesOk, ColumnsOk, Pending;
    var n := |raw.tables|;
    graph := seq(n, _ => []);
    inDegree := new nat[n](_ => 0);
    resolved := [];
    forall v | 0 <= v < n ensures Pending(graph, {}, v, n) == 0 { PendingEmpty(graph, v, n); }
    GraphEmpty(graph, n);
    for i := 0 to |raw.unresolved|
      invariant resolved == ResolveAll(raw, raw.unresolved[..i])
      invariant GraphOf(graph, resolved, n)
      invariant Degrees(inDegree, graph)
    {
      var u := raw.unresolved[i];
      assert UnresolvedOk(u, i, Declared(rows)[i], raw.tables);
      assert raw.unresolved[..i + 1][..i] == raw.unresolved[..i];
      var r := LookUpTarget(raw, byName, rows, u);
      if r.Some? {
        GraphPush(graph, resolved, n, r.value);
        resolved := resolved + [r.value];
        if r.value.target.table != r.value.source {
          graph := AddEdge(graph, inDegree, r.value.target.table, r.value.source);
        }
      }
    }
    assert raw.unresolved[..|raw.unresolved|] == raw.unresolved;
  }

  /** Binary search for the table, then a scan of its columns. */
  method LookUpTarget(raw: Raw, byName: seq<nat>, ghost rows: seq<Row>, u: Unresolved) returns (r: Option<ResolvedFk>)
    requires RawOk(raw, rows) && DistinctNames(raw.tables) && ByNameOk(byName, raw.tables)
    ensures r == ResolveOne(raw, u)
  {
    var slot := SearchByName(byName, raw.tables, u.refTable);
    if slot.None? {
      return None;
    }
    var t := byName[slot.value];
    assert TableOk(raw.tables[t], rows);
    assert IndexOfName(raw.tables, u.refTable) == Some(t);
    var meta := raw.tables[t];
    var c := Position(raw.columnNames[meta.columnsStart..ColumnsEnd(meta)], u.refColumn);
    if c.None? {
      return None;
    }
    r := Some(ResolvedFk(u.poolIndex, u.sourceTable, Target(t, c.value)));
  }
}
