/**
  The rows that describe a database, and what the builder must have collected
  from them: one column per row, one table per run of rows, and the pools of
  declared foreign keys and checks.

  Names are the symbols that `get_or_intern` returned for them.
 */
module SchemaRows {
  import opened Bytes
  import opened Symbols
  import opened SchemaTypes

  datatype RawForeignKey = RawForeignKey(
    constraintName: Symbol, namespace: Symbol, refTable: Symbol, refColumn: Symbol, onUpdate: Action, onDelete: Action)

  datatype Row = Row(
    table: Symbol, column: Symbol, dataType: ValueType, nullable: bool, primary: bool, unique: bool,
    defaultValue: Option<Symbol>, fks: seq<RawForeignKey>, checks: seq<Symbol>)

  /** A foreign key whose target is looked up once all tables are known. */
  datatype Unresolved = Unresolved(poolIndex: nat, sourceTable: nat, refTable: Symbol, refColumn: Symbol)

  datatype Raw = Raw(
    tables: seq<TableMeta>, columns: seq<Column>, columnNames: seq<Symbol>,
    constraintPool: seq<Symbol>, fkPool: seq<ForeignKey>, unresolved: seq<Unresolved>)

  /** All foreign keys in declaration order. */
  function Declared(rows: seq<Row>): seq<RawForeignKey> {
    if rows == [] then [] else Declared(rows[..|rows| - 1]) + rows[|rows| - 1].fks
  }

  function Checks(rows: seq<Row>): seq<Symbol> {
    if rows == [] then [] else Checks(rows[..|rows| - 1]) + rows[|rows| - 1].checks
  }

  /** Where row `k`'s foreign keys and checks begin in the pools. */
  function FkPos(rows: seq<Row>, k: nat): nat
    requires k <= |rows|
  {
    |Declared(rows[..k])|
  }

  function CheckPos(rows: seq<Row>, k: nat): nat
    requires k <= |rows|
  {
    |Checks(rows[..k])|
  }

  /** The pool entry of a foreign key before its target is known. */
  function Blank(fk: RawForeignKey): ForeignKey {
    ForeignKey(fk.constraintName, fk.namespace, 0, 0, fk.onUpdate, fk.onDelete)
  }

  function ColumnOf(rows: seq<Row>, k: nat): Column
    requires k < |rows|
  {
    var r := rows[k];
    Column(r.column, r.dataType, r.defaultValue, Flags(r.nullable, r.primary, r.unique),
           PoolRange(CheckPos(rows, k), |r.checks|), PoolRange(FkPos(rows, k), |r.fks|))
  }

  /** The last primary-key column of a table, by position. */
  function LastPrimary(rows: seq<Row>): (r: Option<nat>)
    ensures r.Some? ==> r.value < |rows|
  {
    if rows == [] then None
    else if rows[|rows| - 1].primary then Some(|rows| - 1)
    else LastPrimary(rows[..|rows| - 1])
  }

  /** A table covers a run of rows of its name. */
  ghost predicate TableOk(t: TableMeta, rows: seq<Row>) {
    && t.columnsLen > 0 && ColumnsEnd(t) <= |rows|
    && (forall k | t.columnsStart <= k < ColumnsEnd(t) :: rows[k].table == t.name)
    && t.fkStart == FkPos(rows, t.columnsStart)
    && t.fkStart + t.fkLen == FkPos(rows, ColumnsEnd(t))
    && t.primaryKey == LastPrimary(rows[t.columnsStart..ColumnsEnd(t)])
  }

  /** The tables tile the rows, and a new one starts exactly where the name changes. */
  ghost predicate TablesOk(ts: seq<TableMeta>, rows: seq<Row>) {
    && (ts == [] <==> rows == [])
    && (ts != [] ==> ts[0].columnsStart == 0 && ColumnsEnd(ts[|ts| - 1]) == |rows|)
    && (forall i | 0 <= i < |ts| :: TableOk(ts[i], rows))
    && (forall i, j | 0 <= i && j == i + 1 < |ts| ::
          ColumnsEnd(ts[i]) == ts[j].columnsStart && ts[i].name != ts[j].name)
  }

  /** Pool entry `p` belongs to a row of table `t`. */
  predicate CoversFk(t: TableMeta, p: nat) { t.fkStart <= p < t.fkStart + t.fkLen }

  ghost predicate UnresolvedOk(u: Unresolved, p: nat, fk: RawForeignKey, ts: seq<TableMeta>) {
    && u.poolIndex == p && u.refTable == fk.refTable && u.refColumn == fk.refColumn
    && u.sourceTable < |ts| && CoversFk(ts[u.sourceTable], p)
  }

  ghost predicate ColumnsOk(raw: Raw, rows: seq<Row>) {
    && |raw.columns| == |raw.columnNames| == |rows|
    && (forall k | 0 <= k < |rows| :: raw.columns[k] == ColumnOf(rows, k))
    && (forall k | 0 <= k < |rows| :: raw.columnNames[k] == rows[k].column)
    && raw.constraintPool == Checks(rows)
  }

  ghost predicate FksOk(raw: Raw, rows: seq<Row>) {
    && |raw.fkPool| == |raw.unresolved| == |Declared(rows)|
    && (forall p | 0 <= p < |raw.fkPool| :: raw.fkPool[p] == Blank(Declared(rows)[p]))
    && (forall p | 0 <= p < |raw.unresolved| :: UnresolvedOk(raw.unresolved[p], p, Declared(rows)[p], raw.tables))
  }

  /** The builder's vectors describe `rows`. */
  ghost predicate RawOk(raw: Raw, rows: seq<Row>) {
    ColumnsOk(raw, rows) && FksOk(raw, rows) && TablesOk(raw.tables, rows)
  }

  /** No count exceeds the width of its field. */
  ghost predicate Widths(raw: Raw) {
    && |raw.columns| < U32_SIZE && |raw.constraintPool| < U32_SIZE && |raw.fkPool| < U32_SIZE
    && (forall i | 0 <= i < |raw.tables| :: raw.tables[i].columnsLen < U16_SIZE && raw.tables[i].fkLen < U16_SIZE)
    && (forall k | 0 <= k < |raw.columns| ::
          raw.columns[k].constraints.len < U16_SIZE && raw.columns[k].foreignKeys.len < U16_SIZE)
  }

  // ----- appending a row

  lemma PositionsAgree(rows: seq<Row>, r: Row, k: nat)
    requires k <= |rows|
    ensures FkPos(rows + [r], k) == FkPos(rows, k) && CheckPos(rows + [r], k) == CheckPos(rows, k)
    ensures Declared(rows + [r]) == Declared(rows) + r.fks && Checks(rows + [r]) == Checks(rows) + r.checks
    ensures FkPos(rows + [r], |rows| + 1) == FkPos(rows, |rows|) + |r.fks|
    ensures FkPos(rows, |rows|) == |Declared(rows)| && CheckPos(rows, |rows|) == |Checks(rows)|
  {
    var next := rows + [r];
    assert next[..k] == rows[..k] && next[..|next| - 1] == rows && next[..|rows| + 1] == next && rows[..|rows|] == rows;
  }

  lemma ColumnsAgree(rows: seq<Row>, r: Row, k: nat)
    requires k <= |rows|
    ensures ColumnOf(rows + [r], k)
         == if k < |rows| then ColumnOf(rows, k)
            else Column(r.column, r.dataType, r.defaultValue, Flags(r.nullable, r.primary, r.unique),
                        PoolRange(|Checks(rows)|, |r.checks|), PoolRange(|Declared(rows)|, |r.fks|))
  {
    PositionsAgree(rows, r, k);
  }

  lemma TableAgrees(t: TableMeta, rows: seq<Row>, r: Row)
    requires TableOk(t, rows)
    ensures TableOk(t, rows + [r])
  {
    PositionsAgree(rows, r, t.columnsStart);
    PositionsAgree(rows, r, ColumnsEnd(t));
    assert (rows + [r])[t.columnsStart..ColumnsEnd(t)] == rows[t.columnsStart..ColumnsEnd(t)];
  }

  /** The table under construction, one row longer. */
  function Extended(t: TableMeta, r: Row): TableMeta {
    t.(columnsLen := t.columnsLen + 1, fkLen := t.fkLen + |r.fks|,
       primaryKey := if r.primary then Some(t.columnsLen) else t.primaryKey)
  }

  lemma TableExtends(t: TableMeta, rows: seq<Row>, r: Row)
    requires TableOk(t, rows) && ColumnsEnd(t) == |rows| && r.table == t.name
    ensures TableOk(Extended(t, r), rows + [r])
  {
    PositionsAgree(rows, r, t.columnsStart);
    PositionsAgree(rows, r, |rows|);
    var part := (rows + [r])[t.columnsStart..];
    assert part[..|part| - 1] == rows[t.columnsStart..ColumnsEnd(t)];
    assert (rows + [r])[t.columnsStart..ColumnsEnd(t) + 1] == part;
  }

  /** A table that starts with this row. */
  function Started(rows: seq<Row>, r: Row): TableMeta {
    TableMeta(r.table, |rows|, 1, if r.primary then Some(0) else None, |Declared(rows)|, |r.fks|)
  }

  lemma TableStarts(rows: seq<Row>, r: Row)
    ensures TableOk(Started(rows, r), rows + [r])
  {
    PositionsAgree(rows, r, |rows|);
    assert (rows + [r])[|rows|..|rows| + 1] == [r];
    assert [r][..0] == [];
  }

  /** The tables once another row has arrived. */
  function NextTables(ts: seq<TableMeta>, rows: seq<Row>, r: Row): seq<TableMeta> {
    if ts != [] && ts[|ts| - 1].name == r.table then ts[..|ts| - 1] + [Extended(ts[|ts| - 1], r)]
    else ts + [Started(rows, r)]
  }

  lemma TableEnd(t: TableMeta, rows: seq<Row>)
    requires TableOk(t, rows)
    ensures t.columnsLen > 0
  {
  }

  lemma TablesGrow(ts: seq<TableMeta>, rows: seq<Row>, r: Row)
    requires TablesOk(ts, rows)
    ensures TablesOk(NextTables(ts, rows, r), rows + [r])
  {
    hide TableOk;
    var next := NextTables(ts, rows, r);
    if ts != [] { TableEnd(ts[|ts| - 1], rows); }
    forall i | 0 <= i < |next| ensures TableOk(next[i], rows + [r]) {
      if i < |next| - 1 {
        TableAgrees(ts[i], rows, r);
      } else if |next| == |ts| {
        TableExtends(ts[i], rows, r);
      } else {
        TableStarts(rows, r);
      }
    }
  }

  lemma {:induction false} DeclaredConcat(a: seq<Row>, b: seq<Row>)
    ensures Declared(a + b) == Declared(a) + Declared(b)
  {
    if b == [] {
      assert a + b == a;
    } else {
      var n := |b| - 1;
      assert (a + b)[..|a + b| - 1] == a + b[..n];
      DeclaredConcat(a, b[..n]);
    }
  }

  /** The foreign keys of rows `a..b` are a slice of the pool. */
  lemma DeclaredSlice(rows: seq<Row>, a: nat, b: nat)
    requires a <= b <= |rows|
    ensures FkPos(rows, a) <= FkPos(rows, b) <= |Declared(rows)|
    ensures Declared(rows)[FkPos(rows, a)..FkPos(rows, b)] == Declared(rows[a..b])
  {
    DeclaredSplit(rows, b);
    DeclaredSplit(rows[..b], a);
    hide Declared;
    assert rows[..b][..a] == rows[..a] && rows[..b][a..] == rows[a..b];
    MiddleSlice(Declared(rows[..a]), Declared(rows[a..b]), Declared(rows[b..]));
  }

  lemma DeclaredSplit(rows: seq<Row>, k: nat)
    requires k <= |rows|
    ensures Declared(rows) == Declared(rows[..k]) + Declared(rows[k..])
  {
    assert rows == rows[..k] + rows[k..];
    DeclaredConcat(rows[..k], rows[k..]);
  }

  lemma MiddleSlice<T>(x: seq<T>, y: seq<T>, z: seq<T>)
    ensures (x + y + z)[|x|..|x + y|] == y
  {
  }

  // ----- distinct names

  /** Rows of one table arrive together. */
  ghost predicate Grouped(rows: seq<Row>) {
    forall i, j, k | 0 <= i < j < k < |rows| :: rows[i].table == rows[k].table ==> rows[j].table == rows[i].table
  }

  ghost predicate DistinctNames(ts: seq<TableMeta>) {
    forall i, j | 0 <= i < j < |ts| :: ts[i].name != ts[j].name
  }

  lemma {:induction false} TablesAscend(ts: seq<TableMeta>, rows: seq<Row>, i: nat, j: nat)
    requires TablesOk(ts, rows) && i < j < |ts|
    ensures ColumnsEnd(ts[i]) <= ts[j].columnsStart
    decreases j
  {
    if i < j - 1 {
      TablesAscend(ts, rows, i, j - 1);
      assert TableOk(ts[j - 1], rows);
    }
  }

  lemma GroupedDistinct(ts: seq<TableMeta>, rows: seq<Row>)
    requires TablesOk(ts, rows) && Grouped(rows)
    ensures DistinctNames(ts)
  {
    forall i, j | 0 <= i < j < |ts| ensures ts[i].name != ts[j].name {
      if j > i + 1 {
        TablesAscend(ts, rows, i, j);
        TablesAscend(ts, rows, i + 1, j);
        assert TableOk(ts[i], rows) && TableOk(ts[i + 1], rows) && TableOk(ts[j], rows);
        var a, b, c := ts[i].columnsStart, ts[i + 1].columnsStart, ts[j].columnsStart;
        assert rows[a].table == ts[i].name && rows[b].table == ts[i + 1].name && rows[c].table == ts[j].name;
      }
    }
  }
}
