/**
  What the columns of a built schema hold: type, default, flags, checks and foreign
  keys are those of their rows, and the key column of a table is the last that its
  rows name.
 */
module SchemaColumns {
  import opened Symbols
  import opened SchemaTypes
  import opened SchemaRows
  import opened TopoSort
  import opened NameIndex
  import opened Resolution
  import opened Compaction
  import opened SchemaBuild
  import opened SchemaTheorems

  /** The column says what the row says, and its range of the check pool holds the row's checks. */
  ghost predicate Carries(s: Tables, c: Column, r: Row) {
    && c.name == r.column && c.dataType == r.dataType && c.defaultValue == r.defaultValue
    && (c.flags % 2 == 1 <==> r.nullable) && (c.flags / 2 % 2 == 1 <==> r.primary)
    && (c.flags / 4 % 2 == 1 <==> r.unique) && c.flags < 8
    && c.constraints.start + c.constraints.len <= |s.constraintPool|
    && s.constraintPool[c.constraints.start..c.constraints.start + c.constraints.len] == r.checks
  }

  lemma {:induction false} ChecksSlice(rows: seq<Row>, k: nat)
    requires k < |rows|
    ensures CheckPos(rows, k) + |rows[k].checks| <= |Checks(rows)|
    ensures Checks(rows)[CheckPos(rows, k)..CheckPos(rows, k) + |rows[k].checks|] == rows[k].checks
    decreases |rows|
  {
    var n := |rows| - 1;
    assert rows[..n][..if k < n then k else n] == rows[..k];
    if k < n { ChecksSlice(rows[..n], k); }
  }

  /** Every built column carries its row. */
  lemma ColumnExact(s: Tables, o: Origin, k: nat)
    requires Built(s, o) && k < |s.columns|
    ensures k < |o.rows| && Carries(s, s.columns[k], o.rows[k])
  {
    hide Built, Flags, Checks, Shrunk, FkPos;
    BuiltColumn(s, o, k);
    BuiltChecks(s, o);
    ChecksSlice(o.rows, k);
    FlagBits(o.rows[k].nullable, o.rows[k].primary, o.rows[k].unique);
  }

  lemma BuiltChecks(s: Tables, o: Origin)
    requires Built(s, o)
    ensures s.constraintPool == Checks(o.rows)
  {
    hide GraphOf, TableOrdered, FinalFks, TablesOk, FksOk, Checks, Inverse, DistinctNames, ByNameOk, MovedTable,
         MovedColumn;
  }

  lemma FlagBits(nullable: bool, primary: bool, unique: bool)
    ensures var f := Flags(nullable, primary, unique);
            f < 8 && (f % 2 == 1 <==> nullable) && (f / 2 % 2 == 1 <==> primary) && (f / 4 % 2 == 1 <==> unique)
  {
  }

  /** The table's key column is the last of its rows that is primary, if any is. */
  ghost predicate LastKey(t: TableMeta, rows: seq<Row>) {
    && ColumnsEnd(t) <= |rows|
    && match t.primaryKey
       case None => forall k | t.columnsStart <= k < ColumnsEnd(t) :: !rows[k].primary
       case Some(c) =>
         && c < t.columnsLen && rows[t.columnsStart + c].primary
         && forall k | t.columnsStart + c < k < ColumnsEnd(t) :: !rows[k].primary
  }

  lemma {:induction false} LastPrimaryIs(rows: seq<Row>)
    ensures match LastPrimary(rows)
            case None => forall d | 0 <= d < |rows| :: !rows[d].primary
            case Some(c) => c < |rows| && rows[c].primary && forall d | c < d < |rows| :: !rows[d].primary
  {
    if rows != [] && !rows[|rows| - 1].primary { LastPrimaryIs(rows[..|rows| - 1]); }
  }

  lemma PrimaryExact(s: Tables, o: Origin, i: nat)
    requires Built(s, o) && i < |s.tables|
    ensures LastKey(s.tables[i], o.rows)
  {
    hide Built, FksOk, GraphOf, TableOrdered, FinalFks, LastPrimary, FkPos;
    BuiltTable(s, o, i);
    Shapes(s, o, i);
    var t := s.tables[i];
    var rows := o.rows[t.columnsStart..ColumnsEnd(t)];
    LastPrimaryIs(rows);
    forall k | t.columnsStart <= k < ColumnsEnd(t) ensures o.rows[k] == rows[k - t.columnsStart] {}
  }

  // ----- foreign keys

  /** The kept key names the first column of its target that has the name, and is declared as such. */
  ghost predicate KeptAs(s: Tables, fk: RawForeignKey, f: ForeignKey) {
    && HasTarget(s, fk, f.table, f.column)
    && (forall c: nat | c < f.column :: !HasTarget(s, fk, f.table, c))
    && f.constraintName == fk.constraintName && f.namespace == fk.namespace
    && f.onUpdate == fk.onUpdate && f.onDelete == fk.onDelete
  }

  /** `at` are the positions of the keys that lead somewhere, in order, and `found` is what became of them. */
  ghost predicate KeptAt(s: Tables, fks: seq<RawForeignKey>, found: seq<ForeignKey>, at: seq<nat>) {
    && |at| == |found|
    && (forall q | 0 <= q < |at| :: at[q] < |fks| && KeptAs(s, fks[at[q]], found[q]))
    && (forall p, q | 0 <= p < q < |at| :: at[p] < at[q])
    && (forall p: nat | p < |fks| && p !in at :: forall t: nat, c: nat :: !HasTarget(s, fks[p], t, c))
  }

  lemma FirstColumn(s: Tables, o: Origin, fk: RawForeignKey)
    requires Built(s, o) && |o.place| == |o.raw.tables| && FinalFk(o.raw, o.place, fk).Some?
    ensures KeptAs(s, fk, FinalFk(o.raw, o.place, fk).value)
  {
    hide Built, FinalFk, HasTarget;
    KeptNamesTarget(s, o, fk);
    FirstOfName(s, o, fk);
  }

  lemma FirstOfName(s: Tables, o: Origin, fk: RawForeignKey)
    requires Built(s, o) && |o.place| == |o.raw.tables| && FinalFk(o.raw, o.place, fk).Some?
    ensures var f := FinalFk(o.raw, o.place, fk).value; forall c: nat | c < f.column :: !HasTarget(s, fk, f.table, c)
  {
    hide Built, RawOk, TablesOk, GraphOf, TableOrdered, FinalFks, ResolveAll, DistinctNames, Inverse, Distinct, Bounded,
         TargetOf;
    BuiltFacts(s, o);
    var target := TargetOf(o.raw.tables, o.raw.columnNames, fk.refTable, fk.refColumn).value;
    TargetFirst(o.raw.tables, o.raw.columnNames, fk.refTable, fk.refColumn);
    PlaceOf(s, o, target.table);
    Shapes(s, o, o.place[target.table]);
  }

  lemma TargetFirst(ts: seq<TableMeta>, columnNames: seq<Symbol>, refTable: Symbol, refColumn: Symbol)
    requires TargetOf(ts, columnNames, refTable, refColumn).Some?
    ensures var target := TargetOf(ts, columnNames, refTable, refColumn).value;
            && target.table < |ts| && ts[target.table].columnsStart + target.column < |columnNames|
            && forall k | ts[target.table].columnsStart <= k < ts[target.table].columnsStart + target.column ::
                 columnNames[k] != refColumn
  {
    var target := TargetOf(ts, columnNames, refTable, refColumn).value;
    var t := ts[target.table];
    var names := columnNames[t.columnsStart..ColumnsEnd(t)];
    forall k | t.columnsStart <= k < t.columnsStart + target.column ensures columnNames[k] != refColumn {
      assert names[k - t.columnsStart] == columnNames[k];
    }
  }

  lemma {:induction false} KeysKept(s: Tables, o: Origin, fks: seq<RawForeignKey>) returns (at: seq<nat>)
    requires Built(s, o) && |o.place| == |o.raw.tables|
    ensures KeptAt(s, fks, FinalFks(o.raw, o.place, fks), at)
  {
    hide Built, FinalFk, KeptAt;
    if fks == [] {
      at := [];
      NoneKept(s);
      assert FinalFks(o.raw, o.place, fks) == [];
    } else {
      var n := |fks| - 1;
      assert fks == fks[..n] + [fks[n]];
      at := KeysKept(s, o, fks[..n]);
      var found := FinalFks(o.raw, o.place, fks[..n]);
      if FinalFk(o.raw, o.place, fks[n]).Some? {
        FirstColumn(s, o, fks[n]);
        OneKept(s, fks[..n], fks[n], found, at, FinalFk(o.raw, o.place, fks[n]).value);
        at := at + [n];
        assert FinalFks(o.raw, o.place, fks) == found + [FinalFk(o.raw, o.place, fks[n]).value];
      } else {
        forall t: nat, c: nat ensures !HasTarget(s, fks[n], t, c) {
          if HasTarget(s, fks[n], t, c) { TargetKept(s, o, fks[n], t, c); }
        }
        OneDropped(s, fks[..n], fks[n], found, at);
        assert FinalFks(o.raw, o.place, fks) == found;
      }
    }
  }

  lemma NoneKept(s: Tables)
    ensures KeptAt(s, [], [], [])
  {
  }

  lemma OneKept(s: Tables, front: seq<RawForeignKey>, fk: RawForeignKey, found: seq<ForeignKey>, at: seq<nat>,
                f: ForeignKey)
    requires KeptAt(s, front, found, at) && KeptAs(s, fk, f)
    ensures KeptAt(s, front + [fk], found + [f], at + [|front|])
  {
    hide KeptAs, HasTarget;
    var fks, next := front + [fk], at + [|front|];
    assert next[|at|] == |front|;
    assert forall q | 0 <= q < |at| :: next[q] == at[q];
  }

  lemma OneDropped(s: Tables, front: seq<RawForeignKey>, fk: RawForeignKey, found: seq<ForeignKey>, at: seq<nat>)
    requires KeptAt(s, front, found, at) && forall t: nat, c: nat :: !HasTarget(s, fk, t, c)
    ensures KeptAt(s, front + [fk], found, at)
  {
    hide KeptAs, HasTarget;
  }

  /** A column's foreign keys are those of its row whose table and column exist, in order. */
  lemma ColumnKeys(s: Tables, o: Origin, k: nat) returns (at: seq<nat>)
    requires Built(s, o) && k < |s.columns|
    ensures k < |o.rows| && s.columns[k].foreignKeys.start + s.columns[k].foreignKeys.len <= |s.foreignKeyPool|
    ensures KeptAt(s, o.rows[k].fks, ColumnFks(s, k), at)
  {
    hide Built, FinalFks, KeptAt;
    ColumnFksExact(s, o, k);
    at := KeysKept(s, o, o.rows[k].fks);
  }

  /** A table's foreign keys are those of its rows, in order. */
  lemma TableKeys(s: Tables, o: Origin, i: nat) returns (at: seq<nat>)
    requires Built(s, o) && i < |s.tables|
    ensures s.tables[i].fkStart + s.tables[i].fkLen <= |s.foreignKeyPool| && ColumnsEnd(s.tables[i]) <= |o.rows|
    ensures KeptAt(s, Declared(o.rows[s.tables[i].columnsStart..ColumnsEnd(s.tables[i])]), TableFks(s, i), at)
  {
    hide Built, FinalFks, KeptAt, Declared;
    TableFksExact(s, o, i);
    at := KeysKept(s, o, Declared(o.rows[s.tables[i].columnsStart..ColumnsEnd(s.tables[i])]));
  }
}
