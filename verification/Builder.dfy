/**
  `DatabaseSchemaBuilder`: rows go in one by one, the table under construction is
  closed when the next row names another table.
 */
module Builder {
  import opened Bytes
  import opened Symbols
  import opened SchemaTypes
  import opened SchemaRows

  /** The casts of the source. */
  function Cast16(n: nat): (r: nat)
    ensures n < U16_SIZE ==> r == n
  {
    n % U16_SIZE
  }

  function Cast32(n: nat): (r: nat)
    ensures n < U32_SIZE ==> r == n
  {
    n % U32_SIZE
  }

  /** Foreign keys already stored stay with their tables when a row arrives. */
  lemma UnresolvedGrow(ts: seq<TableMeta>, rows: seq<Row>, r: Row, u: Unresolved, p: nat, fk: RawForeignKey)
    requires TablesOk(ts, rows) && UnresolvedOk(u, p, fk, ts)
    ensures UnresolvedOk(u, p, fk, NextTables(ts, rows, r))
  {
    hide TableOk, LastPrimary, Declared;
    var next, i := NextTables(ts, rows, r), u.sourceTable;
    if i < |ts| - 1 || ts[|ts| - 1].name != r.table {
      assert next[i] == ts[i];
    } else {
      assert next[i].fkStart == ts[i].fkStart && next[i].fkLen == ts[i].fkLen + |r.fks|;
    }
  }

  lemma UnresolvedNew(ts: seq<TableMeta>, rows: seq<Row>, r: Row, u: Unresolved, j: nat)
    requires TablesOk(ts, rows) && j < |r.fks|
    requires u == Unresolved(|Declared(rows)| + j, |NextTables(ts, rows, r)| - 1, r.fks[j].refTable, r.fks[j].refColumn)
    ensures UnresolvedOk(u, |Declared(rows)| + j, r.fks[j], NextTables(ts, rows, r))
  {
    PositionsAgree(rows, r, |rows|);
    if ts != [] { assert TableOk(ts[|ts| - 1], rows); }
  }

  function NewColumn(raw: Raw, r: Row): Column {
    Column(r.column, r.dataType, r.defaultValue, Flags(r.nullable, r.primary, r.unique),
           PoolRange(|raw.constraintPool|, |r.checks|), PoolRange(|raw.fkPool|, |r.fks|))
  }

  function NewUnresolved(first: nat, source: nat, fks: seq<RawForeignKey>): seq<Unresolved> {
    seq(|fks|, j requires 0 <= j < |fks| => Unresolved(first + j, source, fks[j].refTable, fks[j].refColumn))
  }

  function Blanks(fks: seq<RawForeignKey>): seq<ForeignKey> {
    seq(|fks|, j requires 0 <= j < |fks| => Blank(fks[j]))
  }

  /** What one row adds to the builder's vectors. */
  function NextRaw(raw: Raw, rows: seq<Row>, r: Row): Raw {
    var tables := NextTables(raw.tables, rows, r);
    Raw(tables, raw.columns + [NewColumn(raw, r)], raw.columnNames + [r.column],
        raw.constraintPool + r.checks, raw.fkPool + Blanks(r.fks),
        raw.unresolved + NewUnresolved(|raw.fkPool|, if |tables| == 0 then 0 else |tables| - 1, r.fks))
  }

  lemma ColumnsGrow(raw: Raw, rows: seq<Row>, r: Row)
    requires RawOk(raw, rows)
    ensures ColumnsOk(NextRaw(raw, rows, r), rows + [r])
  {
    hide TablesOk, NextTables, Flags;
    var next, rows' := NextRaw(raw, rows, r), rows + [r];
    PositionsAgree(rows, r, |rows|);
    forall k | 0 <= k < |rows'|
      ensures next.columns[k] == ColumnOf(rows', k) && next.columnNames[k] == rows'[k].column
    {
      ColumnsAgree(rows, r, k);
      if k < |rows| { assert raw.columns[k] == ColumnOf(rows, k); }
    }
  }

  lemma FksGrow(raw: Raw, rows: seq<Row>, r: Row)
    requires RawOk(raw, rows)
    ensures FksOk(NextRaw(raw, rows, r), rows + [r])
  {
    hide TablesOk, ColumnsOk, UnresolvedOk, NextTables, NewColumn;
    var next, rows' := NextRaw(raw, rows, r), rows + [r];
    PositionsAgree(rows, r, |rows|);
    NextTablesNonEmpty(raw.tables, rows, r);
    forall p | 0 <= p < |next.unresolved|
      ensures next.fkPool[p] == Blank(Declared(rows')[p])
      ensures UnresolvedOk(next.unresolved[p], p, Declared(rows')[p], next.tables)
    {
      if p < |raw.unresolved| {
        assert UnresolvedOk(raw.unresolved[p], p, Declared(rows)[p], raw.tables);
        UnresolvedGrow(raw.tables, rows, r, raw.unresolved[p], p, Declared(rows)[p]);
      } else {
        UnresolvedNew(raw.tables, rows, r, next.unresolved[p], p - |raw.unresolved|);
      }
    }
  }

  lemma NextTablesNonEmpty(ts: seq<TableMeta>, rows: seq<Row>, r: Row)
    ensures |NextTables(ts, rows, r)| > 0
  {
  }

  /** The builder's vectors describe the rows seen so far, whatever rows those are. */
  lemma RawGrows(raw: Raw, rows: seq<Row>, r: Row)
    requires RawOk(raw, rows)
    ensures RawOk(NextRaw(raw, rows, r), rows + [r])
  {
    TablesGrow(raw.tables, rows, r);
    ColumnsGrow(raw, rows, r);
    FksGrow(raw, rows, r);
  }

  lemma WidthsGrow(raw: Raw, rows: seq<Row>, r: Row)
    requires Widths(raw) && |r.checks| < U16_SIZE && |r.fks| < U16_SIZE
    requires |raw.columns| + 1 < U32_SIZE && |raw.constraintPool| + |r.checks| < U32_SIZE
             && |raw.fkPool| + |r.fks| < U32_SIZE
    requires raw.tables != [] && raw.tables[|raw.tables| - 1].name == r.table ==>
               var t := raw.tables[|raw.tables| - 1]; t.columnsLen + 1 < U16_SIZE && t.fkLen + |r.fks| < U16_SIZE
    ensures Widths(NextRaw(raw, rows, r))
  {
  }

  lemma RawCounts(raw: Raw, rows: seq<Row>)
    requires RawOk(raw, rows)
    ensures |raw.columns| == |rows| && |raw.fkPool| == |Declared(rows)|
  {
  }

  /** The finished tables and the one under construction, if any. */
  function WithOpen(tables: seq<TableMeta>, open: Option<Symbol>, start: nat, columns: nat, pk: Option<nat>,
                    fkStart: nat, fks: nat): seq<TableMeta>
    requires start <= columns && fkStart <= fks
  {
    match open
    case None => tables
    case Some(name) => tables + [TableMeta(name, start, columns - start, pk, fkStart, fks - fkStart)]
  }

  lemma OpenLast(tables: seq<TableMeta>, open: Option<Symbol>, start: nat, columns: nat, pk: Option<nat>,
                 fkStart: nat, fks: nat)
    requires start <= columns && fkStart <= fks && (open.None? ==> tables == [])
    ensures var all := WithOpen(tables, open, start, columns, pk, fkStart, fks);
            && (all == [] <==> open.None?)
            && (open.Some? ==> |all| == |tables| + 1 && all[|all| - 1].name == open.value
                               && all[|all| - 1].columnsLen == columns - start && all[|all| - 1].fkLen == fks - fkStart)
  {
  }

  /** A further row of the open table extends it. */
  lemma SameTable(tables: seq<TableMeta>, rows: seq<Row>, r: Row, start: nat, columns: nat, pk: Option<nat>,
                  fkStart: nat, fks: nat)
    requires start <= columns && fkStart <= fks
    ensures WithOpen(tables, Some(r.table), start, columns + 1, if r.primary then Some(columns - start) else pk,
                     fkStart, fks + |r.fks|)
         == NextTables(WithOpen(tables, Some(r.table), start, columns, pk, fkStart, fks), rows, r)
  {
  }

  /** A row of another table starts one. */
  lemma OtherTable(before: seq<TableMeta>, rows: seq<Row>, r: Row)
    requires before != [] ==> before[|before| - 1].name != r.table
    ensures WithOpen(before, Some(r.table), |rows|, |rows| + 1, if r.primary then Some(0) else None,
                     |Declared(rows)|, |Declared(rows)| + |r.fks|)
         == NextTables(before, rows, r)
  {
  }

  class SchemaBuilder {
    var tables: seq<TableMeta>
    var columns: seq<Column>
    var columnNames: seq<Symbol>
    var constraintPool: seq<Symbol>
    var fkPool: seq<ForeignKey>
    var unresolved: seq<Unresolved>
    var currentTable: Option<Symbol>
    var currentColumns: nat
    var currentFks: nat
    var currentPk: Option<nat>
    ghost var rows: seq<Row>

    /** The finished tables and the one under construction. */
    ghost function AllTables(): seq<TableMeta>
      reads this
      requires currentColumns <= |columns| && currentFks <= |fkPool|
    {
      WithOpen(tables, currentTable, currentColumns, |columns|, currentPk, currentFks, |fkPool|)
    }

    ghost function Collected(): Raw
      reads this
      requires currentColumns <= |columns| && currentFks <= |fkPool|
    {
      Raw(AllTables(), columns, columnNames, constraintPool, fkPool, unresolved)
    }

    /** The vectors describe the rows, and no count of the open table exceeds its width. */
    ghost predicate Valid()
      reads this
    {
      && currentColumns <= |columns| < U32_SIZE && currentFks <= |fkPool| < U32_SIZE && |constraintPool| < U32_SIZE
      && |columns| - currentColumns < U16_SIZE && |fkPool| - currentFks < U16_SIZE
      && (currentTable.None? ==> tables == [] && rows == [])
      && RawOk(Collected(), rows) && Widths(Collected())
    }

    constructor ()
      ensures Valid() && rows == []
    {
      tables, columns, columnNames, constraintPool, fkPool, unresolved := [], [], [], [], [], [];
      currentTable, currentColumns, currentFks, currentPk := None, 0, 0, None;
      rows := [];
    }

    /** `finish_table`. */
    method FinishTable()
      requires Valid()
      modifies this`tables
      ensures tables == old(AllTables())
    {
      hide RawOk, Widths, Cast16;
      if currentTable.Some? {
        tables := tables + [TableMeta(currentTable.value, currentColumns, Cast16(|columns| - currentColumns),
                                      currentPk, currentFks, Cast16(|fkPool| - currentFks))];
      }
    }

    /** `add_row`; the requirements keep every cast of the source within its width. */
    method AddRow(r: Row)
      requires Valid()
      requires |r.checks| < U16_SIZE && |r.fks| < U16_SIZE
      requires |columns| + 1 < U32_SIZE && |constraintPool| + |r.checks| < U32_SIZE && |fkPool| + |r.fks| < U32_SIZE
      requires currentTable == Some(r.table) ==>
                 |columns| + 1 - currentColumns < U16_SIZE && |fkPool| + |r.fks| - currentFks < U16_SIZE
      modifies this
      ensures Valid() && rows == old(rows) + [r]
      ensures Collected() == NextRaw(old(Collected()), old(rows), r)
    {
      hide RawOk, Widths, Flags, WithOpen, NextTables, Declared, NewUnresolved;
      ghost var before, raw := AllTables(), Collected();
      RawCounts(raw, rows);
      OpenLast(tables, currentTable, currentColumns, |columns|, currentPk, currentFks, |fkPool|);
      OpenTable(r);
      AddColumn(r);
      ghost var seen := rows;
      rows := rows + [r];
      if old(currentTable) == Some(r.table) {
        SameTable(old(tables), seen, r, old(currentColumns), |old(columns)|, old(currentPk), old(currentFks),
                  |old(fkPool)|);
      } else {
        OtherTable(before, seen, r);
      }
      OpenLast(tables, currentTable, currentColumns, |columns|, currentPk, currentFks, |fkPool|);
      assert Collected() == NextRaw(raw, seen, r);
      RawGrows(raw, seen, r);
      WidthsGrow(raw, seen, r);
    }

    /** The rest of `add_row`: the row's checks, foreign keys and column. */
    method AddColumn(r: Row)
      requires |r.checks| < U16_SIZE && |r.fks| < U16_SIZE
      requires |constraintPool| + |r.checks| < U32_SIZE && |fkPool| + |r.fks| < U32_SIZE
      modifies this`constraintPool, this`fkPool, this`unresolved, this`columns, this`columnNames
      ensures constraintPool == old(constraintPool) + r.checks
      ensures fkPool == old(fkPool) + Blanks(r.fks)
      ensures unresolved == old(unresolved) + NewUnresolved(|old(fkPool)|, |tables|, r.fks)
      ensures columnNames == old(columnNames) + [r.column]
      ensures columns == old(columns)
                         + [Column(r.column, r.dataType, r.defaultValue, Flags(r.nullable, r.primary, r.unique),
                                   PoolRange(|old(constraintPool)|, |r.checks|), PoolRange(|old(fkPool)|, |r.fks|))]
    {
      hide Flags, Cast16, Cast32;
      var constraintsStart := Cast32(|constraintPool|);
      AddChecks(r.checks);
      var fksStart := Cast32(|fkPool|);
      AddForeignKeys(r.fks);
      columns := columns + [Column(r.column, r.dataType, r.defaultValue, Flags(r.nullable, r.primary, r.unique),
                                   PoolRange(constraintsStart, Cast16(|constraintPool| - constraintsStart)),
                                   PoolRange(fksStart, Cast16(|fkPool| - fksStart)))];
      columnNames := columnNames + [r.column];
    }

    /** The head of `add_row`: close the open table if the row names another, and note a primary key. */
    method OpenTable(r: Row)
      requires Valid()
      requires currentTable == Some(r.table) ==> |columns| + 1 - currentColumns < U16_SIZE
      modifies this`tables, this`currentTable, this`currentColumns, this`currentFks, this`currentPk
      ensures currentTable == Some(r.table)
      ensures if old(currentTable) == Some(r.table)
              then tables == old(tables) && currentColumns == old(currentColumns) && currentFks == old(currentFks)
              else tables == old(AllTables()) && currentColumns == |columns| && currentFks == |fkPool|
      ensures currentPk == if r.primary then Some(|columns| - currentColumns)
                           else if old(currentTable) == Some(r.table) then old(currentPk) else None
    {
      hide RawOk, Widths, Cast16, Cast32;
      if Some(r.table) != currentTable {
        FinishTable();
        currentTable := Some(r.table);
        currentColumns := Cast32(|columns|);
        currentFks := Cast32(|fkPool|);
        currentPk := None;
      }
      if r.primary {
        currentPk := Some(Cast16(|columns| - currentColumns));
      }
    }

    method AddChecks(checks: seq<Symbol>)
      modifies this`constraintPool
      ensures constraintPool == old(constraintPool) + checks
    {
      for i := 0 to |checks|
        invariant constraintPool == old(constraintPool) + checks[..i]
      {
        constraintPool := constraintPool + [checks[i]];
      }
      assert checks[..|checks|] == checks;
    }

    method AddForeignKeys(fks: seq<RawForeignKey>)
      modifies this`fkPool, this`unresolved
      ensures fkPool == old(fkPool) + Blanks(fks)
      ensures unresolved == old(unresolved) + NewUnresolved(|old(fkPool)|, |tables|, fks)
    {
      ghost var all := NewUnresolved(|old(fkPool)|, |tables|, fks);
      for i := 0 to |fks|
        invariant fkPool == old(fkPool) + Blanks(fks)[..i]
        invariant unresolved == old(unresolved) + all[..i]
      {
        var poolIndex := |fkPool|;
        fkPool := fkPool + [Blank(fks[i])];
        unresolved := unresolved + [Unresolved(poolIndex, |tables|, fks[i].refTable, fks[i].refColumn)];
      }
      assert Blanks(fks)[..|fks|] == Blanks(fks) && all[..|fks|] == all;
    }
  }
}
