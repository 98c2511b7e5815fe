/**
  The database schema as data: tables, columns, foreign keys and the pools they
  point into.
 */
module SchemaTypes {
  import opened Bytes
  import opened Symbols

  datatype Action = NoAction | Cascade | SetNull | SetDefault | Restrict

  datatype ValueType =
    | Null | Bool | Int | Float | Decimal | Text | Blob | Json | Uuid
    | Timestamp | TimestampTz | Date | Time | TimeTz
    | Custom(name: Symbol)
    | BoolArray | IntArray | FloatArray | DecimalArray | TextArray

  /** A foreign key; `table` is a table's index and `column` a position in that table. */
  datatype ForeignKey = ForeignKey(
    constraintName: Symbol, namespace: Symbol, table: nat, column: nat, onUpdate: Action, onDelete: Action)

  datatype PoolRange = PoolRange(start: nat, len: nat)

  /** The flags byte: nullable 1, primary key 2, unique 4. */
  function Flags(nullable: bool, primary: bool, unique: bool): (f: nat)
    ensures f < 256
  {
    (if nullable then 1 else 0) + (if primary then 2 else 0) + (if unique then 4 else 0)
  }

  datatype Column = Column(
    name: Symbol, dataType: ValueType, defaultValue: Option<Symbol>, flags: nat,
    constraints: PoolRange, foreignKeys: PoolRange)

  datatype TableMeta = TableMeta(
    name: Symbol, columnsStart: nat, columnsLen: nat, primaryKey: Option<nat>, fkStart: nat, fkLen: nat)

  function ColumnsEnd(t: TableMeta): nat { t.columnsStart + t.columnsLen }

  datatype Tables = Tables(
    tables: seq<TableMeta>,
    byName: seq<nat>,
    columns: seq<Column>,
    columnNames: seq<Symbol>,
    constraintPool: seq<Symbol>,
    foreignKeyPool: seq<ForeignKey>)

  /** `TableRef::foreign_keys` and `ColumnRef::foreign_keys`. */
  function TableFks(s: Tables, t: nat): seq<ForeignKey>
    requires t < |s.tables| && s.tables[t].fkStart + s.tables[t].fkLen <= |s.foreignKeyPool|
  {
    s.foreignKeyPool[s.tables[t].fkStart..s.tables[t].fkStart + s.tables[t].fkLen]
  }

  function ColumnFks(s: Tables, c: nat): seq<ForeignKey>
    requires c < |s.columns|
    requires s.columns[c].foreignKeys.start + s.columns[c].foreignKeys.len <= |s.foreignKeyPool|
  {
    s.foreignKeyPool[s.columns[c].foreignKeys.start..s.columns[c].foreignKeys.start + s.columns[c].foreignKeys.len]
  }
}
