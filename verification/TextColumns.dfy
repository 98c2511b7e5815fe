/**
  What a schema built from rows of texts holds, in texts: every column's type, default,
  flags and checks, the key columns, and where each foreign key leads.
 */
module TextColumns {
  import opened Bytes
  import opened Records
  import opened Symbols
  import opened InternerModel
  import opened SchemaTypes
  import opened SchemaRows
  import opened SchemaBuild
  import opened SchemaTheorems
  import opened SchemaColumns
  import opened SchemaCodec
  import opened EndToEnd
  import opened TextRows

  // ----- rows of symbols and rows of texts

  ghost predicate Reads(shards: Shards, symbol: Symbol, text: Str) { Resolve(shards, symbol) == Some(text) }

  ghost predicate ReadsType(shards: Shards, t: ValueType, text: TextType) {
    match text
    case Tagged(tag) => t == tag
    case Named(name) => t.Custom? && Reads(shards, t.name, name)
  }

  ghost predicate ReadsDefault(shards: Shards, d: Option<Symbol>, text: Option<Str>) {
    match text case None => d == None case Some(v) => d.Some? && Reads(shards, d.value, v)
  }

  ghost predicate ReadsAll(shards: Shards, symbols: seq<Symbol>, texts: seq<Str>) {
    |symbols| == |texts| && forall i | 0 <= i < |texts| :: Reads(shards, symbols[i], texts[i])
  }

  ghost predicate ReadsKey(shards: Shards, fk: RawForeignKey, k: TextKey) {
    && Reads(shards, fk.constraintName, k.constraintName) && Reads(shards, fk.namespace, k.namespace)
    && Reads(shards, fk.refTable, k.refTable) && Reads(shards, fk.refColumn, k.refColumn)
    && fk.onUpdate == k.onUpdate && fk.onDelete == k.onDelete
  }

  /** The row of symbols is the row of texts. */
  ghost predicate ReadsRow(shards: Shards, r: Row, t: TextRow) {
    && Reads(shards, r.table, t.table) && Reads(shards, r.column, t.column)
    && ReadsType(shards, r.dataType, t.dataType) && ReadsDefault(shards, r.defaultValue, t.defaultValue)
    && r.nullable == t.nullable && r.primary == t.primary && r.unique == t.unique
    && ReadsAll(shards, r.checks, t.checks)
    && |r.fks| == |t.fks| && forall i | 0 <= i < |t.fks| :: ReadsKey(shards, r.fks[i], t.fks[i])
  }

  lemma KeyReads(cfg: Config, shards: Shards, r: TextRow, i: nat)
    requires WellFormed(cfg, shards) && Interned(cfg, shards, r) && i < |r.fks|
    ensures ReadsKey(shards, KeyOf(cfg, shards, r.fks[i]), r.fks[i])
  {
    WellFormedShape(cfg, shards);
    hide Get, WellFormed, SymbolOf, KeyTexts, Resolve, Configured;
    KeyTextsHas(r.fks, i);
    var fk, texts := r.fks[i], KeyTexts(r.fks);
    forall v | v in {fk.constraintName, fk.namespace, fk.refTable, fk.refColumn}
      ensures Reads(shards, SymbolOf(cfg, shards, v), v)
    {
      assert v in texts;
      assert v in RowTexts(r);
      SymbolIs(cfg, shards, v);
    }
  }

  /** The builder's rows read as the rows of texts. */
  lemma RowReads(cfg: Config, shards: Shards, texts: seq<TextRow>, rows: seq<Row>, k: nat)
    requires WellFormed(cfg, shards) && Meant(cfg, shards, texts, rows) && k < |texts|
    ensures k < |rows| && ReadsRow(shards, rows[k], texts[k])
  {
    hide Get, Resolve, Configured, WellFormed, SymbolOf, KeyOf, KeyTexts;
    var r := texts[k];
    var all := RowTexts(r);
    assert Interned(cfg, shards, r) && rows[k] == RowOf(cfg, shards, r);
    forall v | v in all ensures Reads(shards, SymbolOf(cfg, shards, v), v) { SymbolIs(cfg, shards, v); }
    assert r.table in all && r.column in all;
    assert r.dataType.Named? ==> r.dataType.name in all;
    assert r.defaultValue.Some? ==> r.defaultValue.value in all;
    forall i | 0 <= i < |r.checks| ensures r.checks[i] in all {}
    hide RowTexts, Reads;
    forall i | 0 <= i < |r.fks| ensures ReadsKey(shards, rows[k].fks[i], r.fks[i]) { KeyReads(cfg, shards, r, i); }
  }

  // ----- columns

  /** The column, read: name, type, default, flags, and its range of the check pool. */
  ghost predicate Tells(shards: Shards, s: Tables, c: Column, t: TextRow) {
    && Reads(shards, c.name, t.column)
    && ReadsType(shards, c.dataType, t.dataType) && ReadsDefault(shards, c.defaultValue, t.defaultValue)
    && (c.flags % 2 == 1 <==> t.nullable) && (c.flags / 2 % 2 == 1 <==> t.primary)
    && (c.flags / 4 % 2 == 1 <==> t.unique)
    && c.constraints.start + c.constraints.len <= |s.constraintPool|
    && ReadsAll(shards, s.constraintPool[c.constraints.start..c.constraints.start + c.constraints.len], t.checks)
  }

  // ----- foreign keys

  /** Some row is the table and the column that the key names. */
  ghost predicate Leads(texts: seq<TextRow>, k: TextKey) {
    exists j :: 0 <= j < |texts| && texts[j].table == k.refTable && texts[j].column == k.refColumn
  }

  /** The foreign key, followed to its table and column and read there. */
  ghost predicate Follows(shards: Shards, s: Tables, f: ForeignKey, k: TextKey) {
    && Reads(shards, f.constraintName, k.constraintName) && Reads(shards, f.namespace, k.namespace)
    && f.onUpdate == k.onUpdate && f.onDelete == k.onDelete
    && f.table < |s.tables| && Reads(shards, s.tables[f.table].name, k.refTable)
    && f.column < s.tables[f.table].columnsLen && s.tables[f.table].columnsStart + f.column < |s.columnNames|
    && Reads(shards, s.columnNames[s.tables[f.table].columnsStart + f.column], k.refColumn)
  }

  /** `at` are the positions of the keys that lead somewhere, and `found` follows them, in order. */
  ghost predicate Followed(shards: Shards, s: Tables, texts: seq<TextRow>, keys: seq<TextKey>, found: seq<ForeignKey>,
                           at: seq<nat>) {
    && |at| == |found|
    && (forall q | 0 <= q < |at| :: at[q] < |keys| && Follows(shards, s, found[q], keys[at[q]]))
    && (forall p, q | 0 <= p < q < |at| :: at[p] < at[q])
    && (forall p: nat | p < |keys| :: p in at <==> Leads(texts, keys[p]))
  }

  lemma KeepsFollows(shards: Shards, s: Tables, fk: RawForeignKey, k: TextKey, f: ForeignKey)
    requires KeptAs(s, fk, f) && ReadsKey(shards, fk, k)
    ensures Follows(shards, s, f, k)
  {
  }

  /** A key that was kept leads to a row. */
  lemma FollowsLeads(cfg: Config, shards: Shards, s: Tables, o: Origin, texts: seq<TextRow>, f: ForeignKey, k: TextKey)
    requires WellFormed(cfg, shards) && Meant(cfg, shards, texts, o.rows) && Built(s, o) && Follows(shards, s, f, k)
    ensures Leads(texts, k)
  {
    hide Get, WellFormed, Resolve, Built, Meant;
    var j := s.tables[f.table].columnsStart + f.column;
    MeantLength(cfg, shards, texts, o.rows);
    TableRow(s, o, f.table, j);
    ColumnNameIs(s, o, j);
    RowMeans(cfg, shards, texts, o.rows, j);
    assert texts[j].table == k.refTable && texts[j].column == k.refColumn;
  }

  /** A key that leads to a row has a target. */
  lemma LeadsTarget(cfg: Config, shards: Shards, s: Tables, o: Origin, texts: seq<TextRow>, fk: RawForeignKey,
                    k: TextKey)
    requires WellFormed(cfg, shards) && Meant(cfg, shards, texts, o.rows) && Built(s, o)
    requires ReadsKey(shards, fk, k) && Leads(texts, k)
    ensures exists t: nat, c: nat :: HasTarget(s, fk, t, c)
  {
    hide Get, WellFormed, Resolve, Built, Meant;
    var j :| 0 <= j < |texts| && texts[j].table == k.refTable && texts[j].column == k.refColumn;
    MeantLength(cfg, shards, texts, o.rows);
    var t := RowTable(s, o, j);
    ColumnNameIs(s, o, j);
    RowMeans(cfg, shards, texts, o.rows, j);
    ResolveThenGet(cfg, shards, k.refTable, fk.refTable);
    ResolveThenGet(cfg, shards, k.refTable, o.rows[j].table);
    ResolveThenGet(cfg, shards, k.refColumn, fk.refColumn);
    ResolveThenGet(cfg, shards, k.refColumn, o.rows[j].column);
    assert HasTarget(s, fk, t, j - s.tables[t].columnsStart);
  }

  lemma KeysFollow(cfg: Config, shards: Shards, s: Tables, o: Origin, texts: seq<TextRow>, fks: seq<RawForeignKey>,
                   keys: seq<TextKey>, found: seq<ForeignKey>, at: seq<nat>)
    requires WellFormed(cfg, shards) && Meant(cfg, shards, texts, o.rows) && Built(s, o)
    requires |fks| == |keys| && forall i | 0 <= i < |keys| :: ReadsKey(shards, fks[i], keys[i])
    requires KeptAt(s, fks, found, at)
    ensures Followed(shards, s, texts, keys, found, at)
  {
    hide WellFormed, Built, Meant, ReadsKey, KeptAs, HasTarget, Leads, Follows;
    forall q | 0 <= q < |at| ensures at[q] < |keys| && Follows(shards, s, found[q], keys[at[q]]) {
      KeepsFollows(shards, s, fks[at[q]], keys[at[q]], found[q]);
    }
    forall p: nat | p < |keys| ensures p in at <==> Leads(texts, keys[p]) {
      if p in at {
        var q :| 0 <= q < |at| && at[q] == p;
        FollowsLeads(cfg, shards, s, o, texts, found[q], keys[p]);
      } else if Leads(texts, keys[p]) {
        LeadsTarget(cfg, shards, s, o, texts, fks[p], keys[p]);
      }
    }
  }

  // ----- the schema

  /** Column `k` is row `k`, and its foreign keys are those of the row that lead somewhere. */
  ghost predicate HoldsRow(shards: Shards, s: Tables, texts: seq<TextRow>, k: nat)
    requires k < |texts| && k < |s.columns|
  {
    && Tells(shards, s, s.columns[k], texts[k])
    && s.columns[k].foreignKeys.start + s.columns[k].foreignKeys.len <= |s.foreignKeyPool|
    && exists at :: Followed(shards, s, texts, texts[k].fks, ColumnFks(s, k), at)
  }

  /** The table's key column is the last of its rows that is primary, if any is. */
  ghost predicate KeyColumn(t: TableMeta, texts: seq<TextRow>) {
    && ColumnsEnd(t) <= |texts|
    && match t.primaryKey
       case None => forall k | t.columnsStart <= k < ColumnsEnd(t) :: !texts[k].primary
       case Some(c) =>
         && c < t.columnsLen && texts[t.columnsStart + c].primary
         && forall k | t.columnsStart + c < k < ColumnsEnd(t) :: !texts[k].primary
  }

  /** Every row of texts is a column, and every table has its key. */
  ghost predicate HoldsAll(shards: Shards, s: Tables, texts: seq<TextRow>) {
    && |s.columns| == |texts|
    && (forall k | 0 <= k < |texts| :: HoldsRow(shards, s, texts, k))
    && (forall i | 0 <= i < |s.tables| :: KeyColumn(s.tables[i], texts))
  }

  lemma RowHeld(cfg: Config, shards: Shards, s: Tables, o: Origin, texts: seq<TextRow>, k: nat)
    requires WellFormed(cfg, shards) && Meant(cfg, shards, texts, o.rows) && Built(s, o)
    requires k < |texts| && k < |s.columns|
    ensures HoldsRow(shards, s, texts, k)
  {
    hide WellFormed, Built, Meant, ReadsKey, Followed, KeptAt, ReadsType, ReadsDefault, Reads;
    RowReads(cfg, shards, texts, o.rows, k);
    ColumnExact(s, o, k);
    var at := ColumnKeys(s, o, k);
    KeysFollow(cfg, shards, s, o, texts, o.rows[k].fks, texts[k].fks, ColumnFks(s, k), at);
  }

  /** A built schema holds the rows of texts that it was built from. */
  lemma BuiltHolds(cfg: Config, shards: Shards, s: Tables, o: Origin, texts: seq<TextRow>)
    requires WellFormed(cfg, shards) && Meant(cfg, shards, texts, o.rows) && Built(s, o)
    ensures HoldsAll(shards, s, texts)
  {
    hide WellFormed, Built, Meant, HoldsRow, ReadsRow;
    MeantLength(cfg, shards, texts, o.rows);
    assert |s.columns| == |o.rows| by { BuiltFacts(s, o); }
    forall k | 0 <= k < |texts| ensures HoldsRow(shards, s, texts, k) {
      RowHeld(cfg, shards, s, o, texts, k);
    }
    forall k | 0 <= k < |texts| ensures o.rows[k].primary == texts[k].primary {
      RowReads(cfg, shards, texts, o.rows, k);
      RowPrimary(shards, o.rows[k], texts[k]);
    }
    forall i | 0 <= i < |s.tables| ensures KeyColumn(s.tables[i], texts) { PrimaryExact(s, o, i); }
  }

  lemma RowPrimary(shards: Shards, r: Row, t: TextRow)
    requires ReadsRow(shards, r, t)
    ensures r.primary == t.primary
  {
  }

  /**
    From texts to bytes and back: rows of texts are interned in turn and built, the
    schema is encoded and decoded; the decoded schema answers every question for a
    table or a column by name as the rows of texts do, and holds every row's type,
    default, flags, checks and foreign keys.
   */
  lemma DecodedByName(m: bool, cfg: Config, texts: seq<TextRow>, schema: DatabaseSchema, o: Origin,
                      snapshot: seq<Byte>, behind: seq<Byte>, name: Str)
    requires Configured(cfg) && cfg == Standard(cfg.count, cfg.hash)
    requires GoodRows(texts) && AddAll(cfg, Empty(cfg.count), texts) == Some((schema.shards, o.rows))
    requires Built(schema.tables, o) && Widths(o.raw) && |o.raw.tables| < U16_SIZE
    requires |schema.hash| == HASH_SIZE && |snapshot| < U32_SIZE && IsSnapshot(snapshot, schema.shards)
    ensures var back := Decode(m, cfg.hash, Encode(schema, snapshot) + behind);
            && back.Parsed? && HoldsAll(back.value.shards, back.value.tables, texts)
            && AnswersTable(cfg, back.value, texts, name) && AnswersColumn(cfg, back.value, texts, name)
  {
    hide Get, WellFormed, Built, Meant, Keeps, GoodRows, Decode, Encode, AnswersTable, AnswersColumn, IsSnapshot,
         Widths, AddAll, HoldsAll;
    EmptyWellFormed(cfg);
    AddAllMeans(cfg, Empty(cfg.count), texts);
    KeepsEnds(cfg, Empty(cfg.count), schema.shards);
    BuiltRoundTrip(m, cfg, schema, o, snapshot, behind);
    BuiltHolds(cfg, schema.shards, schema.tables, o, texts);
    TableByName(cfg, schema, o, texts, name);
    ColumnsByName(cfg, schema, o, texts, name);
  }
}
