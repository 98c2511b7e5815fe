/**
  Rows as PostgreSQL gives them, with texts in place of symbols: `add_row` interns the
  texts of each row in turn and hands their symbols on. What is then asked for by name
  is found under that name, in the built schema and in the decoded one.
 */
module TextRows {
  import opened Bytes
  import opened Records
  import opened Symbols
  import opened InternerModel
  import opened SchemaTypes
  import opened SchemaRows
  import opened TopoSort
  import opened NameIndex
  import opened Resolution
  import opened SchemaBuild
  import opened SchemaTheorems
  import opened SchemaCodec
  import TruthTables

  datatype TextKey = TextKey(
    constraintName: Str, namespace: Str, refTable: Str, refColumn: Str, onUpdate: Action, onDelete: Action)

  /** A type that has a tag of its own, or any other, which is kept by its name. */
  datatype TextType = Tagged(tag: ValueType) | Named(name: Str)

  datatype TextRow = TextRow(
    table: Str, column: Str, dataType: TextType, nullable: bool, primary: bool, unique: bool,
    defaultValue: Option<Str>, fks: seq<TextKey>, checks: seq<Str>)

  // ----- interning in turn

  function KeyTexts(fks: seq<TextKey>): seq<Str> {
    if fks == [] then [] else
    var fk := fks[|fks| - 1];
    KeyTexts(fks[..|fks| - 1]) + [fk.constraintName, fk.namespace, fk.refTable, fk.refColumn]
  }

  /** The texts of a row in the order in which `add_row` interns them. */
  function RowTexts(r: TextRow): seq<Str> {
    [r.table, r.column] + r.checks + KeyTexts(r.fks)
    + (if r.dataType.Named? then [r.dataType.name] else [])
    + (match r.defaultValue case None => [] case Some(d) => [d])
  }

  /** Interning texts in turn; `None` is the panic of a full region or an index out of range. */
  function InternAll(cfg: Config, shards: Shards, vs: seq<Str>): (r: Option<Shards>)
    requires Configured(cfg) && |shards| == cfg.count
    ensures r.Some? ==> |r.value| == cfg.count
  {
    if vs == [] then Some(shards) else
    match InternAll(cfg, shards, vs[..|vs| - 1])
    case None => None
    case Some(before) => Intern(cfg, before, vs[|vs| - 1])
  }

  /** The symbol of an interned text. */
  function SymbolOf(cfg: Config, shards: Shards, v: Str): Symbol
    requires Configured(cfg) && |shards| == cfg.count
  {
    match Get(cfg, shards, v)
    case Some(n) => if 0 < n < U32_SIZE then n else 1
    case None => 1
  }

  function KeyOf(cfg: Config, shards: Shards, fk: TextKey): RawForeignKey
    requires Configured(cfg) && |shards| == cfg.count
  {
    RawForeignKey(SymbolOf(cfg, shards, fk.constraintName), SymbolOf(cfg, shards, fk.namespace),
                  SymbolOf(cfg, shards, fk.refTable), SymbolOf(cfg, shards, fk.refColumn), fk.onUpdate, fk.onDelete)
  }

  /** The row that the builder gets: every text by its symbol. */
  function RowOf(cfg: Config, shards: Shards, r: TextRow): Row
    requires Configured(cfg) && |shards| == cfg.count
  {
    Row(SymbolOf(cfg, shards, r.table), SymbolOf(cfg, shards, r.column),
        match r.dataType { case Tagged(tag) => tag case Named(name) => Custom(SymbolOf(cfg, shards, name)) },
        r.nullable, r.primary, r.unique,
        match r.defaultValue { case None => None case Some(d) => Some(SymbolOf(cfg, shards, d)) },
        seq(|r.fks|, i requires 0 <= i < |r.fks| => KeyOf(cfg, shards, r.fks[i])),
        seq(|r.checks|, i requires 0 <= i < |r.checks| => SymbolOf(cfg, shards, r.checks[i])))
  }

  /** All rows in turn: the interner that results, and the rows as the builder got them at the time. */
  function AddAll(cfg: Config, shards: Shards, texts: seq<TextRow>): (r: Option<(Shards, seq<Row>)>)
    requires Configured(cfg) && |shards| == cfg.count
    ensures r.Some? ==> |r.value.0| == cfg.count && |r.value.1| == |texts|
  {
    if texts == [] then Some((shards, [])) else
    var n := |texts| - 1;
    match AddAll(cfg, shards, texts[..n])
    case None => None
    case Some((before, rows)) =>
      match InternAll(cfg, before, RowTexts(texts[n]))
      case None => None
      case Some(after) => Some((after, rows + [RowOf(cfg, after, texts[n])]))
  }

  // ----- symbols stay

  /** Every text is valid and short enough to store. */
  ghost predicate GoodTexts(vs: seq<Str>) { forall v | v in vs :: ValidUtf8(v) && |v| < MAX_LEN }

  ghost predicate GoodRows(texts: seq<TextRow>) { forall k | 0 <= k < |texts| :: GoodTexts(RowTexts(texts[k])) }

  /** What has a symbol keeps it. */
  ghost predicate Keeps(cfg: Config, shards: Shards, shards': Shards) {
    && WellFormed(cfg, shards) && WellFormed(cfg, shards')
    && forall v | Get(cfg, shards, v).Some? :: Get(cfg, shards', v) == Get(cfg, shards, v)
  }

  lemma InternKeeps(cfg: Config, shards: Shards, v: Str)
    requires WellFormed(cfg, shards) && ValidUtf8(v) && |v| < MAX_LEN && Intern(cfg, shards, v).Some?
    ensures Keeps(cfg, shards, Intern(cfg, shards, v).value)
    ensures Get(cfg, Intern(cfg, shards, v).value, v).Some?
  {
    InternExtends(cfg, shards, v);
    var shards' := Intern(cfg, shards, v).value;
    forall w | Get(cfg, shards, w).Some? ensures Get(cfg, shards', w) == Get(cfg, shards, w) {
      if !IsStatic(w) {
        var s := ShardOf(cfg, w);
        var k := IndexIn(shards[s], w).value;
        assert shards[s] <= shards'[s] && ShardStrings(cfg, s, shards'[s]);
        DistinctIndex(shards'[s], w, k);
      }
    }
  }

  lemma {:induction false} InternAllKeeps(cfg: Config, shards: Shards, vs: seq<Str>)
    requires WellFormed(cfg, shards) && GoodTexts(vs) && InternAll(cfg, shards, vs).Some?
    ensures var shards' := InternAll(cfg, shards, vs).value;
            Keeps(cfg, shards, shards') && forall v | v in vs :: Get(cfg, shards', v).Some?
    decreases |vs|
  {
    hide Get, Intern, ValidUtf8, WellFormed;
    assert Configured(cfg) && |shards| == cfg.count by { WellFormedShape(cfg, shards); }
    if vs != [] {
      var n := |vs| - 1;
      var mid := InternAll(cfg, shards, vs[..n]).value;
      InternAllKeeps(cfg, shards, vs[..n]);
      assert vs[n] in vs;
      InternKeeps(cfg, mid, vs[n]);
      assert vs == vs[..n] + [vs[n]];
    }
  }

  lemma WellFormedShape(cfg: Config, shards: Shards)
    requires WellFormed(cfg, shards)
    ensures Configured(cfg) && |shards| == cfg.count
  {
  }

  /** Every text of the row has a symbol. */
  ghost predicate Interned(cfg: Config, shards: Shards, r: TextRow)
    requires Configured(cfg) && |shards| == cfg.count
  {
    forall v | v in RowTexts(r) :: Get(cfg, shards, v).Some?
  }

  lemma {:induction false} KeyTextsHas(fks: seq<TextKey>, i: nat)
    requires i < |fks|
    ensures var fk := fks[i];
            {fk.constraintName, fk.namespace, fk.refTable, fk.refColumn} <= set v | v in KeyTexts(fks)
    decreases |fks|
  {
    var n := |fks| - 1;
    if i < n { KeyTextsHas(fks[..n], i); }
  }

  lemma SymbolStays(cfg: Config, shards: Shards, shards': Shards, v: Str)
    requires Keeps(cfg, shards, shards') && Get(cfg, shards, v).Some?
    ensures Get(cfg, shards', v).Some? && SymbolOf(cfg, shards', v) == SymbolOf(cfg, shards, v)
  {
    hide Get, WellFormed;
  }

  lemma KeepsShape(cfg: Config, shards: Shards, shards': Shards)
    requires Keeps(cfg, shards, shards')
    ensures Configured(cfg) && |shards| == |shards'| == cfg.count
  {
  }

  lemma KeepsTrans(cfg: Config, a: Shards, b: Shards, c: Shards)
    requires Keeps(cfg, a, b) && Keeps(cfg, b, c)
    ensures Keeps(cfg, a, c)
  {
    hide Get, WellFormed;
    KeepsShape(cfg, a, b);
    KeepsShape(cfg, b, c);
  }

  lemma KeyStays(cfg: Config, shards: Shards, shards': Shards, r: TextRow, i: nat)
    requires Keeps(cfg, shards, shards') && Interned(cfg, shards, r) && i < |r.fks|
    ensures KeyOf(cfg, shards', r.fks[i]) == KeyOf(cfg, shards, r.fks[i])
  {
    hide Get, Keeps, SymbolOf, KeyTexts;
    KeepsShape(cfg, shards, shards');
    KeyTextsHas(r.fks, i);
    var fk, texts := r.fks[i], KeyTexts(r.fks);
    forall v | v in {fk.constraintName, fk.namespace, fk.refTable, fk.refColumn}
      ensures SymbolOf(cfg, shards', v) == SymbolOf(cfg, shards, v)
    {
      assert v in texts;
      assert v in RowTexts(r);
      SymbolStays(cfg, shards, shards', v);
    }
  }

  /** A row whose texts are interned is the same row in every later interner. */
  lemma RowStays(cfg: Config, shards: Shards, shards': Shards, r: TextRow)
    requires Keeps(cfg, shards, shards') && Interned(cfg, shards, r)
    ensures Interned(cfg, shards', r) && RowOf(cfg, shards', r) == RowOf(cfg, shards, r)
  {
    hide Get, Keeps, SymbolOf, KeyTexts, KeyOf;
    KeepsShape(cfg, shards, shards');
    var texts := RowTexts(r);
    forall v | v in texts
      ensures Get(cfg, shards', v).Some? && SymbolOf(cfg, shards', v) == SymbolOf(cfg, shards, v)
    {
      SymbolStays(cfg, shards, shards', v);
    }
    assert r.table in texts && r.column in texts;
    assert r.dataType.Named? ==> r.dataType.name in texts;
    assert r.defaultValue.Some? ==> r.defaultValue.value in texts;
    forall i | 0 <= i < |r.checks| ensures r.checks[i] in texts {}
    forall i | 0 <= i < |r.fks| ensures KeyOf(cfg, shards', r.fks[i]) == KeyOf(cfg, shards, r.fks[i]) {
      KeyStays(cfg, shards, shards', r, i);
    }
    var one, two := RowOf(cfg, shards, r), RowOf(cfg, shards', r);
    assert one.fks == two.fks && one.checks == two.checks;
  }

  /** The rows are the texts' symbols. */
  ghost predicate Meant(cfg: Config, shards: Shards, texts: seq<TextRow>, rows: seq<Row>) {
    && Configured(cfg) && |shards| == cfg.count && |rows| == |texts|
    && forall k | 0 <= k < |texts| :: Interned(cfg, shards, texts[k]) && rows[k] == RowOf(cfg, shards, texts[k])
  }

  lemma MeantStays(cfg: Config, shards: Shards, shards': Shards, texts: seq<TextRow>, rows: seq<Row>)
    requires Keeps(cfg, shards, shards') && Meant(cfg, shards, texts, rows)
    ensures Meant(cfg, shards', texts, rows)
  {
    hide Keeps, Interned, RowOf, Configured;
    KeepsShape(cfg, shards, shards');
    forall k | 0 <= k < |texts| ensures Interned(cfg, shards', texts[k]) && rows[k] == RowOf(cfg, shards', texts[k]) {
      RowStays(cfg, shards, shards', texts[k]);
    }
  }

  lemma MeantAppend(cfg: Config, shards: Shards, texts: seq<TextRow>, rows: seq<Row>)
    requires texts != [] && Meant(cfg, shards, texts[..|texts| - 1], rows) && Interned(cfg, shards, texts[|texts| - 1])
    ensures Meant(cfg, shards, texts, rows + [RowOf(cfg, shards, texts[|texts| - 1])])
  {
    hide Interned, RowOf, Configured;
    var n := |texts| - 1;
    assert forall k | 0 <= k < n :: texts[..n][k] == texts[k];
  }

  /** The rows that the builder got are the texts' symbols in the interner that results. */
  lemma {:induction false} AddAllMeans(cfg: Config, shards: Shards, texts: seq<TextRow>)
    requires WellFormed(cfg, shards) && GoodRows(texts) && AddAll(cfg, shards, texts).Some?
    ensures var (after, rows) := AddAll(cfg, shards, texts).value;
            Keeps(cfg, shards, after) && Meant(cfg, after, texts, rows)
    decreases |texts|
  {
    hide Get, RowOf, RowTexts, Interned, GoodTexts;
    WellFormedShape(cfg, shards);
    if texts == [] {
      hide WellFormed;
    } else {
      hide WellFormed, Keeps, Meant;
      var n := |texts| - 1;
      AddAllMeans(cfg, shards, texts[..n]);
      var (before, rows) := AddAll(cfg, shards, texts[..n]).value;
      var after := InternAll(cfg, before, RowTexts(texts[n])).value;
      assert WellFormed(cfg, before) by { KeepsEnds(cfg, shards, before); }
      InternAllKeeps(cfg, before, RowTexts(texts[n]));
      NowInterned(cfg, after, texts[n]);
      MeantStays(cfg, before, after, texts[..n], rows);
      MeantAppend(cfg, after, texts, rows);
      KeepsTrans(cfg, shards, before, after);
    }
  }

  lemma KeepsEnds(cfg: Config, shards: Shards, shards': Shards)
    requires Keeps(cfg, shards, shards')
    ensures WellFormed(cfg, shards')
  {
  }

  lemma NowInterned(cfg: Config, shards: Shards, r: TextRow)
    requires Configured(cfg) && |shards| == cfg.count && forall v | v in RowTexts(r) :: Get(cfg, shards, v).Some?
    ensures Interned(cfg, shards, r)
  {
  }

  /** Equal symbols are equal texts. */
  lemma SymbolIs(cfg: Config, shards: Shards, v: Str)
    requires WellFormed(cfg, shards) && Get(cfg, shards, v).Some?
    ensures Resolve(shards, SymbolOf(cfg, shards, v)) == Some(v)
    ensures Get(cfg, shards, v) == Some(SymbolOf(cfg, shards, v) as nat)
  {
    SymbolInRange(cfg, shards, v);
    GetThenResolve(cfg, shards, v, SymbolOf(cfg, shards, v));
  }

  lemma SymbolInRange(cfg: Config, shards: Shards, v: Str)
    requires WellFormed(cfg, shards) && Get(cfg, shards, v).Some?
    ensures 0 < Get(cfg, shards, v).value < U32_SIZE
  {
    if IsStatic(v) {
      assert v != [] ==> v == [v[0]];
      PackRoundTrip(STATIC_SHARD, if v == [] then 0 else v[0] + 1);
    } else {
      var s := ShardOf(cfg, v);
      assert ShardFits(cfg, shards[s]);
      PackRoundTrip(s, IndexIn(shards[s], v).value);
    }
  }

  // ----- what is interned

  lemma InternOnly(cfg: Config, shards: Shards, v: Str, w: Str)
    requires WellFormed(cfg, shards) && ValidUtf8(v) && |v| < MAX_LEN && Intern(cfg, shards, v).Some?
    ensures var shards' := Intern(cfg, shards, v).value;
            |shards'| == cfg.count && (Get(cfg, shards', w).Some? <==> Get(cfg, shards, w).Some? || w == v)
  {
    hide ValidUtf8;
    InternKeeps(cfg, shards, v);
  }

  lemma {:induction false} InternAllOnly(cfg: Config, shards: Shards, vs: seq<Str>, w: Str)
    requires WellFormed(cfg, shards) && GoodTexts(vs) && InternAll(cfg, shards, vs).Some?
    ensures var shards' := InternAll(cfg, shards, vs).value;
            |shards'| == cfg.count && (Get(cfg, shards', w).Some? <==> Get(cfg, shards, w).Some? || w in vs)
    decreases |vs|
  {
    hide Get, Intern, ValidUtf8, WellFormed;
    WellFormedShape(cfg, shards);
    if vs != [] {
      var n := |vs| - 1;
      InternAllOnly(cfg, shards, vs[..n], w);
      InternAllKeeps(cfg, shards, vs[..n]);
      KeepsEnds(cfg, shards, InternAll(cfg, shards, vs[..n]).value);
      assert vs[n] in vs;
      InternOnly(cfg, InternAll(cfg, shards, vs[..n]).value, vs[n], w);
      assert vs == vs[..n] + [vs[n]];
    }
  }

  /** The interner of a schema holds the texts of its rows, besides what it held before, and no other. */
  lemma {:induction false} AddAllOnly(cfg: Config, shards: Shards, texts: seq<TextRow>, w: Str)
    requires WellFormed(cfg, shards) && GoodRows(texts) && AddAll(cfg, shards, texts).Some?
    ensures Get(cfg, AddAll(cfg, shards, texts).value.0, w).Some? <==>
            Get(cfg, shards, w).Some? || exists k :: 0 <= k < |texts| && w in RowTexts(texts[k])
    decreases |texts|
  {
    hide Get, WellFormed, RowOf, RowTexts, GoodTexts, Keeps, Meant;
    WellFormedShape(cfg, shards);
    if texts != [] {
      var n := |texts| - 1;
      AddAllOnly(cfg, shards, texts[..n], w);
      AddAllMeans(cfg, shards, texts[..n]);
      var before := AddAll(cfg, shards, texts[..n]).value.0;
      KeepsEnds(cfg, shards, before);
      InternAllOnly(cfg, before, RowTexts(texts[n]), w);
      assert forall k | 0 <= k < n :: texts[..n][k] == texts[k];
    }
  }

  /**
    A row that a trigger wrote decodes, under a schema built from rows of texts, if
    and only if its op is valid and the prefixed table name is itself one of those
    texts: as a table's name, or by chance as any other.
   */
  lemma TriggerRowDecodes(cfg: Config, texts: seq<TextRow>, table: Str, row: TruthTables.Row)
    requires Configured(cfg) && GoodRows(texts) && AddAll(cfg, Empty(cfg.count), texts).Some?
    requires row.table == TruthTables.TriggerName(table)
    ensures var schema := TruthTables.Schema(cfg, AddAll(cfg, Empty(cfg.count), texts).value.0);
            TruthTables.DecodeRow(schema, row).Ok? <==>
            && TruthTables.ParseOp(row.op).Ok?
            && exists k :: 0 <= k < |texts| && TruthTables.TriggerName(table) in RowTexts(texts[k])
  {
    hide RowTexts, WellFormed, GoodTexts;
    var v, empty := TruthTables.TriggerName(table), Empty(cfg.count);
    var after := AddAll(cfg, empty, texts).value.0;
    EmptyWellFormed(cfg);
    AddAllMeans(cfg, empty, texts);
    KeepsEnds(cfg, empty, after);
    AddAllOnly(cfg, empty, texts, v);
    TruthTables.TriggerRowFails(TruthTables.Schema(cfg, after), table, row);
    assert |v| >= 7 && !IsStatic(v);
  }

  /** Rows of one table text follow one another. */
  ghost predicate GroupedTexts(texts: seq<TextRow>) {
    forall i, j, k | 0 <= i < j < k < |texts| && texts[i].table == texts[k].table :: texts[j].table == texts[i].table
  }

  /** A row's table and column, as text and as symbol. */
  lemma RowMeans(cfg: Config, shards: Shards, texts: seq<TextRow>, rows: seq<Row>, k: nat)
    requires WellFormed(cfg, shards) && Meant(cfg, shards, texts, rows) && k < |texts|
    ensures Get(cfg, shards, texts[k].table) == Some(rows[k].table as nat)
    ensures Resolve(shards, rows[k].table) == Some(texts[k].table)
    ensures Resolve(shards, rows[k].column) == Some(texts[k].column)
  {
    hide Get, Resolve, Configured, WellFormed, SymbolOf, KeyOf;
    var r := texts[k];
    assert Interned(cfg, shards, r) && r.table in RowTexts(r) && r.column in RowTexts(r);
    SymbolIs(cfg, shards, r.table);
    SymbolIs(cfg, shards, r.column);
    assert rows[k] == RowOf(cfg, shards, r);
  }

  /** Grouped texts reach the builder as grouped rows. */
  lemma GroupedRows(cfg: Config, shards: Shards, texts: seq<TextRow>)
    requires WellFormed(cfg, shards) && GoodRows(texts) && AddAll(cfg, shards, texts).Some? && GroupedTexts(texts)
    ensures Grouped(AddAll(cfg, shards, texts).value.1)
  {
    var (after, rows) := AddAll(cfg, shards, texts).value;
    AddAllMeans(cfg, shards, texts);
    KeepsEnds(cfg, shards, after);
    hide Get, WellFormed, Keeps, Meant, Resolve, AddAll, GoodRows;
    forall i, k | 0 <= i < |rows| && 0 <= k < |rows|
      ensures rows[i].table == rows[k].table <==> texts[i].table == texts[k].table
    {
      RowMeans(cfg, after, texts, rows, i);
      RowMeans(cfg, after, texts, rows, k);
    }
  }

  // ----- lookups by name

  /** `table(name)`: the interner's answer, then the index. */
  function TableNamed(cfg: Config, shards: Shards, s: Tables, name: Str): Option<nat>
    requires Configured(cfg) && |shards| == cfg.count
  {
    match Get(cfg, shards, name)
    case None => None
    case Some(n) => if 0 < n < U32_SIZE then IndexOfName(s.tables, n) else None
  }

  /** Table `i` covers exactly the rows of the table called `name`, with their column names. */
  ghost predicate CoversRows(shards: Shards, s: Tables, i: nat, texts: seq<TextRow>, name: Str) {
    && i < |s.tables| && |s.columnNames| == |texts|
    && Resolve(shards, s.tables[i].name) == Some(name)
    && forall k | 0 <= k < |texts| ::
         && (s.tables[i].columnsStart <= k < ColumnsEnd(s.tables[i]) <==> texts[k].table == name)
         && Resolve(shards, s.columnNames[k]) == Some(texts[k].column)
  }

  lemma ColumnNameIs(s: Tables, o: Origin, k: nat)
    requires Built(s, o) && k < |o.rows|
    ensures |s.columnNames| == |o.rows| && s.columnNames[k] == o.rows[k].column
  {
    hide GraphOf, TableOrdered, FksOk, TablesOk, Inverse;
    assert ColumnsOk(o.raw, o.rows);
  }

  /** Row `k` lies in the table of its name. */
  lemma RowTable(s: Tables, o: Origin, k: nat) returns (i: nat)
    requires Built(s, o) && k < |o.rows|
    ensures i < |s.tables| && s.tables[i].columnsStart <= k < ColumnsEnd(s.tables[i])
    ensures s.tables[i].name == o.rows[k].table
  {
    hide Built, RawOk, GraphOf, TableOrdered, Inverse, DistinctNames;
    BuiltFacts(s, o);
    var u := RowOwner(o.raw.tables, o.rows, k, |o.raw.tables|);
    PlaceOf(s, o, u);
    i := o.place[u];
    Shapes(s, o, i);
    assert TableOk(o.raw.tables[u], o.rows);
  }

  lemma {:induction false} RowOwner(ts: seq<TableMeta>, rows: seq<Row>, k: nat, n: nat) returns (u: nat)
    requires TablesOk(ts, rows) && k < |rows| && 0 < n <= |ts| && k < ColumnsEnd(ts[n - 1])
    ensures u < |ts| && ts[u].columnsStart <= k < ColumnsEnd(ts[u])
    decreases n
  {
    u := n - 1;
    if k < ts[u].columnsStart { u := RowOwner(ts, rows, k, n - 1); }
  }

  lemma TableRow(s: Tables, o: Origin, i: nat, k: nat)
    requires Built(s, o) && i < |s.tables| && s.tables[i].columnsStart <= k < ColumnsEnd(s.tables[i])
    ensures k < |o.rows| && o.rows[k].table == s.tables[i].name
  {
    hide Built, RawOk, GraphOf, TableOrdered, Inverse, DistinctNames;
    BuiltFacts(s, o);
    BuiltTable(s, o, i);
    Shapes(s, o, i);
  }

  lemma TableCovers(cfg: Config, shards: Shards, s: Tables, o: Origin, texts: seq<TextRow>, i: nat, name: Str)
    requires WellFormed(cfg, shards) && Meant(cfg, shards, texts, o.rows) && Built(s, o)
    requires i < |s.tables| && Resolve(shards, s.tables[i].name) == Some(name)
    ensures CoversRows(shards, s, i, texts, name)
  {
    hide Get, WellFormed, Resolve, Built, Configured, Meant;
    assert |texts| == |o.rows| by { MeantLength(cfg, shards, texts, o.rows); }
    assert |s.columnNames| == |o.rows| by { BuiltFacts(s, o); }
    forall k | 0 <= k < |texts|
      ensures s.tables[i].columnsStart <= k < ColumnsEnd(s.tables[i]) <==> texts[k].table == name
      ensures Resolve(shards, s.columnNames[k]) == Some(texts[k].column)
    {
      RowMeans(cfg, shards, texts, o.rows, k);
      ColumnNameIs(s, o, k);
      if s.tables[i].columnsStart <= k < ColumnsEnd(s.tables[i]) { TableRow(s, o, i, k); }
      if texts[k].table == name { OnlyTable(cfg, shards, s, o, i, k, name); }
    }
  }

  lemma MeantLength(cfg: Config, shards: Shards, texts: seq<TextRow>, rows: seq<Row>)
    requires Meant(cfg, shards, texts, rows)
    ensures |texts| == |rows|
  {
  }

  /** There is one table of a name. */
  lemma OnlyTable(cfg: Config, shards: Shards, s: Tables, o: Origin, i: nat, k: nat, name: Str)
    requires WellFormed(cfg, shards) && Built(s, o) && i < |s.tables| && k < |o.rows|
    requires Resolve(shards, s.tables[i].name) == Some(name) && Resolve(shards, o.rows[k].table) == Some(name)
    ensures s.tables[i].columnsStart <= k < ColumnsEnd(s.tables[i])
  {
    hide Get, WellFormed, Resolve, Built, ByNameOk;
    ResolveThenGet(cfg, shards, name, s.tables[i].name);
    ResolveThenGet(cfg, shards, name, o.rows[k].table);
    NamesDistinct(s, o);
    var j := RowTable(s, o, k);
    assert j == i;
  }

  /** What `table(name)` must answer. */
  ghost predicate AnswersTable(cfg: Config, schema: DatabaseSchema, texts: seq<TextRow>, name: Str) {
    && Configured(cfg) && |schema.shards| == cfg.count
    && match TableNamed(cfg, schema.shards, schema.tables, name)
       case None => forall k | 0 <= k < |texts| :: texts[k].table != name
       case Some(i) => CoversRows(schema.shards, schema.tables, i, texts, name)
  }

  /**
    Texts that are interned, built and asked by name: `table(name)` is the table of
    exactly the rows of that name, and there is one if and only if there are rows.
   */
  lemma TableByName(cfg: Config, schema: DatabaseSchema, o: Origin, texts: seq<TextRow>, name: Str)
    requires WellFormed(cfg, schema.shards) && Meant(cfg, schema.shards, texts, o.rows) && Built(schema.tables, o)
    ensures AnswersTable(cfg, schema, texts, name)
  {
    hide Get, WellFormed, Resolve, Built, Meant, Configured, IndexOfName;
    var shards, s := schema.shards, schema.tables;
    WellFormedShape(cfg, shards);
    MeantLength(cfg, shards, texts, o.rows);
    match TableNamed(cfg, shards, s, name)
    case None =>
      forall k | 0 <= k < |texts| ensures texts[k].table != name {
        RowMeans(cfg, shards, texts, o.rows, k);
        var i := RowTable(s, o, k);
      }
    case Some(i) =>
      GetThenResolve(cfg, shards, name, s.tables[i].name);
      TableCovers(cfg, shards, s, o, texts, i, name);
  }

  /** `column(name)` of a table: the interner's answer, then its position among the table's columns. */
  function ColumnNamed(cfg: Config, shards: Shards, s: Tables, i: nat, name: Str): Option<nat>
    requires Configured(cfg) && |shards| == cfg.count && i < |s.tables| && ColumnsEnd(s.tables[i]) <= |s.columnNames|
  {
    match Get(cfg, shards, name)
    case None => None
    case Some(n) =>
      if 0 < n < U32_SIZE then Position(s.columnNames[s.tables[i].columnsStart..ColumnsEnd(s.tables[i])], n) else None
  }

  /** The column found is that of the first row with the name, and one is found if and only if there is such a row. */
  ghost predicate FindsColumn(s: Tables, i: nat, texts: seq<TextRow>, name: Str, found: Option<nat>)
    requires i < |s.tables|
  {
    var start, end := s.tables[i].columnsStart, ColumnsEnd(s.tables[i]);
    && end <= |texts|
    && match found
       case None => forall k | start <= k < end :: texts[k].column != name
       case Some(c) =>
         start + c < end && texts[start + c].column == name
         && forall k | start <= k < start + c :: texts[k].column != name
  }

  lemma ColumnByName(cfg: Config, shards: Shards, s: Tables, o: Origin, texts: seq<TextRow>, i: nat, name: Str)
    requires WellFormed(cfg, shards) && Meant(cfg, shards, texts, o.rows) && Built(s, o) && i < |s.tables|
    ensures ColumnsEnd(s.tables[i]) <= |s.columnNames|
    ensures FindsColumn(s, i, texts, name, ColumnNamed(cfg, shards, s, i, name))
  {
    hide Get, WellFormed, Resolve, Built, Configured, Meant, Position;
    assert |texts| == |o.rows| by { MeantLength(cfg, shards, texts, o.rows); }
    assert Configured(cfg) && |shards| == cfg.count by { WellFormedShape(cfg, shards); }
    assert ColumnsEnd(s.tables[i]) <= |s.columnNames| == |o.rows| by {
      Shapes(s, o, i);
      BuiltFacts(s, o);
    }
    var start, end := s.tables[i].columnsStart, ColumnsEnd(s.tables[i]);
    var names := s.columnNames[start..end];
    forall k | start <= k < end
      ensures texts[k].column == name <==> Get(cfg, shards, name) == Some(names[k - start] as nat)
    {
      RowMeans(cfg, shards, texts, o.rows, k);
      ColumnNameIs(s, o, k);
      if texts[k].column == name { ResolveThenGet(cfg, shards, name, names[k - start]); }
      if Get(cfg, shards, name) == Some(names[k - start] as nat) {
        GetThenResolve(cfg, shards, name, names[k - start]);
      }
    }
  }

  /** What `column(name)` of every table must answer. */
  ghost predicate AnswersColumn(cfg: Config, schema: DatabaseSchema, texts: seq<TextRow>, name: Str) {
    && Configured(cfg) && |schema.shards| == cfg.count
    && forall i | 0 <= i < |schema.tables.tables| ::
         && ColumnsEnd(schema.tables.tables[i]) <= |schema.tables.columnNames|
         && FindsColumn(schema.tables, i, texts, name, ColumnNamed(cfg, schema.shards, schema.tables, i, name))
  }

  lemma ColumnsByName(cfg: Config, schema: DatabaseSchema, o: Origin, texts: seq<TextRow>, name: Str)
    requires WellFormed(cfg, schema.shards) && Meant(cfg, schema.shards, texts, o.rows) && Built(schema.tables, o)
    ensures AnswersColumn(cfg, schema, texts, name)
  {
    hide Get, WellFormed, Built, Meant, Configured, FindsColumn, ColumnNamed;
    WellFormedShape(cfg, schema.shards);
    forall i | 0 <= i < |schema.tables.tables|
      ensures ColumnsEnd(schema.tables.tables[i]) <= |schema.tables.columnNames|
      ensures FindsColumn(schema.tables, i, texts, name, ColumnNamed(cfg, schema.shards, schema.tables, i, name))
    {
      ColumnByName(cfg, schema.shards, schema.tables, o, texts, i, name);
    }
  }

  lemma EmptyWellFormed(cfg: Config)
    requires Configured(cfg)
    ensures WellFormed(cfg, Empty(cfg.count))
  {
  }
}
