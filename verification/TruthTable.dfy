/**
  The merge-join as the object that reads the two log streams: a one-row
  lookahead and a last-table memo per stream. Streams are finite sequences of
  rows; the schema is its interner.
 */
module TruthTables {
  import opened Bytes
  import opened Symbols
  import opened InternerModel
  import opened MergeSpec

  datatype Row = Row(table: Str, record: Str, op: Str, version: int, updatedAt: int)

  datatype Error = UnknownTable(name: Str) | InvalidOp(op: Str)

  datatype Result<+T> = Ok(value: T) | Err(error: Error)

  /** A decoded row: the lookahead of a stream, and an entry of a result. */
  datatype LogEntry = LogEntry(table: Symbol, record: Str, op: Op, version: int, updatedAt: int)

  datatype TruthEntry = TruthEntry(postgres: Option<LogEntry>, sqlite: Option<LogEntry>, action: Action)

  datatype Ordering = Less | Equal | Greater

  /** `LogOpType::try_from`: the letters I, U and D. */
  function ParseOp(op: Str): Result<Op> {
    if op == [73] then Ok(Insert) else if op == [85] then Ok(Update) else if op == [68] then Ok(Delete)
    else Err(InvalidOp(op))
  }

  /** What a schema must be for the merge: a well-formed interner. */
  datatype Schema = Schema(cfg: Config, shards: Shards)

  ghost predicate GoodSchema(schema: Schema) { WellFormed(schema.cfg, schema.shards) }

  function GetSymbol(schema: Schema, name: Str): Option<nat>
    requires Configured(schema.cfg) && |schema.shards| == schema.cfg.count
  {
    Get(schema.cfg, schema.shards, name)
  }

  /** `Head::new` on a row, without the memo. */
  function DecodeRow(schema: Schema, row: Row): Result<LogEntry>
    requires Configured(schema.cfg) && |schema.shards| == schema.cfg.count
  {
    match GetSymbol(schema, row.table)
    case None => Err(UnknownTable(row.table))
    case Some(symbol) =>
      match ParseOp(row.op)
      case Err(e) => Err(e)
      case Ok(op) =>
        if 0 < symbol < U32_SIZE then Ok(LogEntry(symbol, row.record, op, row.version, row.updatedAt))
        else Err(UnknownTable(row.table))
  }

  ghost predicate Decodes(schema: Schema, rows: seq<Row>) {
    GoodSchema(schema) && forall i | 0 <= i < |rows| :: DecodeRow(schema, rows[i]).Ok?
  }

  /** The table name that the triggers write into both logs: `public.` and the table's own. */
  function TriggerName(table: Str): Str { [112, 117, 98, 108, 105, 99, 46] + table }

  /**
    A row that a trigger wrote fails to decode if and only if its op is none of the
    three letters or the prefixed name, which no table is interned under, has no
    symbol of its own.
   */
  lemma TriggerRowFails(schema: Schema, table: Str, row: Row)
    requires GoodSchema(schema) && row.table == TriggerName(table)
    ensures DecodeRow(schema, row).Err? <==>
            ParseOp(row.op).Err? || TriggerName(table) !in schema.shards[ShardOf(schema.cfg, TriggerName(table))]
    ensures DecodeRow(schema, row).Err? && ParseOp(row.op).Ok? ==>
            DecodeRow(schema, row) == Err(UnknownTable(TriggerName(table)))
  {
    var v := TriggerName(table);
    var s := ShardOf(schema.cfg, v);
    assert |v| >= 7 && !IsStatic(v);
    if v in schema.shards[s] {
      assert ShardFits(schema.cfg, schema.shards[s]);
      PackRoundTrip(s, IndexIn(schema.shards[s], v).value);
    }
  }

  /** The key under which an entry is merged: its table's name and its record. */
  function KeyOf(schema: Schema, e: LogEntry): Key {
    Key(match Resolve(schema.shards, e.table) case Some(name) => name case None => [], e.record)
  }

  function Spec(schema: Schema, e: LogEntry): MergeSpec.Entry {
    MergeSpec.Entry(KeyOf(schema, e), e.op, e.version, e.updatedAt)
  }

  function SpecOption(schema: Schema, e: Option<LogEntry>): Option<MergeSpec.Entry> {
    match e case None => None case Some(x) => Some(Spec(schema, x))
  }

  function SpecTruth(schema: Schema, t: TruthEntry): Truth {
    Truth(SpecOption(schema, t.postgres), SpecOption(schema, t.sqlite), t.action)
  }

  /** The log that a lookahead and the rows behind it stand for. */
  function Remaining(schema: Schema, head: Option<LogEntry>, rows: seq<Row>): Log
    requires Configured(schema.cfg) && |schema.shards| == schema.cfg.count
    decreases |rows|, head.Some?
  {
    match head
    case Some(e) => [Spec(schema, e)] + Remaining(schema, None, rows)
    case None =>
      if rows == [] then [] else
      match DecodeRow(schema, rows[0])
      case Err(_) => []
      case Ok(e) => Remaining(schema, Some(e), rows[1..])
  }

  /** Consuming the lookahead leaves the rows, whose first becomes the lookahead. */
  lemma RemainingStep(schema: Schema, e: LogEntry, rows: seq<Row>)
    requires GoodSchema(schema) && (rows != [] ==> DecodeRow(schema, rows[0]).Ok?)
    ensures Remaining(schema, Some(e), rows)[1..]
         == if rows == [] then [] else Remaining(schema, Some(DecodeRow(schema, rows[0]).value), rows[1..])
    ensures Remaining(schema, None, []) == []
  {
    assert Remaining(schema, Some(e), rows)[1..] == Remaining(schema, None, rows);
  }

  /** The trigger events, whose first letters are the op texts. */
  function Event(op: Op): string {
    match op case Insert => "INSERT" case Update => "UPDATE" case Delete => "DELETE"
  }

  /** The entry says what the row says: the table by its name, the op by its letter, the rest as it is. */
  ghost predicate Stands(schema: Schema, e: LogEntry, r: Row) {
    && Resolve(schema.shards, e.table) == Some(r.table)
    && e.record == r.record && e.version == r.version && e.updatedAt == r.updatedAt
    && r.op == [Event(e.op)[0] as int % 256]
  }

  /** Rows decode to what they say, and every row of a known table with one of the three letters decodes. */
  lemma DecodedStands(schema: Schema, row: Row)
    requires GoodSchema(schema)
    ensures DecodeRow(schema, row).Ok? ==> Stands(schema, DecodeRow(schema, row).value, row)
    ensures DecodeRow(schema, row).Ok? <==>
            GetSymbol(schema, row.table).Some? && (row.op == [73] || row.op == [85] || row.op == [68])
  {
    var name := row.table;
    if GetSymbol(schema, name).Some? { GetInRange(schema, name); }
    if DecodeRow(schema, row).Ok? { DecodedResolves(schema, row); }
    hide Get, Resolve, WellFormed;
    assert 'I' as int == 73 && 'U' as int == 85 && 'D' as int == 68;
  }

  lemma GetInRange(schema: Schema, name: Str)
    requires GoodSchema(schema) && GetSymbol(schema, name).Some?
    ensures 0 < GetSymbol(schema, name).value < U32_SIZE
  {
    if IsStatic(name) {
      assert name != [] ==> name == [name[0]];
      PackRoundTrip(STATIC_SHARD, if name == [] then 0 else name[0] + 1);
    } else {
      var s := ShardOf(schema.cfg, name);
      assert ShardFits(schema.cfg, schema.shards[s]);
      PackRoundTrip(s, IndexIn(schema.shards[s], name).value);
    }
  }

  /** The log of a stream whose rows decode has one entry per row, which says what the row says. */
  lemma {:induction false} RemainingRows(schema: Schema, rows: seq<Row>)
    requires Decodes(schema, rows)
    ensures |Remaining(schema, None, rows)| == |rows|
    ensures forall i | 0 <= i < |rows| :: Remaining(schema, None, rows)[i].key == Key(rows[i].table, rows[i].record)
    ensures forall i | 0 <= i < |rows| ::
              Remaining(schema, None, rows)[i] == Spec(schema, DecodeRow(schema, rows[i]).value)
    decreases |rows|
  {
    hide Get, Resolve;
    if rows != [] {
      assert forall i | 0 <= i < |rows[1..]| :: rows[1..][i] == rows[i + 1];
      DecodedResolves(schema, rows[0]);
      RemainingRows(schema, rows[1..]);
      var e := DecodeRow(schema, rows[0]).value;
      assert Remaining(schema, None, rows) == [Spec(schema, e)] + Remaining(schema, None, rows[1..]);
    }
  }

  ghost predicate Resolves(schema: Schema, e: Option<LogEntry>) {
    e.Some? ==> Resolve(schema.shards, e.value.table).Some?
  }

  ghost predicate BothResolve(schema: Schema, t: TruthEntry) {
    Resolves(schema, t.postgres) && Resolves(schema, t.sqlite)
  }

  lemma DecodedResolves(schema: Schema, row: Row)
    requires GoodSchema(schema) && DecodeRow(schema, row).Ok?
    ensures Resolve(schema.shards, DecodeRow(schema, row).value.table) == Some(row.table)
  {
    GetThenResolve(schema.cfg, schema.shards, row.table, DecodeRow(schema, row).value.table);
  }

  /** `str::cmp`. */
  function Compare(a: Str, b: Str): Ordering {
    if a == b then Equal else if StrLess(a, b) then Less else Greater
  }

  /** `cmp_heads`: equal symbols compare by record, others by the tables' names. */
  function CompareHeads(schema: Schema, a: LogEntry, b: LogEntry): Ordering {
    if a.table == b.table then Compare(a.record, b.record)
    else Compare(KeyOf(schema, a).table, KeyOf(schema, b).table)
  }

  /** Comparing symbols first is comparing keys, because a symbol has one name and a name one symbol. */
  lemma CompareHeadsIsKeyOrder(schema: Schema, a: LogEntry, b: LogEntry)
    requires GoodSchema(schema) && Resolves(schema, Some(a)) && Resolves(schema, Some(b))
    ensures var k, l := KeyOf(schema, a), KeyOf(schema, b);
            match CompareHeads(schema, a, b)
            case Less => KeyLess(k, l)
            case Equal => k == l
            case Greater => KeyLess(l, k)
  {
    var k, l := KeyOf(schema, a), KeyOf(schema, b);
    StrOrder(k.table, l.table);
    StrOrder(k.record, l.record);
    if k.table == l.table {
      ResolveThenGet(schema.cfg, schema.shards, k.table, a.table);
      ResolveThenGet(schema.cfg, schema.shards, l.table, b.table);
    }
  }

  /** The last-table memo of one stream. */
  class TableCache {
    var name: Str
    var symbol: Option<nat>

    /** A remembered symbol is the schema's symbol of the remembered name. */
    ghost predicate Valid(schema: Schema)
      reads this
    {
      GoodSchema(schema) && (symbol.Some? ==> GetSymbol(schema, name) == symbol)
    }

    constructor ()
      ensures symbol == None && name == []
    {
      name, symbol := [], None;
    }

    /** The memo never changes an answer. */
    method SymbolFor(schema: Schema, table: Str) returns (r: Result<nat>)
      requires Valid(schema)
      modifies this
      ensures Valid(schema)
      ensures r == match GetSymbol(schema, table)
                   case Some(symbol) => Ok(symbol)
                   case None => Err(UnknownTable(table))
    {
      if symbol.Some? && name == table {
        return Ok(symbol.value);
      }
      var found := GetSymbol(schema, table);
      if found.None? {
        return Err(UnknownTable(table));
      }
      name := table;
      symbol := found;
      r := Ok(found.value);
    }
  }

  /** `pull`: the next row of a stream, decoded, and the rows behind it. */
  method Pull(rows: seq<Row>, schema: Schema, cache: TableCache) returns (r: Result<Option<LogEntry>>, rest: seq<Row>)
    requires cache.Valid(schema)
    modifies cache
    ensures cache.Valid(schema)
    ensures rest == if rows == [] then [] else rows[1..]
    ensures rows == [] ==> r == Ok(None)
    ensures rows != [] && DecodeRow(schema, rows[0]).Ok? ==> r == Ok(Some(DecodeRow(schema, rows[0]).value))
    ensures rows != [] && DecodeRow(schema, rows[0]).Err? ==> r.Err?
  {
    if rows == [] {
      return Ok(None), [];
    }
    rest := rows[1..];
    var symbol := cache.SymbolFor(schema, rows[0].table);
    if symbol.Err? {
      return Err(symbol.error), rest;
    }
    var op := ParseOp(rows[0].op);
    if op.Err? {
      return Err(op.error), rest;
    }
    if !(0 < symbol.value < U32_SIZE) {
      return Err(UnknownTable(rows[0].table)), rest;
    }
    r := Ok(Some(LogEntry(symbol.value, rows[0].record, op.value, rows[0].version, rows[0].updatedAt)));
  }

  /** `resolve`: the lexicographic comparison of version and time. */
  function ResolveEntry(p: Option<LogEntry>, s: Option<LogEntry>): Option<TruthEntry> {
    match (p, s)
    case (Some(_), None) => Some(TruthEntry(p, s, ApplyFromPostgres))
    case (None, Some(_)) => Some(TruthEntry(p, s, ApplyFromSQLite))
    case (Some(a), Some(b)) =>
      if a.version == b.version then
        if a.updatedAt == b.updatedAt then if a.op == b.op then None else Some(TruthEntry(p, s, Conflict))
        else Some(TruthEntry(p, s, if a.updatedAt > b.updatedAt then ApplyFromPostgres else ApplyFromSQLite))
      else Some(TruthEntry(p, s, if a.version > b.version then ApplyFromPostgres else ApplyFromSQLite))
    case (None, None) => None
  }

  /** The code's decision is the policy's verdict. */
  lemma ResolveIsVerdict(schema: Schema, p: Option<LogEntry>, s: Option<LogEntry>)
    ensures Verdict(SpecOption(schema, p), SpecOption(schema, s))
         == match ResolveEntry(p, s)
            case None => None
            case Some(t) => Some(SpecTruth(schema, t))
    ensures ResolveEntry(p, s).Some? ==> ResolveEntry(p, s).value.postgres == p && ResolveEntry(p, s).value.sqlite == s
  {
  }

  /** Which lookaheads `next_entry` consumes. */
  function HeadOrder(schema: Schema, pg: Option<LogEntry>, sq: Option<LogEntry>): Ordering {
    if sq.None? then Less else if pg.None? then Greater else CompareHeads(schema, pg.value, sq.value)
  }

  /** Consuming the lookaheads of the smaller key is the merge's first step. */
  lemma HeadOrderIsStep(schema: Schema, pg: Option<LogEntry>, sq: Option<LogEntry>, pgRows: seq<Row>, sqRows: seq<Row>)
    requires GoodSchema(schema) && Resolves(schema, pg) && Resolves(schema, sq) && (pg.Some? || sq.Some?)
    requires (pg.None? ==> pgRows == []) && (sq.None? ==> sqRows == [])
    ensures var order := HeadOrder(schema, pg, sq);
            var p, s := Remaining(schema, pg, pgRows), Remaining(schema, sq, sqRows);
            && (order != Greater ==> pg.Some?) && (order != Less ==> sq.Some?)
            && var rest := Merge(if order != Greater then p[1..] else p, if order != Less then s[1..] else s);
               Merge(p, s) == match Verdict(if order != Greater then SpecOption(schema, pg) else None,
                                            if order != Less then SpecOption(schema, sq) else None)
                              case None => rest
                              case Some(t) => [t] + rest
  {
    hide Merge, Verdict, CompareHeads, KeyLess, DecodeRow, KeyOf, Resolve;
    if pg.Some? && sq.Some? {
      CompareHeadsIsKeyOrder(schema, pg.value, sq.value);
      KeyOrder(KeyOf(schema, pg.value), KeyOf(schema, sq.value));
    }
    MergeUnfold(Remaining(schema, pg, pgRows), Remaining(schema, sq, sqRows));
  }

  /** A stream was read from `rows` to `rest`, and every row on the way decodes. */
  ghost predicate ReadTo(schema: Schema, rows: seq<Row>, rest: seq<Row>) {
    && GoodSchema(schema) && |rest| <= |rows|
    && var k := |rows| - |rest|;
       rest == rows[k..] && Decodes(schema, rows[..k])
  }

  /** Reading stopped behind the first row that does not decode. */
  ghost predicate StoppedAt(schema: Schema, rows: seq<Row>, rest: seq<Row>) {
    && GoodSchema(schema) && |rest| < |rows|
    && var k := |rows| - |rest| - 1;
       rest == rows[k + 1..] && Decodes(schema, rows[..k]) && DecodeRow(schema, rows[k]).Err?
  }

  lemma ReadNone(schema: Schema, rows: seq<Row>)
    requires GoodSchema(schema)
    ensures ReadTo(schema, rows, rows)
  {
    assert rows[0..] == rows;
  }

  /** One more row, or the end of the stream. */
  lemma ReadOne(schema: Schema, rows: seq<Row>, now: seq<Row>)
    requires ReadTo(schema, rows, now)
    ensures now == [] || DecodeRow(schema, now[0]).Ok? ==> ReadTo(schema, rows, if now == [] then [] else now[1..])
    ensures now != [] && DecodeRow(schema, now[0]).Err? ==> StoppedAt(schema, rows, now[1..])
  {
    hide DecodeRow, WellFormed;
    if now != [] {
      var k := |rows| - |now|;
      assert now[0] == rows[k] && rows[..k + 1] == rows[..k] + [rows[k]];
      assert now[1..] == rows[k + 1..];
    }
  }

  lemma MergeEmpty()
    ensures Merge([], []) == []
  {
  }

  class TruthTable {
    const schema: Schema
    var pgRows: seq<Row>
    var sqRows: seq<Row>
    const pgCache: TableCache
    const sqCache: TableCache
    var pgHead: Option<LogEntry>
    var sqHead: Option<LogEntry>

    ghost predicate Valid()
      reads this, pgCache, sqCache
    {
      && pgCache != sqCache
      && pgCache.Valid(schema) && sqCache.Valid(schema)
      && Resolves(schema, pgHead) && Resolves(schema, sqHead)
      && (pgHead.None? ==> pgRows == []) && (sqHead.None? ==> sqRows == [])
    }

    /** What is left of the two logs. */
    ghost function Pg(): Log
      reads this, pgCache, sqCache
      requires Valid()
    {
      Remaining(schema, pgHead, pgRows)
    }

    ghost function Sq(): Log
      reads this, pgCache, sqCache
      requires Valid()
    {
      Remaining(schema, sqHead, sqRows)
    }

    ghost predicate Clean()
      reads this
    {
      Decodes(schema, pgRows) && Decodes(schema, sqRows)
    }

    /** Opens the streams and primes the lookaheads; fails exactly if a first row does not decode. */
    static method Open(pg: seq<Row>, sq: seq<Row>, schema: Schema) returns (r: Result<TruthTable>)
      requires GoodSchema(schema)
      ensures r.Err? <==> (pg != [] && DecodeRow(schema, pg[0]).Err?) || (sq != [] && DecodeRow(schema, sq[0]).Err?)
      ensures r.Ok? ==> fresh(r.value) && fresh(r.value.pgCache) && fresh(r.value.sqCache)
      ensures r.Ok? ==> r.value.Valid() && r.value.schema == schema
      ensures r.Ok? ==> r.value.Pg() == Remaining(schema, None, pg) && r.value.Sq() == Remaining(schema, None, sq)
      ensures r.Ok? && Decodes(schema, pg) && Decodes(schema, sq) ==> r.value.Clean()
    {
      var pgCache := new TableCache();
      var sqCache := new TableCache();
      var p, pgRest := Pull(pg, schema, pgCache);
      if p.Err? { return Err(p.error); }
      var s, sqRest := Pull(sq, schema, sqCache);
      if s.Err? { return Err(s.error); }
      if pg != [] { DecodedResolves(schema, pg[0]); }
      if sq != [] { DecodedResolves(schema, sq[0]); }
      var table := new TruthTable(schema, pgRest, sqRest, pgCache, sqCache, p.value, s.value);
      r := Ok(table);
    }

    constructor (schema: Schema, pgRows: seq<Row>, sqRows: seq<Row>, pgCache: TableCache, sqCache: TableCache,
                 pgHead: Option<LogEntry>, sqHead: Option<LogEntry>)
      ensures this.schema == schema && this.pgRows == pgRows && this.sqRows == sqRows
      ensures this.pgCache == pgCache && this.sqCache == sqCache && this.pgHead == pgHead && this.sqHead == sqHead
    {
      this.schema, this.pgRows, this.sqRows := schema, pgRows, sqRows;
      this.pgCache, this.sqCache, this.pgHead, this.sqHead := pgCache, sqCache, pgHead, sqHead;
    }

    /** Consumes the Postgres lookahead: `advance` with the next row of that stream. */
    method AdvancePg() returns (r: Result<Option<LogEntry>>)
      requires Valid() && pgHead.Some?
      modifies this`pgRows, this`pgHead, pgCache
      ensures r.Err? <==> old(pgRows) != [] && DecodeRow(schema, old(pgRows)[0]).Err?
      ensures pgRows == if old(pgRows) == [] then [] else old(pgRows)[1..]
      ensures r.Ok? ==> Valid() && r.value == old(pgHead) && Pg() == old(Pg())[1..]
      ensures r.Ok? ==> |pgRows| + (if pgHead.Some? then 1 else 0) < |old(pgRows)| + 1
      ensures old(Decodes(schema, pgRows)) ==> Decodes(schema, pgRows)
    {
      var next, rest := Pull(pgRows, schema, pgCache);
      if pgRows != [] && next.Ok? { DecodedResolves(schema, pgRows[0]); }
      if next.Ok? { RemainingStep(schema, pgHead.value, pgRows); }
      pgRows := rest;
      if next.Err? { return Err(next.error); }
      r := Ok(pgHead);
      pgHead := next.value;
    }

    method AdvanceSq() returns (r: Result<Option<LogEntry>>)
      requires Valid() && sqHead.Some?
      modifies this`sqRows, this`sqHead, sqCache
      ensures r.Err? <==> old(sqRows) != [] && DecodeRow(schema, old(sqRows)[0]).Err?
      ensures sqRows == if old(sqRows) == [] then [] else old(sqRows)[1..]
      ensures r.Ok? ==> Valid() && r.value == old(sqHead) && Sq() == old(Sq())[1..]
      ensures r.Ok? ==> |sqRows| + (if sqHead.Some? then 1 else 0) < |old(sqRows)| + 1
      ensures old(Decodes(schema, sqRows)) ==> Decodes(schema, sqRows)
    {
      var next, rest := Pull(sqRows, schema, sqCache);
      if sqRows != [] && next.Ok? { DecodedResolves(schema, sqRows[0]); }
      if next.Ok? { RemainingStep(schema, sqHead.value, sqRows); }
      sqRows := rest;
      if next.Err? { return Err(next.error); }
      r := Ok(sqHead);
      sqHead := next.value;
    }

    /** Rows and lookaheads that are left. */
    ghost function Ahead(): nat
      reads this
    {
      |pgRows| + (if pgHead.Some? then 1 else 0) + |sqRows| + (if sqHead.Some? then 1 else 0)
    }

    /** Consumes the lookaheads that `order` asks for, and reads on behind them. */
    method Consume(order: Ordering) returns (r: Result<(Option<LogEntry>, Option<LogEntry>)>)
      requires Valid() && (order != Greater ==> pgHead.Some?) && (order != Less ==> sqHead.Some?)
      modifies this, pgCache, sqCache
      ensures r.Ok? ==> Valid() && Ahead() < old(Ahead())
      ensures r.Ok? ==> r.value.0 == (if order != Greater then old(pgHead) else None)
                        && r.value.1 == (if order != Less then old(sqHead) else None)
      ensures r.Ok? ==> Pg() == (if order != Greater then old(Pg())[1..] else old(Pg()))
                        && Sq() == (if order != Less then old(Sq())[1..] else old(Sq()))
      ensures forall rows | ReadTo(schema, rows, old(pgRows)) ::
                ReadTo(schema, rows, pgRows) || (r.Err? && StoppedAt(schema, rows, pgRows))
      ensures forall rows | ReadTo(schema, rows, old(sqRows)) ::
                ReadTo(schema, rows, sqRows) || (r.Err? && StoppedAt(schema, rows, sqRows))
      ensures r.Err? ==> (forall rows | ReadTo(schema, rows, old(pgRows)) :: StoppedAt(schema, rows, pgRows))
                         || (forall rows | ReadTo(schema, rows, old(sqRows)) :: StoppedAt(schema, rows, sqRows))
    {
      hide DecodeRow, Resolve, Spec, WellFormed, ReadTo, StoppedAt;
      forall rows | ReadTo(schema, rows, pgRows) { ReadOne(schema, rows, pgRows); }
      forall rows | ReadTo(schema, rows, sqRows) { ReadOne(schema, rows, sqRows); }
      var p: Option<LogEntry>, s: Option<LogEntry> := None, None;
      if order != Greater {
        var a := AdvancePg();
        if a.Err? { return Err(a.error); }
        p := a.value;
      }
      if order != Less {
        var b := AdvanceSq();
        if b.Err? { return Err(b.error); }
        s := b.value;
      }
      r := Ok((p, s));
    }

    /**
      `next_entry`: the next result of the merge of what is left, or `None` at its
      end; records on which the logs agree are skipped. It fails exactly if a row that
      it reads on the way does not decode, and then stops behind that row.
     */
    method NextEntry() returns (r: Result<Option<TruthEntry>>)
      requires Valid()
      modifies this, pgCache, sqCache
      ensures r.Err? ==> StoppedAt(schema, old(pgRows), pgRows) || StoppedAt(schema, old(sqRows), sqRows)
      ensures r.Err? ==> !old(Clean())
      ensures r.Ok? ==> ReadTo(schema, old(pgRows), pgRows) && ReadTo(schema, old(sqRows), sqRows)
      ensures r.Ok? ==> Valid() && (old(Clean()) ==> Clean())
      ensures r.Ok? && r.value.None? ==> old(Merge(Pg(), Sq())) == [] && Pg() == [] && Sq() == []
      ensures r.Ok? && r.value.Some? ==>
                old(Merge(Pg(), Sq())) == [SpecTruth(schema, r.value.value)] + Merge(Pg(), Sq())
      ensures r.Ok? && r.value.Some? ==> BothResolve(schema, r.value.value)
    {
      hide Merge, Verdict, ResolveEntry, HeadOrder, DecodeRow, Resolve, Spec, WellFormed, SpecTruth, ReadTo, StoppedAt;
      ghost var goal := Merge(Pg(), Sq());
      ghost var pg0, sq0 := pgRows, sqRows;
      ReadNone(schema, pg0);
      ReadNone(schema, sq0);
      if Clean() {
        StreamClean(schema, pg0);
        StreamClean(schema, sq0);
      }
      while true
        invariant Valid() && Merge(Pg(), Sq()) == goal
        invariant ReadTo(schema, pg0, pgRows) && ReadTo(schema, sq0, sqRows)
        decreases Ahead()
      {
        if pgHead.None? && sqHead.None? {
          MergeEmpty();
          return Ok(None);
        }
        var order := HeadOrder(schema, pgHead, sqHead);
        HeadOrderIsStep(schema, pgHead, sqHead, pgRows, sqRows);
        var heads := Consume(order);
        if heads.Err? { return Err(heads.error); }
        ResolveIsVerdict(schema, heads.value.0, heads.value.1);
        var entry := ResolveEntry(heads.value.0, heads.value.1);
        if entry.Some? {
          return Ok(entry);
        }
      }
    }
  }

  /** Streams whose rows all decode are never stopped, and what is left of them decodes. */
  lemma ReadClean(schema: Schema, rows: seq<Row>, rest: seq<Row>)
    requires Decodes(schema, rows)
    ensures !StoppedAt(schema, rows, rest) && (ReadTo(schema, rows, rest) ==> Decodes(schema, rest))
  {
    hide DecodeRow, WellFormed;
  }

  lemma StreamClean(schema: Schema, rows: seq<Row>)
    requires Decodes(schema, rows)
    ensures forall rest :: !StoppedAt(schema, rows, rest)
    ensures forall rest | ReadTo(schema, rows, rest) :: Decodes(schema, rest)
  {
    forall rest ensures !StoppedAt(schema, rows, rest) { ReadClean(schema, rows, rest); }
    forall rest | ReadTo(schema, rows, rest) ensures Decodes(schema, rest) { ReadClean(schema, rows, rest); }
  }

  /** Rows in strictly ascending byte order of table name and record. */
  ghost predicate RowLess(a: Row, b: Row) {
    ByteLess(a.table, b.table) || (a.table == b.table && ByteLess(a.record, b.record))
  }

  ghost predicate RowsAscending(rows: seq<Row>) {
    forall i, j | 0 <= i < j < |rows| :: RowLess(rows[i], rows[j])
  }

  lemma RowLessIff(a: Row, b: Row)
    ensures RowLess(a, b) <==> KeyLess(Key(a.table, a.record), Key(b.table, b.record))
  {
    StrLessIff(a.table, b.table);
    StrLessIff(a.record, b.record);
  }

  lemma RemainingAscends(schema: Schema, rows: seq<Row>)
    requires Decodes(schema, rows) && RowsAscending(rows)
    ensures Ascending(Remaining(schema, None, rows))
  {
    hide Decodes, KeyLess, RowLess, Remaining;
    RemainingRows(schema, rows);
    forall i, j | 0 <= i < j < |rows|
      ensures KeyLess(Key(rows[i].table, rows[i].record), Key(rows[j].table, rows[j].record))
    {
      RowLessIff(rows[i], rows[j]);
    }
  }

  function SpecTruths(schema: Schema, ts: seq<TruthEntry>): seq<Truth> {
    seq(|ts|, i requires 0 <= i < |ts| => SpecTruth(schema, ts[i]))
  }

  /** Draining the table: it ends, and yields the merge of the logs it was opened on. */
  method Drain(table: TruthTable) returns (all: seq<TruthEntry>)
    requires table.Valid() && table.Clean()
    modifies table, table.pgCache, table.sqCache
    ensures SpecTruths(table.schema, all) == old(Merge(table.Pg(), table.Sq()))
    ensures forall i | 0 <= i < |all| :: BothResolve(table.schema, all[i])
  {
    hide Merge, Remaining, SpecTruth, DecodeRow, WellFormed, Resolve, Get, ReadTo, StoppedAt, BothResolve;
    all := [];
    ghost var goal := Merge(table.Pg(), table.Sq());
    while true
      invariant table.Valid() && table.Clean()
      invariant SpecTruths(table.schema, all) + Merge(table.Pg(), table.Sq()) == goal
      invariant forall i | 0 <= i < |all| :: BothResolve(table.schema, all[i])
      decreases |goal| - |all|
    {
      var r := table.NextEntry();
      if r.value.None? {
        break;
      }
      all := all + [r.value.value];
    }
  }
}
