/**
  What draining a truth table reports, said of the rows of the two logs alone: record by
  record, in the order of the bytes of table name and record.
 */
module LogJoin {
  import opened Bytes
  import opened InternerModel
  import opened MergeSpec
  import opened TruthTables

  /** The row is about the record. */
  ghost predicate About(r: Row, k: Key) { r.table == k.table && r.record == k.record }

  /** What a log says about a record: what its row says, or nothing because it has no row. */
  ghost predicate Says(schema: Schema, rows: seq<Row>, k: Key, e: Option<LogEntry>) {
    match e
    case None => forall i | 0 <= i < |rows| :: !About(rows[i], k)
    case Some(x) => exists i :: 0 <= i < |rows| && About(rows[i], k) && Stands(schema, x, rows[i])
  }

  /** The later stamp: a higher version, or the same version at a later time. */
  ghost predicate Later(a: LogEntry, b: LogEntry) {
    a.version >= b.version && (a.version == b.version ==> a.updatedAt > b.updatedAt)
  }

  /** The later side is applied, or the only one; equal stamps with different operations are a conflict. */
  ghost predicate Decided(t: TruthEntry) {
    match t.action
    case ApplyFromPostgres => t.postgres.Some? && (t.sqlite.Some? ==> Later(t.postgres.value, t.sqlite.value))
    case ApplyFromSQLite => t.sqlite.Some? && (t.postgres.Some? ==> Later(t.sqlite.value, t.postgres.value))
    case Conflict =>
      && t.postgres.Some? && t.sqlite.Some? && t.postgres.value.op != t.sqlite.value.op
      && t.postgres.value.version == t.sqlite.value.version && t.postgres.value.updatedAt == t.sqlite.value.updatedAt
  }

  /** Both logs have a row about the record, with the same version, time and operation. */
  ghost predicate Agreed(pg: seq<Row>, sq: seq<Row>, k: Key) {
    exists i, j :: 0 <= i < |pg| && 0 <= j < |sq| && About(pg[i], k) && About(sq[j], k) && SameStamp(pg[i], sq[j])
  }

  ghost predicate SameStamp(a: Row, b: Row) { a.version == b.version && a.updatedAt == b.updatedAt && a.op == b.op }

  ghost predicate BytesLess(k: Key, l: Key) {
    ByteLess(k.table, l.table) || (k.table == l.table && ByteLess(k.record, l.record))
  }

  /**
    The report on two logs, where `keys` are the records that it is about: each once and
    in order, each with what both logs say about it and with the right decision; and a
    record of either log is left out exactly if the logs agree on it.
   */
  ghost predicate Joins(schema: Schema, pg: seq<Row>, sq: seq<Row>, all: seq<TruthEntry>, keys: seq<Key>) {
    && |keys| == |all|
    && (forall i, j | 0 <= i < j < |keys| :: BytesLess(keys[i], keys[j]))
    && (forall i | 0 <= i < |keys| ::
          Says(schema, pg, keys[i], all[i].postgres) && Says(schema, sq, keys[i], all[i].sqlite) && Decided(all[i]))
    && (forall i | 0 <= i < |pg| :: Covered(pg, sq, pg[i], keys))
    && (forall i | 0 <= i < |sq| :: Covered(pg, sq, sq[i], keys))
  }

  ghost predicate Covered(pg: seq<Row>, sq: seq<Row>, r: Row, keys: seq<Key>) {
    var k := Key(r.table, r.record); k in keys <==> !Agreed(pg, sq, k)
  }

  // ----- rows and entries

  /** The entries of a log, each by its row. */
  ghost predicate Entries(schema: Schema, rows: seq<Row>, log: Log) {
    && GoodSchema(schema) && |log| == |rows| && Ascending(log)
    && (forall i | 0 <= i < |rows| :: log[i].key == Key(rows[i].table, rows[i].record))
    && (forall i | 0 <= i < |rows| :: EntryOfRow(log[i], rows[i]))
  }

  ghost predicate EntryOfRow(e: MergeSpec.Entry, r: Row) {
    e.version == r.version && e.updatedAt == r.updatedAt && r.op == [Event(e.op)[0] as int % 256]
  }

  lemma RemainingEntries(schema: Schema, rows: seq<Row>)
    requires Decodes(schema, rows) && RowsAscending(rows)
    ensures Entries(schema, rows, Remaining(schema, None, rows))
  {
    RemainingAscends(schema, rows);
    RemainingRows(schema, rows);
    hide Remaining, DecodeRow, KeyOf, WellFormed, RowLess, KeyLess;
    forall i | 0 <= i < |rows| ensures EntryOfRow(Remaining(schema, None, rows)[i], rows[i]) {
      assert DecodeRow(schema, rows[i]).Ok?;
      DecodedStands(schema, rows[i]);
    }
  }

  /** An entry that resolves, looked up in a log, says what the log's row says. */
  lemma LookupSays(schema: Schema, rows: seq<Row>, log: Log, k: Key, e: Option<LogEntry>)
    requires Entries(schema, rows, log) && Resolves(schema, e) && Lookup(log, k) == SpecOption(schema, e)
    ensures Says(schema, rows, k, e)
  {
    hide Ascending, WellFormed, Resolve;
    LookupIff(log, k);
    match e
    case None =>
      forall i | 0 <= i < |rows| ensures !About(rows[i], k) { assert log[i].key != k; }
    case Some(x) =>
      var i :| 0 <= i < |log| && log[i] == Spec(schema, x);
      assert log[i].key == k;
      assert EntryOfRow(log[i], rows[i]);
      assert About(rows[i], k) && Stands(schema, x, rows[i]);
  }

  /** The letters of two operations are the same only if they are. */
  lemma Letters(a: Op, b: Op)
    ensures Event(a)[0] as int % 256 == Event(b)[0] as int % 256 <==> a == b
  {
  }

  /** No verdict on a record of a log means that the logs agree, and the other way round. */
  lemma AgreedIff(schema: Schema, pg: seq<Row>, sq: seq<Row>, p: Log, s: Log, k: Key)
    requires Entries(schema, pg, p) && Entries(schema, sq, s) && (Lookup(p, k).Some? || Lookup(s, k).Some?)
    ensures Verdict(Lookup(p, k), Lookup(s, k)).None? <==> Agreed(pg, sq, k)
  {
    hide Ascending, WellFormed, Verdict;
    var a, b := Lookup(p, k), Lookup(s, k);
    VerdictMeans(a, b);
    if Verdict(a, b).None? {
      var i :| 0 <= i < |p| && p[i] == a.value;
      var j :| 0 <= j < |s| && s[j] == b.value;
      assert EntryOfRow(p[i], pg[i]) && EntryOfRow(s[j], sq[j]);
      assert About(pg[i], k) && About(sq[j], k) && SameStamp(pg[i], sq[j]);
    }
    if Agreed(pg, sq, k) {
      var i, j :| 0 <= i < |pg| && 0 <= j < |sq| && About(pg[i], k) && About(sq[j], k) && SameStamp(pg[i], sq[j]);
      LookupAt(p, i);
      LookupAt(s, j);
      Letters(p[i].op, s[j].op);
      assert EntryOfRow(p[i], pg[i]) && EntryOfRow(s[j], sq[j]);
      NoneOfSame(p[i], s[j]);
    }
  }

  lemma NoneOfSame(a: MergeSpec.Entry, b: MergeSpec.Entry)
    requires a.version == b.version && a.updatedAt == b.updatedAt && a.op == b.op
    ensures Verdict(Some(a), Some(b)).None?
  {
  }

  // ----- the report

  ghost function KeysOf(ts: seq<Truth>): (keys: seq<Key>)
    requires Ordered(ts)
    ensures |keys| == |ts| && forall i | 0 <= i < |ts| :: keys[i] == ts[i].Key()
  {
    seq(|ts|, i requires 0 <= i < |ts| => ts[i].Key())
  }

  lemma BytesLessIff(k: Key, l: Key)
    ensures BytesLess(k, l) <==> KeyLess(k, l)
  {
    StrLessIff(k.table, l.table);
    StrLessIff(k.record, l.record);
  }

  /** The results about every key are the join of the logs' entries. */
  ghost predicate JoinOf(p: Log, s: Log, ts: seq<Truth>) {
    Ordered(ts) && forall k :: Find(ts, k) == Verdict(Lookup(p, k), Lookup(s, k))
  }

  lemma ReportedSays(schema: Schema, pg: seq<Row>, sq: seq<Row>, p: Log, s: Log, all: seq<TruthEntry>, i: nat)
    requires Entries(schema, pg, p) && Entries(schema, sq, s) && JoinOf(p, s, SpecTruths(schema, all))
    requires i < |all| && BothResolve(schema, all[i])
    ensures var k := SpecTruths(schema, all)[i].Key();
            Says(schema, pg, k, all[i].postgres) && Says(schema, sq, k, all[i].sqlite) && Decided(all[i])
  {
    hide Entries, WellFormed, Verdict, KeyOf, Says, Resolve, Ordered;
    var ts := SpecTruths(schema, all);
    assert Ordered(ts) && (ts[i].postgres.Some? || ts[i].sqlite.Some?) by { OrderedHas(ts, i); }
    var k := ts[i].Key();
    FindAt(ts, i);
    VerdictMeans(Lookup(p, k), Lookup(s, k));
    LookupSays(schema, pg, p, k, all[i].postgres);
    LookupSays(schema, sq, s, k, all[i].sqlite);
  }

  lemma OrderedHas(ts: seq<Truth>, i: nat)
    requires Ordered(ts) && i < |ts|
    ensures ts[i].postgres.Some? || ts[i].sqlite.Some?
  {
  }

  lemma FindIff(ts: seq<Truth>, k: Key)
    requires Ordered(ts)
    ensures k in KeysOf(ts) <==> Find(ts, k).Some?
  {
    hide KeyLess;
    if k in KeysOf(ts) {
      var i :| 0 <= i < |ts| && KeysOf(ts)[i] == k;
      FindAt(ts, i);
    }
    FindHas(ts, k);
  }

  lemma {:induction false} FindHas(ts: seq<Truth>, k: Key)
    ensures Find(ts, k).Some? ==> exists i :: 0 <= i < |ts| && IsAbout(ts[i], k)
  {
    if ts != [] && Find(ts, k).Some? && !IsAbout(ts[0], k) {
      FindHas(ts[1..], k);
      var i :| 0 <= i < |ts[1..]| && IsAbout(ts[1..][i], k);
      assert ts[i + 1] == ts[1..][i];
    }
  }

  ghost predicate IsAbout(t: Truth, k: Key) { (t.postgres.Some? || t.sqlite.Some?) && t.Key() == k }

  lemma RowCovered(schema: Schema, pg: seq<Row>, sq: seq<Row>, p: Log, s: Log, ts: seq<Truth>, r: Row)
    requires Entries(schema, pg, p) && Entries(schema, sq, s) && JoinOf(p, s, ts) && (r in pg || r in sq)
    ensures Covered(pg, sq, r, KeysOf(ts))
  {
    hide Ascending, WellFormed, Verdict, Ordered, EntryOfRow;
    var k := Key(r.table, r.record);
    LookupIff(p, k);
    LookupIff(s, k);
    if r in pg {
      var i :| 0 <= i < |pg| && pg[i] == r;
      assert p[i].key == k;
    } else {
      var i :| 0 <= i < |sq| && sq[i] == r;
      assert s[i].key == k;
    }
    AgreedIff(schema, pg, sq, p, s, k);
    FindIff(ts, k);
  }

  lemma JoinsAll(schema: Schema, pg: seq<Row>, sq: seq<Row>, p: Log, s: Log, all: seq<TruthEntry>)
    requires Entries(schema, pg, p) && Entries(schema, sq, s) && JoinOf(p, s, SpecTruths(schema, all))
    requires forall i | 0 <= i < |all| :: BothResolve(schema, all[i])
    ensures Joins(schema, pg, sq, all, KeysOf(SpecTruths(schema, all)))
  {
    hide Entries, WellFormed, Verdict, KeyOf, Says, Resolve, BothResolve, Decided, Find, Lookup, KeyLess, BytesLess,
         Covered;
    var ts := SpecTruths(schema, all);
    var keys := KeysOf(ts);
    forall i, j | 0 <= i < j < |keys| ensures BytesLess(keys[i], keys[j]) { BytesLessIff(keys[i], keys[j]); }
    forall i | 0 <= i < |keys|
      ensures Says(schema, pg, keys[i], all[i].postgres) && Says(schema, sq, keys[i], all[i].sqlite) && Decided(all[i])
    {
      ReportedSays(schema, pg, sq, p, s, all, i);
    }
    forall i | 0 <= i < |pg| ensures Covered(pg, sq, pg[i], keys) { RowCovered(schema, pg, sq, p, s, ts, pg[i]); }
    forall i | 0 <= i < |sq| ensures Covered(pg, sq, sq[i], keys) { RowCovered(schema, pg, sq, p, s, ts, sq[i]); }
  }

  /**
    On two logs in strictly ascending byte order of table name and record, whose rows
    decode, draining reports the records on which the logs do not agree, in that order,
    each once, with what each log says about it and with the side that the policy takes.
   */
  method DrainIsJoin(pg: seq<Row>, sq: seq<Row>, schema: Schema) returns (all: seq<TruthEntry>)
    requires Decodes(schema, pg) && Decodes(schema, sq) && RowsAscending(pg) && RowsAscending(sq)
    ensures exists keys :: Joins(schema, pg, sq, all, keys)
  {
    RemainingEntries(schema, pg);
    RemainingEntries(schema, sq);
    hide Remaining, RowsAscending, Verdict, Lookup, Find, KeyLess, Entries, EntryOfRow, Ascending, BothResolve;
    ghost var p, s := Remaining(schema, None, pg), Remaining(schema, None, sq);
    var table := TruthTable.Open(pg, sq, schema);
    all := Drain(table.value);
    assert Ascending(p) && Ascending(s) by { EntriesAscend(schema, pg, p); EntriesAscend(schema, sq, s); }
    forall k ensures Ordered(SpecTruths(schema, all))
                     && Find(SpecTruths(schema, all), k) == Verdict(Lookup(p, k), Lookup(s, k))
    {
      MergeIsJoin(p, s, k);
    }
    MergeIsJoin(p, s, Key([], []));
    JoinsAll(schema, pg, sq, p, s, all);
  }

  lemma EntriesAscend(schema: Schema, rows: seq<Row>, log: Log)
    requires Entries(schema, rows, log)
    ensures Ascending(log)
  {
  }
}
