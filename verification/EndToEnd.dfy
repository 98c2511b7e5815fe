/**
  From the builder to the bytes and back: every schema that the builder produces
  fits the format, so it survives encoding and decoding unchanged.
 */
module EndToEnd {
  import opened Bytes
  import opened Records
  import opened InternerModel
  import opened SchemaTypes
  import opened SchemaRows
  import opened TopoSort
  import opened Resolution
  import opened Compaction
  import opened SchemaBuild
  import opened SchemaTheorems
  import opened Codec
  import opened SchemaCodec

  lemma TableStaysNarrow(s: Tables, o: Origin, i: nat)
    requires Built(s, o) && Widths(o.raw) && i < |s.tables|
    ensures TableFits(s.tables[i])
  {
    hide Built, RawOk, TablesOk, GraphOf, TableOrdered, FinalFks, ResolveAll, Inverse, DistinctNames;
    BuiltFacts(s, o);
    BuiltTable(s, o, i);
    var t := o.raw.tables[o.order[i]];
    DeclaredSlice(o.rows, t.columnsStart, ColumnsEnd(t));
    ShrunkNarrow(o.raw, t.fkStart, t.fkStart + t.fkLen);
    RawColumns(o.raw, o.rows);
  }

  lemma RawColumns(raw: Raw, rows: seq<Row>)
    requires RawOk(raw, rows)
    ensures |raw.columns| == |rows| && |raw.unresolved| == |raw.fkPool| && |raw.constraintPool| == |Checks(rows)|
  {
  }

  /** A range only shrinks, and its start moves towards the front. */
  lemma ShrunkNarrow(raw: Raw, a: nat, b: nat)
    requires a <= b <= |raw.unresolved|
    ensures Shrunk(raw, a, b).len <= b - a && Shrunk(raw, a, b).start <= a
  {
    hide ResolveAll;
    RankBound(raw, a);
    RankGap(raw, a, b);
  }

  lemma {:induction false} RankGap(raw: Raw, a: nat, b: nat)
    requires a <= b <= |raw.unresolved|
    ensures Rank(raw, a) <= Rank(raw, b) <= Rank(raw, a) + (b - a)
  {
    hide ResolveAll, ResolveOne;
    if a < b {
      RankGap(raw, a, b - 1);
      RankStep(raw, b - 1);
    }
  }

  lemma {:induction false} ChecksPos(rows: seq<Row>, k: nat)
    requires k <= |rows|
    ensures CheckPos(rows, k) <= |Checks(rows)|
    decreases |rows|
  {
    if k < |rows| {
      var front := rows[..|rows| - 1];
      ChecksPos(front, k);
      assert front[..k] == rows[..k];
    } else {
      assert rows[..k] == rows;
    }
  }

  lemma ColumnStaysNarrow(s: Tables, o: Origin, k: nat)
    requires Built(s, o) && Widths(o.raw) && k < |s.columns|
    ensures ColumnFits(s.columns[k])
  {
    hide Built, RawOk, TablesOk, GraphOf, TableOrdered, FinalFks, ResolveAll, Inverse, DistinctNames;
    BuiltFacts(s, o);
    BuiltColumn(s, o, k);
    RawColumns(o.raw, o.rows);
    RawColumnIs(o.raw, o.rows, k);
    ChecksPos(o.rows, k);
    RowSlice(o.rows, k);
    ShrunkNarrow(o.raw, FkPos(o.rows, k), FkPos(o.rows, k + 1));
  }

  lemma RawColumnIs(raw: Raw, rows: seq<Row>, k: nat)
    requires RawOk(raw, rows) && k < |rows|
    ensures k < |raw.columns| && raw.columns[k] == ColumnOf(rows, k)
  {
  }

  lemma ForeignKeyStaysNarrow(s: Tables, o: Origin, q: nat)
    requires Built(s, o) && Widths(o.raw) && |o.raw.tables| < U16_SIZE && q < |s.foreignKeyPool|
    ensures ForeignKeyFits(s.foreignKeyPool[q])
  {
    hide Built, RawOk, TablesOk, GraphOf, TableOrdered, FinalFks, FinalFk, ResolveAll, Inverse, DistinctNames,
         Declared, TopoSort.Distinct, Bounded;
    BuiltFacts(s, o);
    var p := FinalSource(o.raw, o.place, Declared(o.rows), s.foreignKeyPool[q]);
    KeptNamesTarget(s, o, Declared(o.rows)[p]);
    var f := s.foreignKeyPool[q];
    TableStaysNarrow(s, o, f.table);
  }

  /** Every schema that the builder produces fits the format. */
  lemma BuiltFits(s: Tables, o: Origin)
    requires Built(s, o) && Widths(o.raw) && |o.raw.tables| < U16_SIZE
    ensures Fits(s)
  {
    hide Built, RawOk, TablesOk, GraphOf, TableOrdered, ResolveAll, Inverse, DistinctNames, TableFits, ColumnFits,
         ForeignKeyFits;
    BuiltFacts(s, o);
    RawColumns(o.raw, o.rows);
    PoolSizes(s, o);
    forall i | 0 <= i < |s.tables| ensures TableFits(s.tables[i]) { TableStaysNarrow(s, o, i); }
    forall k | 0 <= k < |s.columns| ensures ColumnFits(s.columns[k]) { ColumnStaysNarrow(s, o, k); }
    forall q | 0 <= q < |s.foreignKeyPool| ensures ForeignKeyFits(s.foreignKeyPool[q]) {
      ForeignKeyStaysNarrow(s, o, q);
    }
  }

  lemma PoolSizes(s: Tables, o: Origin)
    requires Built(s, o) && |o.raw.tables| < U16_SIZE
    ensures |s.foreignKeyPool| <= |o.raw.unresolved| && |s.constraintPool| == |o.raw.constraintPool|
    ensures |s.byName| == |s.tables| && forall i | 0 <= i < |s.byName| :: IndexFits(s.byName[i])
  {
    hide TableOrdered, GraphOf, ResolveAll, FinalFks, Rank;
    var n := |o.raw.unresolved|;
    DeclaredCount(o.raw, o.rows);
    WrittenFinal(o.raw, o.rows, o.place, n);
    assert Declared(o.rows)[..n] == Declared(o.rows);
    RankBound(o.raw, n);
  }

  /** Built schemas survive the codec unchanged, in both modes, whatever follows them in the buffer. */
  lemma BuiltRoundTrip(m: bool, cfg: Config, s: DatabaseSchema, o: Origin, snapshot: seq<Byte>, behind: seq<Byte>)
    requires Built(s.tables, o) && Widths(o.raw) && |o.raw.tables| < U16_SIZE
    requires |s.hash| == HASH_SIZE && |snapshot| < U32_SIZE
    requires WellFormed(cfg, s.shards) && cfg == Standard(cfg.count, cfg.hash) && IsSnapshot(snapshot, s.shards)
    ensures Decode(m, cfg.hash, Encode(s, snapshot) + behind) == Parsed(s, |Encode(s, snapshot)|)
  {
    BuiltFits(s.tables, o);
    RoundTrip(m, cfg, s, snapshot, behind);
  }
}
