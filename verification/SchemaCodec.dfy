/**
  `encode`, `decode` and `decode_unchecked` of a whole schema: the round trip, and
  what truncated and extended inputs decode to.
 */
module SchemaCodec {
  import opened Bytes
  import opened Symbols
  import opened Records
  import opened InternerModel
  import opened SchemaTypes
  import opened Codec

  /** A schema: its tables and pools, its 32-byte hash, and its interner's strings. */
  datatype DatabaseSchema = DatabaseSchema(tables: Tables, hash: seq<Byte>, shards: Shards)

  const HASH_SIZE: nat := 32

  function Tables1(m: bool): Parser<TableMeta> { (b: seq<Byte>, p: nat) => ParseTable(m, b, p) }
  function Indices(m: bool): Parser<nat> { (b: seq<Byte>, p: nat) => ReadU16(m, b, p) }
  function Columns(m: bool): Parser<Column> { (b: seq<Byte>, p: nat) => ParseColumn(m, b, p) }
  function Names(m: bool): Parser<Symbol> { (b: seq<Byte>, p: nat) => ReadSym(m, b, p) }
  function ForeignKeys(m: bool): Parser<ForeignKey> { (b: seq<Byte>, p: nat) => ParseForeignKey(m, b, p) }

  /** The six lists behind the interner. */
  function ParseTables(m: bool, buf: seq<Byte>, pos: nat): Parse<Tables> {
    var (tables, p1) :- ParseList(m, Tables1(m), buf, pos);
    var (byName, p2) :- ParseList(m, Indices(m), buf, p1);
    var (columns, p3) :- ParseList(m, Columns(m), buf, p2);
    var (columnNames, p4) :- ParseList(m, Names(m), buf, p3);
    var (constraintPool, p5) :- ParseList(m, Names(m), buf, p4);
    var (foreignKeyPool, p6) :- ParseList(m, ForeignKeys(m), buf, p5);
    Parsed(Tables(tables, byName, columns, columnNames, constraintPool, foreignKeyPool), p6)
  }

  /** `decode`, and with `m` true `decode_unchecked`. A panic while the interner is rebuilt is a panic here. */
  function Decode(m: bool, hash: Str -> nat, buf: seq<Byte>): Parse<DatabaseSchema> {
    var (digest, p1) :- ReadBytes(m, buf, 0, HASH_SIZE);
    var (internerLen, p2) :- ReadU32(m, buf, p1);
    var (interner, p3) :- ReadBytes(m, buf, p2, internerLen);
    match Rebuild(hash, interner, !m)
    case None => Panics
    case Some(shards) =>
      var (tables, p4) :- ParseTables(m, buf, p3);
      Parsed(DatabaseSchema(tables, digest, shards), p4)
  }

  /** The printed form; `snapshot` is what the interner's `bytes` returned. */
  function Encode(s: DatabaseSchema, snapshot: seq<Byte>): seq<Byte> {
    s.hash + (AsU32(|snapshot|) + (snapshot + PrintTables(s.tables)))
  }

  function PrintTables(t: Tables): seq<Byte> {
    PrintList(PrintTable, t.tables) + (PrintList(AsU16, t.byName) + (PrintList(PrintColumn, t.columns)
    + (PrintList(PrintSym, t.columnNames) + (PrintList(PrintSym, t.constraintPool)
    + PrintList(PrintForeignKey, t.foreignKeyPool)))))
  }

  /** `encode`: the buffer grows part by part. */
  method EncodeSchema(s: DatabaseSchema, snapshot: seq<Byte>) returns (buf: seq<Byte>)
    ensures buf == Encode(s, snapshot)
  {
    hide AsU32, AsU16, PrintTable, PrintColumn, PrintForeignKey, PrintMany, PrintList, PrintSym;
    var t := s.tables;
    buf := s.hash + AsU32(|snapshot|) + snapshot;
    buf := WriteList(PrintTable, t.tables, buf);
    buf := WriteList(AsU16, t.byName, buf);
    buf := WriteList(PrintColumn, t.columns, buf);
    buf := WriteList(PrintSym, t.columnNames, buf);
    buf := WriteList(PrintSym, t.constraintPool, buf);
    buf := WriteList(PrintForeignKey, t.foreignKeyPool, buf);
    Regroup([s.hash, AsU32(|snapshot|), snapshot, PrintList(PrintTable, t.tables), PrintList(AsU16, t.byName),
             PrintList(PrintColumn, t.columns), PrintList(PrintSym, t.columnNames),
             PrintList(PrintSym, t.constraintPool), PrintList(PrintForeignKey, t.foreignKeyPool)]);
  }

  /** Appending part by part is the concatenation of the parts. */
  lemma Regroup(x: seq<seq<Byte>>)
    requires |x| == 9
    ensures x[0] + x[1] + x[2] + x[3] + x[4] + x[5] + x[6] + x[7] + x[8]
         == x[0] + (x[1] + (x[2] + (x[3] + (x[4] + (x[5] + (x[6] + (x[7] + x[8])))))))
  {
    Nest(x[0] + x[1] + x[2] + x[3] + x[4] + x[5] + x[6], x[7], x[8]);
    Nest(x[0] + x[1] + x[2] + x[3] + x[4] + x[5], x[6], x[7] + x[8]);
    Nest(x[0] + x[1] + x[2] + x[3] + x[4], x[5], x[6] + (x[7] + x[8]));
    Nest(x[0] + x[1] + x[2] + x[3], x[4], x[5] + (x[6] + (x[7] + x[8])));
    Nest(x[0] + x[1] + x[2], x[3], x[4] + (x[5] + (x[6] + (x[7] + x[8]))));
    Nest(x[0] + x[1], x[2], x[3] + (x[4] + (x[5] + (x[6] + (x[7] + x[8])))));
    Nest(x[0], x[1], x[2] + (x[3] + (x[4] + (x[5] + (x[6] + (x[7] + x[8]))))));
  }

  lemma Nest(a: seq<Byte>, b: seq<Byte>, c: seq<Byte>)
    ensures a + b + c == a + (b + c)
  {
  }

  method WriteList<T>(show: T -> seq<Byte>, xs: seq<T>, buf: seq<Byte>) returns (out: seq<Byte>)
    ensures out == buf + PrintList(show, xs)
  {
    hide AsU32, PrintMany;
    out := buf + AsU32(|xs|);
    out := WriteMany(show, xs, out);
    Nest(buf, AsU32(|xs|), PrintMany(show, xs));
  }

  // ----- the round trip

  lemma TablesRead(m: bool, buf: seq<Byte>, pos: nat, xs: seq<TableMeta>)
    requires |xs| < U32_SIZE && (forall i | 0 <= i < |xs| :: TableFits(xs[i]))
             && Starts(buf, pos, PrintList(PrintTable, xs))
    ensures ParseList(m, Tables1(m), buf, pos) == Parsed(xs, pos + |PrintList(PrintTable, xs)|)
  {
    hide ParseList, PrintList, ParseTable, PrintTable, Starts;
    forall i | 0 <= i < |xs| ensures ReadsBack(Tables1(m), PrintTable, buf, xs[i]) {
      forall p: nat | Starts(buf, p, PrintTable(xs[i]))
        ensures Tables1(m)(buf, p) == Parsed(xs[i], p + |PrintTable(xs[i])|)
      {
        TableReads(m, buf, p, xs[i]);
      }
    }
    ListReads(m, Tables1(m), PrintTable, buf, pos, xs);
  }

  lemma IndicesRead(m: bool, buf: seq<Byte>, pos: nat, xs: seq<nat>)
    requires |xs| < U32_SIZE && (forall i | 0 <= i < |xs| :: IndexFits(xs[i])) && Starts(buf, pos, PrintList(AsU16, xs))
    ensures ParseList(m, Indices(m), buf, pos) == Parsed(xs, pos + |PrintList(AsU16, xs)|)
  {
    hide ParseList, PrintList, ReadU16, AsU16, Starts;
    forall i | 0 <= i < |xs| ensures ReadsBack(Indices(m), AsU16, buf, xs[i]) {
      forall p: nat | Starts(buf, p, AsU16(xs[i])) ensures Indices(m)(buf, p) == Parsed(xs[i], p + |AsU16(xs[i])|) {
        ReadsU16(m, buf, p, xs[i]);
      }
    }
    ListReads(m, Indices(m), AsU16, buf, pos, xs);
  }

  lemma ColumnsRead(m: bool, buf: seq<Byte>, pos: nat, xs: seq<Column>)
    requires |xs| < U32_SIZE && (forall i | 0 <= i < |xs| :: ColumnFits(xs[i]))
             && Starts(buf, pos, PrintList(PrintColumn, xs))
    ensures ParseList(m, Columns(m), buf, pos) == Parsed(xs, pos + |PrintList(PrintColumn, xs)|)
  {
    hide ParseList, PrintList, ParseColumn, PrintColumn, Starts;
    forall i | 0 <= i < |xs| ensures ReadsBack(Columns(m), PrintColumn, buf, xs[i]) {
      forall p: nat | Starts(buf, p, PrintColumn(xs[i]))
        ensures Columns(m)(buf, p) == Parsed(xs[i], p + |PrintColumn(xs[i])|)
      {
        ColumnReads(m, buf, p, xs[i]);
      }
    }
    ListReads(m, Columns(m), PrintColumn, buf, pos, xs);
  }

  lemma NamesRead(m: bool, buf: seq<Byte>, pos: nat, xs: seq<Symbol>)
    requires |xs| < U32_SIZE && Starts(buf, pos, PrintList(PrintSym, xs))
    ensures ParseList(m, Names(m), buf, pos) == Parsed(xs, pos + |PrintList(PrintSym, xs)|)
  {
    hide ParseList, PrintList, ReadSym, Starts;
    forall i | 0 <= i < |xs| ensures ReadsBack(Names(m), PrintSym, buf, xs[i]) {
      forall p: nat | Starts(buf, p, PrintSym(xs[i])) ensures Names(m)(buf, p) == Parsed(xs[i], p + |PrintSym(xs[i])|) {
        ReadsSym(m, buf, p, xs[i]);
      }
    }
    ListReads(m, Names(m), PrintSym, buf, pos, xs);
  }

  lemma ForeignKeysRead(m: bool, buf: seq<Byte>, pos: nat, xs: seq<ForeignKey>)
    requires |xs| < U32_SIZE && (forall i | 0 <= i < |xs| :: ForeignKeyFits(xs[i]))
    requires Starts(buf, pos, PrintList(PrintForeignKey, xs))
    ensures ParseList(m, ForeignKeys(m), buf, pos) == Parsed(xs, pos + |PrintList(PrintForeignKey, xs)|)
  {
    hide ParseList, PrintList, ParseForeignKey, PrintForeignKey, Starts;
    forall i | 0 <= i < |xs| ensures ReadsBack(ForeignKeys(m), PrintForeignKey, buf, xs[i]) {
      forall p: nat | Starts(buf, p, PrintForeignKey(xs[i]))
        ensures ForeignKeys(m)(buf, p) == Parsed(xs[i], p + |PrintForeignKey(xs[i])|)
      {
        ForeignKeyReads(m, buf, p, xs[i]);
      }
    }
    ListReads(m, ForeignKeys(m), PrintForeignKey, buf, pos, xs);
  }

  lemma AllTablesRead(m: bool, buf: seq<Byte>, pos: nat, t: Tables)
    requires Fits(t) && Starts(buf, pos, PrintTables(t))
    ensures ParseTables(m, buf, pos) == Parsed(t, pos + |PrintTables(t)|)
  {
    hide ParseList, PrintList, Starts;
    var a, b, c := PrintList(PrintTable, t.tables), PrintList(AsU16, t.byName), PrintList(PrintColumn, t.columns);
    var d, e := PrintList(PrintSym, t.columnNames), PrintList(PrintSym, t.constraintPool);
    var f := PrintList(PrintForeignKey, t.foreignKeyPool);
    StartsSplit(buf, pos, a, b + (c + (d + (e + f))));
    var p1 := pos + |a|;
    StartsSplit(buf, p1, b, c + (d + (e + f)));
    var p2 := p1 + |b|;
    StartsSplit(buf, p2, c, d + (e + f));
    var p3 := p2 + |c|;
    StartsSplit(buf, p3, d, e + f);
    var p4 := p3 + |d|;
    StartsSplit(buf, p4, e, f);
    TablesRead(m, buf, pos, t.tables);
    IndicesRead(m, buf, p1, t.byName);
    ColumnsRead(m, buf, p2, t.columns);
    NamesRead(m, buf, p3, t.columnNames);
    NamesRead(m, buf, p4, t.constraintPool);
    ForeignKeysRead(m, buf, p4 + |e|, t.foreignKeyPool);
  }

  /**
    The codec round trip: decoding an encoding, with anything behind it, in either
    mode, yields the schema itself: every table, column, pool and sentinel, the
    hash, and the same interner, so that every lookup answers as before.
   */
  lemma RoundTrip(m: bool, cfg: Config, s: DatabaseSchema, snapshot: seq<Byte>, behind: seq<Byte>)
    requires Fits(s.tables) && |s.hash| == HASH_SIZE && |snapshot| < U32_SIZE
    requires WellFormed(cfg, s.shards) && cfg == Standard(cfg.count, cfg.hash) && IsSnapshot(snapshot, s.shards)
    ensures Decode(m, cfg.hash, Encode(s, snapshot) + behind) == Parsed(s, |Encode(s, snapshot)|)
  {
    hide AsU32, ReadU32, ParseTables, PrintTables, Rebuild, Fits, WellFormed, IsSnapshot;
    var buf := Encode(s, snapshot) + behind;
    var rest := PrintTables(s.tables);
    assert Starts(buf, 0, Encode(s, snapshot));
    StartsSplit(buf, 0, s.hash, AsU32(|snapshot|) + (snapshot + rest));
    StartsSplit(buf, 32, AsU32(|snapshot|), snapshot + rest);
    ReadsU32(m, buf, 32, |snapshot|);
    StartsSplit(buf, 36, snapshot, rest);
    SnapshotRoundTrip(cfg, s.shards, snapshot, !m);
    AllTablesRead(m, buf, 36 + |snapshot|, s.tables);
  }

  // ----- truncated and extended input

  /** One of two buffers begins with the other. */
  ghost predicate Compatible(buf: seq<Byte>, buf': seq<Byte>) { buf <= buf' || buf' <= buf }

  /**
    A success on `buf` is the same success on any compatible buffer that reaches as
    far, and a failed read on a shorter one.
   */
  ghost predicate Stable<T>(r: Parse<T>, r': Parse<T>, m': bool, pos: nat, len: nat, len': nat) {
    r.Parsed? ==> pos <= r.next <= len && r' == if r.next <= len' then r else Fail(m')
  }

  lemma SliceAgrees(buf: seq<Byte>, buf': seq<Byte>, a: nat, b: nat)
    requires Compatible(buf, buf') && a <= b <= |buf| && b <= |buf'|
    ensures buf[a..b] == buf'[a..b]
  {
  }

  lemma StableU32(m: bool, m': bool, buf: seq<Byte>, buf': seq<Byte>, pos: nat)
    requires Compatible(buf, buf')
    ensures Stable(ReadU32(m, buf, pos), ReadU32(m', buf', pos), m', pos, |buf|, |buf'|)
  {
    if pos + 4 <= |buf| && pos + 4 <= |buf'| { SliceAgrees(buf, buf', pos, pos + 4); }
  }

  lemma StableU16(m: bool, m': bool, buf: seq<Byte>, buf': seq<Byte>, pos: nat)
    requires Compatible(buf, buf')
    ensures Stable(ReadU16(m, buf, pos), ReadU16(m', buf', pos), m', pos, |buf|, |buf'|)
  {
    if pos + 2 <= |buf| && pos + 2 <= |buf'| { SliceAgrees(buf, buf', pos, pos + 2); }
  }

  lemma StableU8(m: bool, m': bool, buf: seq<Byte>, buf': seq<Byte>, pos: nat)
    requires Compatible(buf, buf')
    ensures Stable(ReadU8(m, buf, pos), ReadU8(m', buf', pos), m', pos, |buf|, |buf'|)
  {
  }

  lemma StableBytes(m: bool, m': bool, buf: seq<Byte>, buf': seq<Byte>, pos: nat, n: nat)
    requires Compatible(buf, buf')
    ensures Stable(ReadBytes(m, buf, pos, n), ReadBytes(m', buf', pos, n), m', pos, |buf|, |buf'|)
  {
    if pos + n <= |buf| && pos + n <= |buf'| { SliceAgrees(buf, buf', pos, pos + n); }
  }

  lemma StableSym(m: bool, m': bool, buf: seq<Byte>, buf': seq<Byte>, pos: nat)
    requires Compatible(buf, buf')
    ensures Stable(ReadSym(m, buf, pos), ReadSym(m', buf', pos), m', pos, |buf|, |buf'|)
  {
    hide ReadU32;
    StableU32(m, m', buf, buf', pos);
  }

  lemma StableTable(m: bool, m': bool, buf: seq<Byte>, buf': seq<Byte>, pos: nat)
    requires Compatible(buf, buf')
    ensures Stable(ParseTable(m, buf, pos), ParseTable(m', buf', pos), m', pos, |buf|, |buf'|)
  {
    hide ReadU32, ReadU16, ReadSym, Compatible;
    if ParseTable(m, buf, pos).Parsed? {
      var p1 := ReadSym(m, buf, pos).next;
      var p2 := ReadU32(m, buf, p1).next;
      var p3 := ReadU16(m, buf, p2).next;
      var p4 := ReadU16(m, buf, p3).next;
      var p5 := ReadU32(m, buf, p4).next;
      StableSym(m, m', buf, buf', pos);
      StableU32(m, m', buf, buf', p1);
      StableU16(m, m', buf, buf', p2);
      StableU16(m, m', buf, buf', p3);
      StableU32(m, m', buf, buf', p4);
      StableU16(m, m', buf, buf', p5);
    }
  }

  lemma StableType(m: bool, m': bool, buf: seq<Byte>, buf': seq<Byte>, pos: nat)
    requires Compatible(buf, buf')
    ensures Stable(ParseType(m, buf, pos), ParseType(m', buf', pos), m', pos, |buf|, |buf'|)
  {
    hide ReadU8, ReadSym, Compatible;
    if ParseType(m, buf, pos).Parsed? {
      StableU8(m, m', buf, buf', pos);
      StableSym(m, m', buf, buf', ReadU8(m, buf, pos).next);
    }
  }

  lemma StableRange(m: bool, m': bool, buf: seq<Byte>, buf': seq<Byte>, pos: nat)
    requires Compatible(buf, buf')
    ensures Stable(ParseRange(m, buf, pos), ParseRange(m', buf', pos), m', pos, |buf|, |buf'|)
  {
    hide ReadU32, ReadU16, Compatible;
    if ParseRange(m, buf, pos).Parsed? {
      StableU32(m, m', buf, buf', pos);
      StableU16(m, m', buf, buf', ReadU32(m, buf, pos).next);
    }
  }

  lemma StableSymOpt(m: bool, m': bool, buf: seq<Byte>, buf': seq<Byte>, pos: nat)
    requires Compatible(buf, buf')
    ensures Stable(ReadSymOpt(m, buf, pos), ReadSymOpt(m', buf', pos), m', pos, |buf|, |buf'|)
  {
    hide ReadU32;
    StableU32(m, m', buf, buf', pos);
  }

  lemma StableColumn(m: bool, m': bool, buf: seq<Byte>, buf': seq<Byte>, pos: nat)
    requires Compatible(buf, buf')
    ensures Stable(ParseColumn(m, buf, pos), ParseColumn(m', buf', pos), m', pos, |buf|, |buf'|)
  {
    hide ReadSym, ParseType, ReadSymOpt, ReadU8, ParseRange, Compatible;
    if ParseColumn(m, buf, pos).Parsed? {
      var p1 := ReadSym(m, buf, pos).next;
      var p2 := ParseType(m, buf, p1).next;
      var p3 := ReadSymOpt(m, buf, p2).next;
      var p4 := ReadU8(m, buf, p3).next;
      var p5 := ParseRange(m, buf, p4).next;
      StableSym(m, m', buf, buf', pos);
      StableType(m, m', buf, buf', p1);
      StableSymOpt(m, m', buf, buf', p2);
      StableU8(m, m', buf, buf', p3);
      StableRange(m, m', buf, buf', p4);
      StableRange(m, m', buf, buf', p5);
    }
  }

  lemma StableAction(m: bool, m': bool, buf: seq<Byte>, buf': seq<Byte>, pos: nat)
    requires Compatible(buf, buf')
    ensures Stable(ParseAction(m, buf, pos), ParseAction(m', buf', pos), m', pos, |buf|, |buf'|)
  {
    hide ReadU8;
    StableU8(m, m', buf, buf', pos);
  }

  lemma StableForeignKey(m: bool, m': bool, buf: seq<Byte>, buf': seq<Byte>, pos: nat)
    requires Compatible(buf, buf')
    ensures Stable(ParseForeignKey(m, buf, pos), ParseForeignKey(m', buf', pos), m', pos, |buf|, |buf'|)
  {
    hide ReadSym, ReadU16, ParseAction, Compatible;
    if ParseForeignKey(m, buf, pos).Parsed? {
      var p1 := ReadSym(m, buf, pos).next;
      var p2 := ReadSym(m, buf, p1).next;
      var p3 := ReadU16(m, buf, p2).next;
      var p4 := ReadU16(m, buf, p3).next;
      var p5 := ParseAction(m, buf, p4).next;
      StableSym(m, m', buf, buf', pos);
      StableSym(m, m', buf, buf', p1);
      StableU16(m, m', buf, buf', p2);
      StableU16(m, m', buf, buf', p3);
      StableAction(m, m', buf, buf', p4);
      StableAction(m, m', buf, buf', p5);
    }
  }

  /** Two parsers of elements that are stable at every position. */
  ghost predicate StableParsers<T>(p: Parser<T>, p': Parser<T>, m': bool, buf: seq<Byte>, buf': seq<Byte>) {
    forall pos: nat :: Stable(p(buf, pos), p'(buf', pos), m', pos, |buf|, |buf'|)
  }

  lemma {:induction false} StableMany<T>(p: Parser<T>, p': Parser<T>, m': bool, buf: seq<Byte>, buf': seq<Byte>,
                                         pos: nat, n: nat)
    requires StableParsers(p, p', m', buf, buf') && pos <= |buf| && pos <= |buf'|
    ensures Stable(ParseMany(p, buf, pos, n), ParseMany(p', buf', pos, n), m', pos, |buf|, |buf'|)
    decreases n
  {
    if n > 0 {
      assert Stable(p(buf, pos), p'(buf', pos), m', pos, |buf|, |buf'|);
      if p(buf, pos).Parsed? && p(buf, pos).next <= |buf'| {
        StableMany(p, p', m', buf, buf', p(buf, pos).next, n - 1);
      } else if p(buf, pos).Parsed? {
        ManyBounded(p, p', m', buf, buf', p(buf, pos).next, n - 1);
      }
    }
  }

  lemma {:induction false} ManyBounded<T>(p: Parser<T>, p': Parser<T>, m': bool, buf: seq<Byte>, buf': seq<Byte>,
                                          pos: nat, n: nat)
    requires StableParsers(p, p', m', buf, buf') && pos <= |buf|
    ensures var r := ParseMany(p, buf, pos, n); r.Parsed? ==> pos <= r.next <= |buf|
    decreases n
  {
    if n > 0 {
      assert Stable(p(buf, pos), p'(buf', pos), m', pos, |buf|, |buf'|);
      if p(buf, pos).Parsed? { ManyBounded(p, p', m', buf, buf', p(buf, pos).next, n - 1); }
    }
  }

  lemma StableList<T>(m: bool, m': bool, p: Parser<T>, p': Parser<T>, buf: seq<Byte>, buf': seq<Byte>, pos: nat)
    requires StableParsers(p, p', m', buf, buf') && Compatible(buf, buf')
    ensures Stable(ParseList(m, p, buf, pos), ParseList(m', p', buf', pos), m', pos, |buf|, |buf'|)
  {
    hide ReadU32, ParseMany, Compatible, StableParsers;
    StableU32(m, m', buf, buf', pos);
    var r := ReadU32(m, buf, pos);
    if r.Parsed? {
      if r.next <= |buf'| {
        StableMany(p, p', m', buf, buf', r.next, r.value);
      } else {
        ManyBounded(p, p', m', buf, buf', r.next, r.value);
      }
    }
  }

  lemma StableElements(m: bool, m': bool, buf: seq<Byte>, buf': seq<Byte>)
    requires Compatible(buf, buf')
    ensures StableParsers(Tables1(m), Tables1(m'), m', buf, buf')
    ensures StableParsers(Indices(m), Indices(m'), m', buf, buf')
    ensures StableParsers(Columns(m), Columns(m'), m', buf, buf')
    ensures StableParsers(Names(m), Names(m'), m', buf, buf')
    ensures StableParsers(ForeignKeys(m), ForeignKeys(m'), m', buf, buf')
  {
    hide ParseTable, ReadU16, ParseColumn, ReadSym, ParseForeignKey, Stable;
    forall pos: nat ensures Stable(Tables1(m)(buf, pos), Tables1(m')(buf', pos), m', pos, |buf|, |buf'|) {
      StableTable(m, m', buf, buf', pos);
    }
    forall pos: nat ensures Stable(Indices(m)(buf, pos), Indices(m')(buf', pos), m', pos, |buf|, |buf'|) {
      StableU16(m, m', buf, buf', pos);
    }
    forall pos: nat ensures Stable(Columns(m)(buf, pos), Columns(m')(buf', pos), m', pos, |buf|, |buf'|) {
      StableColumn(m, m', buf, buf', pos);
    }
    forall pos: nat ensures Stable(Names(m)(buf, pos), Names(m')(buf', pos), m', pos, |buf|, |buf'|) {
      StableSym(m, m', buf, buf', pos);
    }
    forall pos: nat ensures Stable(ForeignKeys(m)(buf, pos), ForeignKeys(m')(buf', pos), m', pos, |buf|, |buf'|) {
      StableForeignKey(m, m', buf, buf', pos);
    }
  }

  lemma StableTables(m: bool, m': bool, buf: seq<Byte>, buf': seq<Byte>, pos: nat)
    requires Compatible(buf, buf')
    ensures Stable(ParseTables(m, buf, pos), ParseTables(m', buf', pos), m', pos, |buf|, |buf'|)
  {
    hide ParseList, Compatible, StableParsers;
    StableElements(m, m', buf, buf');
    if ParseTables(m, buf, pos).Parsed? {
      var p1 := ParseList(m, Tables1(m), buf, pos).next;
      var p2 := ParseList(m, Indices(m), buf, p1).next;
      var p3 := ParseList(m, Columns(m), buf, p2).next;
      var p4 := ParseList(m, Names(m), buf, p3).next;
      var p5 := ParseList(m, Names(m), buf, p4).next;
      StableList(m, m', Tables1(m), Tables1(m'), buf, buf', pos);
      StableList(m, m', Indices(m), Indices(m'), buf, buf', p1);
      StableList(m, m', Columns(m), Columns(m'), buf, buf', p2);
      StableList(m, m', Names(m), Names(m'), buf, buf', p3);
      StableList(m, m', Names(m), Names(m'), buf, buf', p4);
      StableList(m, m', ForeignKeys(m), ForeignKeys(m'), buf, buf', p5);
    }
  }

  /** The bytes that a successful decode hands to the interner. */
  function InternerBytes(buf: seq<Byte>): seq<Byte> {
    if |buf| < 36 then [] else
    var n := Word32(buf[32..36]);
    if 36 + n > |buf| then [] else buf[36..36 + n]
  }

  /** All records of the interner's bytes are valid UTF-8. */
  ghost predicate TextsValid(buf: seq<Byte>) {
    forall v | v in Texts(InternerBytes(buf), 4, false) :: ValidUtf8(v)
  }

  /**
    If a buffer decodes, then so does every buffer that continues it or that it
    continues, as long as it reaches as far: to the same schema. A shorter one is
    `None`. And `decode_unchecked` agrees with `decode` wherever that succeeds, if
    all interned texts are valid UTF-8.
   */
  lemma DecodeStable(m: bool, m': bool, hash: Str -> nat, buf: seq<Byte>, buf': seq<Byte>)
    requires Compatible(buf, buf') && Decode(m, hash, buf).Parsed? && (m != m' ==> TextsValid(buf))
    ensures Stable(Decode(m, hash, buf), Decode(m', hash, buf'), m', 0, |buf|, |buf'|)
  {
    hide Word32, ParseTables, Compatible, Rebuild;
    StableBytes(m, m', buf, buf', 0, HASH_SIZE);
    StableU32(m, m', buf, buf', 32);
    var n := ReadU32(m, buf, 32).value;
    StableBytes(m, m', buf, buf', 36, n);
    InternerPart(m, buf);
    StableTables(m, m', buf, buf', 36 + n);
    if m != m' {
      RebuildModes(hash, InternerBytes(buf));
    }
  }

  lemma InternerPart(m: bool, buf: seq<Byte>)
    requires ReadU32(m, buf, 32).Parsed? && ReadBytes(m, buf, 36, ReadU32(m, buf, 32).value).Parsed?
    ensures ReadU32(m, buf, 32).next == 36
    ensures InternerBytes(buf) == ReadBytes(m, buf, 36, ReadU32(m, buf, 32).value).value
  {
  }

  lemma RebuildModes(hash: Str -> nat, bytes: seq<Byte>)
    requires forall v | v in Texts(bytes, 4, false) :: ValidUtf8(v)
    ensures Rebuild(hash, bytes, true) == Rebuild(hash, bytes, false)
  {
    TextsUnchecked(bytes, 4);
  }

  /** Every strict prefix of an encoding decodes to `None`. */
  lemma PrefixRejected(cfg: Config, s: DatabaseSchema, snapshot: seq<Byte>, k: nat)
    requires Fits(s.tables) && |s.hash| == HASH_SIZE && |snapshot| < U32_SIZE
    requires WellFormed(cfg, s.shards) && cfg == Standard(cfg.count, cfg.hash) && IsSnapshot(snapshot, s.shards)
    requires k < |Encode(s, snapshot)|
    ensures Decode(false, cfg.hash, Encode(s, snapshot)[..k]) == Rejected
  {
    hide Fits, IsSnapshot, WellFormed, Decode, Standard, Encode;
    var buf := Encode(s, snapshot);
    RoundTrip(false, cfg, s, snapshot, []);
    assert buf + [] == buf;
    DecodeStable(false, false, cfg.hash, buf, buf[..k]);
  }

  /** `decode` and `decode_unchecked`: read part by part, advancing through the buffer. */
  method DecodeSchema(m: bool, hash: Str -> nat, buf: seq<Byte>) returns (r: Parse<DatabaseSchema>)
    ensures r == Decode(m, hash, buf)
  {
    hide ReadU32, ParseMany, Rebuild, Tables1, Indices, Columns, Names, ForeignKeys;
    var digest := ReadBytes(m, buf, 0, HASH_SIZE);
    if digest.IsFailure() { return digest.PropagateFailure(); }
    var internerLen := ReadU32(m, buf, digest.next);
    if internerLen.IsFailure() { return internerLen.PropagateFailure(); }
    var interner := ReadBytes(m, buf, internerLen.next, internerLen.value);
    if interner.IsFailure() { return interner.PropagateFailure(); }
    var shards := Rebuild(hash, interner.value, !m);
    if shards.None? { return Panics; }
    var tables := ReadList(m, Tables1(m), buf, interner.next);
    if tables.IsFailure() { return tables.PropagateFailure(); }
    var byName := ReadList(m, Indices(m), buf, tables.next);
    if byName.IsFailure() { return byName.PropagateFailure(); }
    var columns := ReadList(m, Columns(m), buf, byName.next);
    if columns.IsFailure() { return columns.PropagateFailure(); }
    var columnNames := ReadList(m, Names(m), buf, columns.next);
    if columnNames.IsFailure() { return columnNames.PropagateFailure(); }
    var constraintPool := ReadList(m, Names(m), buf, columnNames.next);
    if constraintPool.IsFailure() { return constraintPool.PropagateFailure(); }
    var foreignKeyPool := ReadList(m, ForeignKeys(m), buf, constraintPool.next);
    if foreignKeyPool.IsFailure() { return foreignKeyPool.PropagateFailure(); }
    r := Parsed(DatabaseSchema(Tables(tables.value, byName.value, columns.value, columnNames.value,
                                      constraintPool.value, foreignKeyPool.value), digest.value, shards.value),
                foreignKeyPool.next);
  }

  method ReadList<T>(m: bool, p: Parser<T>, buf: seq<Byte>, pos: nat) returns (r: Parse<seq<T>>)
    ensures r == ParseList(m, p, buf, pos)
  {
    var n := ReadU32(m, buf, pos);
    if n.IsFailure() { return n.PropagateFailure(); }
    r := ReadMany(p, buf, n.next, n.value);
  }
}
