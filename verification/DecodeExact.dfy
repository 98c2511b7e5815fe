/**
  Which bytes decode: the encodings and nothing else. Whatever either decoder accepts
  is, byte for byte, what the encoder writes for the schema that it returns.
 */
module DecodeExact {
  import opened Bytes
  import opened Symbols
  import opened InternerModel
  import opened SchemaTypes
  import opened Codec
  import opened SchemaCodec

  /** What was read at `pos` is what is written for it. */
  ghost predicate Exact<T>(r: Parse<T>, buf: seq<Byte>, pos: nat, bytes: seq<Byte>) {
    r.Parsed? && Starts(buf, pos, bytes) && r.next == pos + |bytes|
  }

  lemma StartsJoin(buf: seq<Byte>, pos: nat, a: seq<Byte>, b: seq<Byte>)
    requires Starts(buf, pos, a) && Starts(buf, pos + |a|, b)
    ensures Starts(buf, pos, a + b)
  {
    var end := pos + |a| + |b|;
    assert buf[pos..end] == buf[pos..pos + |a|] + buf[pos + |a|..end];
  }

  // ----- numbers and symbols

  lemma U32Exact(m: bool, buf: seq<Byte>, pos: nat)
    requires ReadU32(m, buf, pos).Parsed?
    ensures var r := ReadU32(m, buf, pos);
            r.value < U32_SIZE && |AsU32(r.value)| == 4 && Exact(r, buf, pos, AsU32(r.value))
  {
    hide Word32, Le32;
    FourBytes(buf[pos..pos + 4]);
  }

  lemma FourBytes(b: seq<Byte>)
    requires |b| == 4
    ensures Le32(Word32(b)) == b
  {
    hide Word32, Le32;
    Word32Injective(b, Le32(Word32(b)));
  }

  lemma TwoBytes(b: seq<Byte>)
    requires |b| == 2
    ensures Le16(Word16(b)) == b
  {
    assert Word16(b) % 256 == b[0] as int && Word16(b) / 256 == b[1] as int;
  }

  lemma U16Exact(m: bool, buf: seq<Byte>, pos: nat)
    requires ReadU16(m, buf, pos).Parsed?
    ensures var r := ReadU16(m, buf, pos);
            r.value < U16_SIZE && |AsU16(r.value)| == 2 && Exact(r, buf, pos, AsU16(r.value))
  {
    hide Word16, Le16;
    TwoBytes(buf[pos..pos + 2]);
  }

  lemma U8Exact(m: bool, buf: seq<Byte>, pos: nat)
    requires ReadU8(m, buf, pos).Parsed?
    ensures var r := ReadU8(m, buf, pos);
            r.value < 256 && |AsU8(r.value)| == 1 && Exact(r, buf, pos, AsU8(r.value))
  {
  }

  lemma SymExact(m: bool, buf: seq<Byte>, pos: nat)
    requires ReadSym(m, buf, pos).Parsed?
    ensures var r := ReadSym(m, buf, pos); |AsU32(r.value)| == 4 && Exact(r, buf, pos, AsU32(r.value))
  {
    hide ReadU32, AsU32, Starts;
    U32Exact(m, buf, pos);
  }

  lemma SymOptExact(m: bool, buf: seq<Byte>, pos: nat)
    requires ReadSymOpt(m, buf, pos).Parsed?
    ensures var r := ReadSymOpt(m, buf, pos); |PrintSymOpt(r.value)| == 4 && Exact(r, buf, pos, PrintSymOpt(r.value))
  {
    hide ReadU32, AsU32, Starts;
    U32Exact(m, buf, pos);
  }

  // ----- records

  lemma TableExact(m: bool, buf: seq<Byte>, pos: nat)
    requires ParseTable(m, buf, pos).Parsed?
    ensures var r := ParseTable(m, buf, pos); TableFits(r.value) && Exact(r, buf, pos, PrintTable(r.value))
  {
    hide AsU32, AsU16, ReadU32, ReadU16, ReadSym, Starts;
    var t := ParseTable(m, buf, pos).value;
    SymExact(m, buf, pos);
    U32Exact(m, buf, pos + 4);
    U16Exact(m, buf, pos + 8);
    var pk := ReadU16(m, buf, pos + 10).value;
    U16Exact(m, buf, pos + 10);
    U32Exact(m, buf, pos + 12);
    U16Exact(m, buf, pos + 16);
    var a, b, c := AsU32(t.name), AsU32(t.columnsStart), AsU16(t.columnsLen);
    var d, e, f := AsU16(pk), AsU32(t.fkStart), AsU16(t.fkLen);
    StartsJoin(buf, pos, a, b);
    StartsJoin(buf, pos, a + b, c);
    StartsJoin(buf, pos, a + b + c, d);
    StartsJoin(buf, pos, a + b + c + d, e);
    StartsJoin(buf, pos, a + b + c + d + e, f);
  }

  lemma TypeExact(m: bool, buf: seq<Byte>, pos: nat)
    requires ParseType(m, buf, pos).Parsed?
    ensures var r := ParseType(m, buf, pos); Exact(r, buf, pos, PrintType(r.value))
  {
    hide AsU32, AsU8, ReadU8, ReadSym, Starts;
    U8Exact(m, buf, pos);
    var tag := ReadU8(m, buf, pos).value;
    if tag == 14 {
      SymExact(m, buf, pos + 1);
      StartsJoin(buf, pos, AsU8(14), AsU32(ReadSym(m, buf, pos + 1).value));
    } else {
      PlainTag(tag);
      assert PrintType(Plain(tag).value) == AsU8(tag) + [] == AsU8(tag);
    }
  }

  lemma PlainTag(tag: nat)
    requires Plain(tag).Some?
    ensures Tag(Plain(tag).value) == tag && !Plain(tag).value.Custom?
  {
  }

  lemma RangeExact(m: bool, buf: seq<Byte>, pos: nat)
    requires ParseRange(m, buf, pos).Parsed?
    ensures var r := ParseRange(m, buf, pos);
            RangeFits(r.value) && |PrintRange(r.value)| == 6 && Exact(r, buf, pos, PrintRange(r.value))
  {
    hide AsU32, AsU16, ReadU32, ReadU16, Starts;
    U32Exact(m, buf, pos);
    U16Exact(m, buf, pos + 4);
    var r := ParseRange(m, buf, pos).value;
    StartsJoin(buf, pos, AsU32(r.start), AsU16(r.len));
  }

  lemma ColumnExact(m: bool, buf: seq<Byte>, pos: nat)
    requires ParseColumn(m, buf, pos).Parsed?
    ensures var r := ParseColumn(m, buf, pos); ColumnFits(r.value) && Exact(r, buf, pos, PrintColumn(r.value))
  {
    hide AsU32, AsU8, PrintType, PrintSymOpt, PrintRange, ReadSym, ReadU8, ReadSymOpt, ParseType, ParseRange, Starts,
         RangeFits;
    var c := ParseColumn(m, buf, pos).value;
    SymExact(m, buf, pos);
    TypeExact(m, buf, pos + 4);
    var p := pos + 4 + |PrintType(c.dataType)|;
    SymOptExact(m, buf, p);
    U8Exact(m, buf, p + 4);
    RangeExact(m, buf, p + 5);
    RangeExact(m, buf, p + 11);
    var a, b, d := AsU32(c.name), PrintType(c.dataType), PrintSymOpt(c.defaultValue);
    var e, f, g := AsU8(c.flags), PrintRange(c.constraints), PrintRange(c.foreignKeys);
    StartsJoin(buf, pos, a, b);
    StartsJoin(buf, pos, a + b, d);
    StartsJoin(buf, pos, a + b + d, e);
    StartsJoin(buf, pos, a + b + d + e, f);
    StartsJoin(buf, pos, a + b + d + e + f, g);
  }

  lemma ActionExact(m: bool, buf: seq<Byte>, pos: nat)
    requires ParseAction(m, buf, pos).Parsed?
    ensures var r := ParseAction(m, buf, pos);
            |AsU8(ActionCode(r.value))| == 1 && Exact(r, buf, pos, AsU8(ActionCode(r.value)))
  {
    hide AsU8, ReadU8, Starts;
    U8Exact(m, buf, pos);
  }

  lemma ForeignKeyExact(m: bool, buf: seq<Byte>, pos: nat)
    requires ParseForeignKey(m, buf, pos).Parsed?
    ensures var r := ParseForeignKey(m, buf, pos);
            ForeignKeyFits(r.value) && Exact(r, buf, pos, PrintForeignKey(r.value))
  {
    hide AsU32, AsU16, AsU8, ReadSym, ReadU16, ParseAction, Starts;
    var k := ParseForeignKey(m, buf, pos).value;
    SymExact(m, buf, pos);
    SymExact(m, buf, pos + 4);
    U16Exact(m, buf, pos + 8);
    U16Exact(m, buf, pos + 10);
    ActionExact(m, buf, pos + 12);
    ActionExact(m, buf, pos + 13);
    var a, b, c, d := AsU32(k.constraintName), AsU32(k.namespace), AsU16(k.table), AsU16(k.column);
    var e, f := AsU8(ActionCode(k.onUpdate)), AsU8(ActionCode(k.onDelete));
    StartsJoin(buf, pos, a, b);
    StartsJoin(buf, pos, a + b, c);
    StartsJoin(buf, pos, a + b + c, d);
    StartsJoin(buf, pos, a + b + c + d, e);
    StartsJoin(buf, pos, a + b + c + d + e, f);
  }

  // ----- lists

  /** Wherever the parser succeeds it has read what is written for an element that fits. */
  ghost predicate ExactAt<T(!new)>(p: Parser<T>, show: T -> seq<Byte>, fits: T -> bool, buf: seq<Byte>) {
    forall pos: nat | p(buf, pos).Parsed? ::
      fits(p(buf, pos).value) && Exact(p(buf, pos), buf, pos, show(p(buf, pos).value))
  }

  ghost predicate AllFit<T>(fits: T -> bool, xs: seq<T>) { forall i | 0 <= i < |xs| :: fits(xs[i]) }

  lemma OneExact<T(!new)>(p: Parser<T>, show: T -> seq<Byte>, fits: T -> bool, buf: seq<Byte>, pos: nat)
    requires ExactAt(p, show, fits, buf) && p(buf, pos).Parsed?
    ensures var r := p(buf, pos); fits(r.value) && Exact(r, buf, pos, show(r.value))
  {
  }

  lemma {:induction false} ManyExact<T(!new)>(p: Parser<T>, show: T -> seq<Byte>, fits: T -> bool, buf: seq<Byte>,
                                              pos: nat, n: nat)
    requires ExactAt(p, show, fits, buf) && ParseMany(p, buf, pos, n).Parsed? && pos <= |buf|
    ensures var r := ParseMany(p, buf, pos, n);
            |r.value| == n && AllFit(fits, r.value) && Exact(r, buf, pos, PrintMany(show, r.value))
    decreases n
  {
    var r := ParseMany(p, buf, pos, n);
    if n == 0 {
      assert buf[pos..pos] == [];
    } else {
      OneExact(p, show, fits, buf, pos);
      var x := p(buf, pos);
      assert x.next <= |buf|;
      hide ExactAt, Starts;
      ManyExact(p, show, fits, buf, x.next, n - 1);
      var rest := ParseMany(p, buf, x.next, n - 1);
      assert r.value == [x.value] + rest.value && r.value[1..] == rest.value;
      StartsJoin(buf, pos, show(x.value), PrintMany(show, rest.value));
    }
  }

  lemma ListExact<T(!new)>(m: bool, p: Parser<T>, show: T -> seq<Byte>, fits: T -> bool, buf: seq<Byte>, pos: nat)
    requires ExactAt(p, show, fits, buf) && ParseList(m, p, buf, pos).Parsed?
    ensures var r := ParseList(m, p, buf, pos);
            |r.value| < U32_SIZE && AllFit(fits, r.value) && Exact(r, buf, pos, PrintList(show, r.value))
  {
    U32Exact(m, buf, pos);
    var n := ReadU32(m, buf, pos);
    assert n.next <= |buf|;
    hide ExactAt, Starts, ReadU32, AsU32, PrintMany, ParseMany;
    ManyExact(p, show, fits, buf, n.next, n.value);
    StartsJoin(buf, pos, AsU32(n.value), PrintMany(show, ParseMany(p, buf, n.next, n.value).value));
  }

  // ----- the schema

  lemma ElementsExact(m: bool, buf: seq<Byte>)
    ensures ExactAt(Tables1(m), PrintTable, TableFits, buf)
    ensures ExactAt(Indices(m), AsU16, IndexFits, buf)
    ensures ExactAt(Columns(m), PrintColumn, ColumnFits, buf)
    ensures ExactAt(Names(m), PrintSym, AnySymbol, buf)
    ensures ExactAt(ForeignKeys(m), PrintForeignKey, ForeignKeyFits, buf)
  {
    hide Exact, ParseTable, ReadU16, ParseColumn, ReadSym, ParseForeignKey, PrintTable, PrintColumn, PrintForeignKey,
         AsU16, AsU32, TableFits, ColumnFits, ForeignKeyFits;
    forall pos: nat | ParseTable(m, buf, pos).Parsed?
      ensures TableFits(ParseTable(m, buf, pos).value)
      ensures Exact(ParseTable(m, buf, pos), buf, pos, PrintTable(ParseTable(m, buf, pos).value))
    {
      TableExact(m, buf, pos);
    }
    forall pos: nat | ReadU16(m, buf, pos).Parsed?
      ensures IndexFits(ReadU16(m, buf, pos).value)
      ensures Exact(ReadU16(m, buf, pos), buf, pos, AsU16(ReadU16(m, buf, pos).value))
    {
      U16Exact(m, buf, pos);
    }
    forall pos: nat | ParseColumn(m, buf, pos).Parsed?
      ensures ColumnFits(ParseColumn(m, buf, pos).value)
      ensures Exact(ParseColumn(m, buf, pos), buf, pos, PrintColumn(ParseColumn(m, buf, pos).value))
    {
      ColumnExact(m, buf, pos);
    }
    forall pos: nat | ReadSym(m, buf, pos).Parsed?
      ensures Exact(ReadSym(m, buf, pos), buf, pos, AsU32(ReadSym(m, buf, pos).value))
    {
      SymExact(m, buf, pos);
    }
    forall pos: nat | ParseForeignKey(m, buf, pos).Parsed?
      ensures ForeignKeyFits(ParseForeignKey(m, buf, pos).value)
      ensures Exact(ParseForeignKey(m, buf, pos), buf, pos, PrintForeignKey(ParseForeignKey(m, buf, pos).value))
    {
      ForeignKeyExact(m, buf, pos);
    }
  }

  predicate AnySymbol(s: Symbol) { true }

  lemma TablesExact(m: bool, buf: seq<Byte>, pos: nat)
    requires ParseTables(m, buf, pos).Parsed?
    ensures var r := ParseTables(m, buf, pos); Fits(r.value) && Exact(r, buf, pos, PrintTables(r.value))
  {
    hide ParseList, PrintList, Starts, ExactAt, TableFits, ColumnFits, ForeignKeyFits;
    ElementsExact(m, buf);
    var t := ParseTables(m, buf, pos).value;
    var a, b, c := PrintList(PrintTable, t.tables), PrintList(AsU16, t.byName), PrintList(PrintColumn, t.columns);
    var d, e := PrintList(PrintSym, t.columnNames), PrintList(PrintSym, t.constraintPool);
    var f := PrintList(PrintForeignKey, t.foreignKeyPool);
    var p1 := pos + |a|;
    var p2 := p1 + |b|;
    var p3 := p2 + |c|;
    var p4 := p3 + |d|;
    ListExact(m, Tables1(m), PrintTable, TableFits, buf, pos);
    ListExact(m, Indices(m), AsU16, IndexFits, buf, p1);
    ListExact(m, Columns(m), PrintColumn, ColumnFits, buf, p2);
    ListExact(m, Names(m), PrintSym, AnySymbol, buf, p3);
    ListExact(m, Names(m), PrintSym, AnySymbol, buf, p4);
    ListExact(m, ForeignKeys(m), PrintForeignKey, ForeignKeyFits, buf, p4 + |e|);
    StartsJoin(buf, p4, e, f);
    StartsJoin(buf, p3, d, e + f);
    StartsJoin(buf, p2, c, d + (e + f));
    StartsJoin(buf, p1, b, c + (d + (e + f)));
    StartsJoin(buf, pos, a, b + (c + (d + (e + f))));
  }

  /** The encoding of a schema whose numbers fit and whose snapshot reads as its interner stands in front. */
  ghost predicate IsEncoding(m: bool, hash: Str -> nat, buf: seq<Byte>, s: DatabaseSchema, snapshot: seq<Byte>) {
    && Fits(s.tables) && |s.hash| == HASH_SIZE && |snapshot| < U32_SIZE
    && Rebuild(hash, snapshot, !m) == Some(s.shards)
    && Encode(s, snapshot) <= buf
  }

  lemma DecodedIs(m: bool, hash: Str -> nat, buf: seq<Byte>) returns (snapshot: seq<Byte>)
    requires Decode(m, hash, buf).Parsed?
    ensures var r := Decode(m, hash, buf);
            IsEncoding(m, hash, buf, r.value, snapshot) && r.next == |Encode(r.value, snapshot)|
  {
    hide ReadU32, AsU32, ParseTables, PrintTables, Rebuild, Fits;
    var s := Decode(m, hash, buf).value;
    U32Exact(m, buf, 32);
    snapshot := ReadBytes(m, buf, 36, ReadU32(m, buf, 32).value).value;
    var p := 36 + |snapshot|;
    TablesExact(m, buf, p);
    assert Starts(buf, 0, s.hash) && Starts(buf, 36, snapshot);
    hide Starts, ReadBytes;
    StartsJoin(buf, 36, snapshot, PrintTables(s.tables));
    StartsJoin(buf, 32, AsU32(|snapshot|), snapshot + PrintTables(s.tables));
    StartsJoin(buf, 0, s.hash, AsU32(|snapshot|) + (snapshot + PrintTables(s.tables)));
    StartsPrefix(buf, Encode(s, snapshot));
  }

  lemma StartsPrefix(buf: seq<Byte>, bytes: seq<Byte>)
    ensures Starts(buf, 0, bytes) <==> bytes <= buf
  {
    if |bytes| <= |buf| { assert buf[0..|bytes|] == buf[..|bytes|]; }
  }

  lemma EncodingDecodes(m: bool, hash: Str -> nat, buf: seq<Byte>, s: DatabaseSchema, snapshot: seq<Byte>)
    requires IsEncoding(m, hash, buf, s, snapshot)
    ensures Decode(m, hash, buf) == Parsed(s, |Encode(s, snapshot)|)
  {
    hide AsU32, ReadU32, ParseTables, PrintTables, Rebuild, Fits;
    var rest := PrintTables(s.tables);
    StartsPrefix(buf, Encode(s, snapshot));
    StartsSplit(buf, 0, s.hash, AsU32(|snapshot|) + (snapshot + rest));
    StartsSplit(buf, 32, AsU32(|snapshot|), snapshot + rest);
    ReadsU32(m, buf, 32, |snapshot|);
    StartsSplit(buf, 36, snapshot, rest);
    AllTablesRead(m, buf, 36 + |snapshot|, s.tables);
  }

  /**
    Either decoder yields a schema exactly for the buffers that begin with an encoding
    of it: no other bytes are accepted, and no two schemas have the same bytes.
   */
  lemma DecodesIff(m: bool, hash: Str -> nat, buf: seq<Byte>, s: DatabaseSchema)
    ensures (exists next :: Decode(m, hash, buf) == Parsed(s, next)) <==>
            exists snapshot :: IsEncoding(m, hash, buf, s, snapshot)
  {
    hide Decode, IsEncoding;
    if next :| Decode(m, hash, buf) == Parsed(s, next) {
      var snapshot := DecodedIs(m, hash, buf);
    }
    if snapshot :| IsEncoding(m, hash, buf, s, snapshot) { EncodingDecodes(m, hash, buf, s, snapshot); }
  }

  // ----- what goes wrong

  /** Only `decode` answers `None`, and only `decode_unchecked` runs into undefined behaviour. */
  ghost predicate Kind<T>(m: bool, r: Parse<T>) { (r.Rejected? ==> !m) && (r.Undefined? ==> m) }

  /** As `Kind`, for a parser that never panics. */
  ghost predicate Calm<T>(m: bool, r: Parse<T>) { Kind(m, r) && !r.Panics? }

  lemma {:induction false} ManyKinds<T(!new)>(m: bool, p: Parser<T>, buf: seq<Byte>, pos: nat, n: nat)
    requires forall q: nat :: Kind(m, p(buf, q))
    ensures Kind(m, ParseMany(p, buf, pos, n))
    ensures (forall q: nat :: Calm(m, p(buf, q))) ==> Calm(m, ParseMany(p, buf, pos, n))
    decreases n
  {
    if n > 0 && p(buf, pos).Parsed? { ManyKinds(m, p, buf, p(buf, pos).next, n - 1); }
  }

  lemma ListKinds<T(!new)>(m: bool, p: Parser<T>, buf: seq<Byte>, pos: nat)
    requires forall q: nat :: Kind(m, p(buf, q))
    ensures Kind(m, ParseList(m, p, buf, pos))
    ensures (forall q: nat :: Calm(m, p(buf, q))) ==> Calm(m, ParseList(m, p, buf, pos))
  {
    if ReadU32(m, buf, pos).Parsed? { ManyKinds(m, p, buf, ReadU32(m, buf, pos).next, ReadU32(m, buf, pos).value); }
  }

  lemma ElementKinds(m: bool, buf: seq<Byte>, pos: nat)
    ensures Calm(m, ParseTable(m, buf, pos)) && Calm(m, ReadU16(m, buf, pos)) && Calm(m, ReadSym(m, buf, pos))
    ensures Calm(m, ParseColumn(m, buf, pos)) && Kind(m, ParseForeignKey(m, buf, pos))
  {
    ColumnKinds(m, buf, pos);
    hide Word32, ParseColumn;
  }

  lemma ColumnKinds(m: bool, buf: seq<Byte>, pos: nat)
    ensures Calm(m, ParseColumn(m, buf, pos))
  {
    hide Word32, Plain;
  }

  /**
    A foreign key panics exactly on an action byte above four, behind two symbols that are
    not zero; nothing else that is read panics.
   */
  lemma ForeignKeyPanics(m: bool, buf: seq<Byte>, pos: nat)
    ensures ParseForeignKey(m, buf, pos).Panics? <==>
            && pos + 13 <= |buf| && Word32(buf[pos..pos + 4]) != 0 && Word32(buf[pos + 4..pos + 8]) != 0
            && (buf[pos + 12] > 4 || (pos + 14 <= |buf| && buf[pos + 13] > 4))
  {
    hide Word32, Word16;
  }

  /** The two ways in which a buffer is refused, and that a panic comes from the interner or a foreign key. */
  lemma DecodeKinds(m: bool, hash: Str -> nat, buf: seq<Byte>)
    ensures Kind(m, Decode(m, hash, buf))
    ensures Decode(m, hash, buf).Panics? ==>
            || (36 <= |buf| && 36 + Word32(buf[32..36]) <= |buf|
                && Rebuild(hash, buf[36..36 + Word32(buf[32..36])], !m) == None)
            || (exists pos :: ParseForeignKey(m, buf, pos).Panics?)
  {
    hide ParseTables, Rebuild, Word32;
    if 36 <= |buf| { TablesKinds(m, buf, 36 + Word32(buf[32..36])); }
  }

  lemma TablesKinds(m: bool, buf: seq<Byte>, pos: nat)
    ensures Kind(m, ParseTables(m, buf, pos))
    ensures ParseTables(m, buf, pos).Panics? ==> exists q :: ParseForeignKey(m, buf, q).Panics?
  {
    hide ParseList, ParseTable, ReadU16, ParseColumn, ReadSym, ParseForeignKey;
    forall q: nat
      ensures Calm(m, Tables1(m)(buf, q)) && Calm(m, Indices(m)(buf, q)) && Calm(m, Names(m)(buf, q))
      ensures Calm(m, Columns(m)(buf, q)) && Kind(m, ForeignKeys(m)(buf, q))
    {
      ElementKinds(m, buf, q);
    }
    forall q: nat
      ensures Calm(m, ParseList(m, Tables1(m), buf, q)) && Calm(m, ParseList(m, Indices(m), buf, q))
      ensures Calm(m, ParseList(m, Names(m), buf, q)) && Calm(m, ParseList(m, Columns(m), buf, q))
      ensures Kind(m, ParseList(m, ForeignKeys(m), buf, q))
      ensures ParseList(m, ForeignKeys(m), buf, q).Panics? ==> exists p :: ParseForeignKey(m, buf, p).Panics?
    {
      ListKinds(m, Tables1(m), buf, q);
      ListKinds(m, Indices(m), buf, q);
      ListKinds(m, Names(m), buf, q);
      ListKinds(m, Columns(m), buf, q);
      ListKinds(m, ForeignKeys(m), buf, q);
    }
  }

  // ----- where every field stands

  lemma U32Word(n: nat)
    requires n < U32_SIZE
    ensures |AsU32(n)| == 4 && Word32(AsU32(n)) == n
  {
    hide Word32, Le32;
  }

  lemma U16Word(n: nat)
    requires n < U16_SIZE
    ensures |AsU16(n)| == 2 && Word16(AsU16(n)) == n
  {
    hide Word16, Le16;
  }

  lemma OneByte(n: nat)
    requires n < 256
    ensures AsU8(n) == [n]
  {
  }

  /** A table takes 18 bytes: name, first column, columns, key column or 65535, first key, keys. */
  lemma TableLayout(t: TableMeta)
    requires TableFits(t)
    ensures var b := PrintTable(t);
            && |b| == 18
            && Word32(b[0..4]) == t.name && Word32(b[4..8]) == t.columnsStart && Word16(b[8..10]) == t.columnsLen
            && Word16(b[10..12]) == (match t.primaryKey case Some(k) => k case None => 0xFFFF)
            && Word32(b[12..16]) == t.fkStart && Word16(b[16..18]) == t.fkLen
  {
    var pk := match t.primaryKey case Some(k) => k case None => NO_PRIMARY_KEY;
    U32Word(t.name);
    U32Word(t.columnsStart);
    U16Word(t.columnsLen);
    U16Word(pk);
    U32Word(t.fkStart);
    U16Word(t.fkLen);
    hide AsU32, AsU16, Word32, Word16;
    SixParts(AsU32(t.name), AsU32(t.columnsStart), AsU16(t.columnsLen), AsU16(pk), AsU32(t.fkStart), AsU16(t.fkLen));
  }

  /** Each of six parts stands behind those before it. */
  lemma SixParts(a: seq<Byte>, b: seq<Byte>, c: seq<Byte>, d: seq<Byte>, e: seq<Byte>, f: seq<Byte>)
    ensures var all := a + b + c + d + e + f;
            var p1 := |a|; var p2 := p1 + |b|; var p3 := p2 + |c|; var p4 := p3 + |d|; var p5 := p4 + |e|;
            && |all| == p5 + |f| && all[0..p1] == a && all[p1..p2] == b && all[p2..p3] == c && all[p3..p4] == d
            && all[p4..p5] == e && all[p5..p5 + |f|] == f
  {
    var all := a + b + c + d + e + f;
    assert Starts(all, 0, all);
    StartsSplit(all, 0, a + b + c + d + e, f);
    StartsSplit(all, 0, a + b + c + d, e);
    StartsSplit(all, 0, a + b + c, d);
    StartsSplit(all, 0, a + b, c);
    StartsSplit(all, 0, a, b);
  }

  /** A foreign key takes 14 bytes: two symbols, table, column, and the actions on update and on delete. */
  lemma ForeignKeyLayout(k: ForeignKey)
    requires ForeignKeyFits(k)
    ensures var b := PrintForeignKey(k);
            && |b| == 14
            && Word32(b[0..4]) == k.constraintName && Word32(b[4..8]) == k.namespace
            && Word16(b[8..10]) == k.table && Word16(b[10..12]) == k.column
            && ActionAt(b[12], k.onUpdate) && ActionAt(b[13], k.onDelete)
  {
    var codes := [ActionCode(k.onUpdate), ActionCode(k.onDelete)];
    U32Word(k.constraintName);
    U32Word(k.namespace);
    U16Word(k.table);
    U16Word(k.column);
    OneByte(codes[0]);
    OneByte(codes[1]);
    hide AsU32, AsU16, AsU8, Word32, Word16;
    var b := PrintForeignKey(k);
    SixParts(AsU32(k.constraintName), AsU32(k.namespace), AsU16(k.table), AsU16(k.column), AsU8(codes[0]),
             AsU8(codes[1]));
    assert b[12] == b[12..13][0] && b[13] == b[13..14][0];
  }

  predicate ActionAt(code: Byte, a: Action) {
    && (code == 0 <==> a == NoAction) && (code == 1 <==> a == Cascade) && (code == 2 <==> a == SetNull)
    && (code == 3 <==> a == SetDefault) && (code == 4 <==> a == Restrict)
  }

  /** The types that are no symbol, in the order of their tags, with a gap at 14. */
  const PLAIN_TYPES: seq<ValueType> :=
    [Null, Bool, Int, Float, Decimal, Text, Blob, Json, Uuid, Timestamp, TimestampTz, Date, Time, TimeTz, Null,
     BoolArray, IntArray, FloatArray, DecimalArray, TextArray]

  /** A type is its tag, behind which stands the symbol of a type that has no tag of its own. */
  lemma TypeLayout(t: ValueType)
    ensures var b := PrintType(t);
            if t.Custom? then |b| == 5 && b[0] == 14 && Word32(b[1..5]) == t.name
            else |b| == 1 && b[0] < 20 && b[0] != 14 && PLAIN_TYPES[b[0]] == t
  {
    OneByte(Tag(t));
    if t.Custom? {
      U32Word(t.name);
      assert PrintType(t)[1..5] == AsU32(t.name);
    }
    hide AsU32, Word32;
  }

  /** A column: name, type, default or zero, flags, checks, foreign keys. */
  lemma ColumnLayout(c: Column)
    requires ColumnFits(c)
    ensures var b := PrintColumn(c); var n := 4 + |PrintType(c.dataType)|;
            && |b| == n + 17
            && Word32(b[0..4]) == c.name && b[4..n] == PrintType(c.dataType)
            && Word32(b[n..n + 4]) == (match c.defaultValue case Some(d) => d as int case None => 0)
            && b[n + 4] == c.flags
            && Word32(b[n + 5..n + 9]) == c.constraints.start && Word16(b[n + 9..n + 11]) == c.constraints.len
            && Word32(b[n + 11..n + 15]) == c.foreignKeys.start && Word16(b[n + 15..n + 17]) == c.foreignKeys.len
  {
    U32Word(c.name);
    DefaultLayout(c.defaultValue);
    OneByte(c.flags);
    RangeLayout(c.constraints);
    RangeLayout(c.foreignKeys);
    hide AsU32, AsU8, Word32, Word16, PrintType, PrintRange, PrintSymOpt;
    var b, n := PrintColumn(c), 4 + |PrintType(c.dataType)|;
    var f, g := PrintRange(c.constraints), PrintRange(c.foreignKeys);
    SixParts(AsU32(c.name), PrintType(c.dataType), PrintSymOpt(c.defaultValue), AsU8(c.flags), f, g);
    SliceOfSlice(b, n + 5, f);
    SliceOfSlice(b, n + 11, g);
    assert b[n + 4] == b[n + 4..n + 5][0];
  }

  lemma SliceOfSlice(b: seq<Byte>, p: nat, f: seq<Byte>)
    requires |f| == 6 && p + 6 <= |b| && b[p..p + 6] == f
    ensures b[p..p + 4] == f[0..4] && b[p + 4..p + 6] == f[4..6]
  {
  }

  lemma DefaultLayout(d: Option<Symbol>)
    ensures |PrintSymOpt(d)| == 4 && Word32(PrintSymOpt(d)) == (match d case Some(x) => x as int case None => 0)
  {
    match d
    case Some(x) => U32Word(x);
    case None => U32Word(0);
  }

  lemma RangeLayout(r: PoolRange)
    requires RangeFits(r)
    ensures var b := PrintRange(r); |b| == 6 && Word32(b[0..4]) == r.start && Word16(b[4..6]) == r.len
  {
    U32Word(r.start);
    U16Word(r.len);
    hide AsU32, AsU16, Word32, Word16;
    var b := PrintRange(r);
    assert b[0..4] == AsU32(r.start) && b[4..6] == AsU16(r.len);
  }

  /** A list is its length and, one behind the other, its elements. */
  lemma ListLayout<T>(show: T -> seq<Byte>, xs: seq<T>, i: nat)
    requires |xs| < U32_SIZE && i < |xs|
    ensures var b := PrintList(show, xs); var p := 4 + |PrintMany(show, xs[..i])|;
            Word32(b[0..4]) == |xs| && Starts(b, p, show(xs[i]))
  {
    var elements := PrintMany(show, xs);
    U32Word(|xs|);
    ManyAt(show, xs, i);
    hide AsU32, Word32, PrintMany;
    var b, q, x := AsU32(|xs|) + elements, |PrintMany(show, xs[..i])|, show(xs[i]);
    assert b[0..4] == AsU32(|xs|);
    assert b[4 + q..4 + q + |x|] == elements[q..q + |x|];
  }

  lemma {:induction false} ManyAt<T>(show: T -> seq<Byte>, xs: seq<T>, i: nat)
    requires i < |xs|
    ensures Starts(PrintMany(show, xs), |PrintMany(show, xs[..i])|, show(xs[i]))
    decreases i
  {
    var first, rest := show(xs[0]), PrintMany(show, xs[1..]);
    if i == 0 {
      assert (first + rest)[0..|first|] == first;
    } else {
      ManyAt(show, xs[1..], i - 1);
      assert xs[..i][1..] == xs[1..][..i - 1];
      var q, x := |PrintMany(show, xs[1..][..i - 1])|, show(xs[i]);
      hide PrintMany;
      assert (first + rest)[|first| + q..|first| + q + |x|] == rest[q..q + |x|];
    }
  }

  /** The six lists stand at `p`, one behind the other, and the last ends at `end`. */
  ghost predicate ListsAt(b: seq<Byte>, p: nat, t: Tables, end: nat) {
    var p1 := p + |PrintList(PrintTable, t.tables)|;
    var p2 := p1 + |PrintList(AsU16, t.byName)|;
    var p3 := p2 + |PrintList(PrintColumn, t.columns)|;
    var p4 := p3 + |PrintList(PrintSym, t.columnNames)|;
    var p5 := p4 + |PrintList(PrintSym, t.constraintPool)|;
    && end == p5 + |PrintList(PrintForeignKey, t.foreignKeyPool)|
    && Starts(b, p, PrintList(PrintTable, t.tables)) && Starts(b, p1, PrintList(AsU16, t.byName))
    && Starts(b, p2, PrintList(PrintColumn, t.columns)) && Starts(b, p3, PrintList(PrintSym, t.columnNames))
    && Starts(b, p4, PrintList(PrintSym, t.constraintPool))
    && Starts(b, p5, PrintList(PrintForeignKey, t.foreignKeyPool))
  }

  /** An encoding: the hash, the snapshot behind its length, and the six lists in this order. */
  lemma EncodeLayout(s: DatabaseSchema, snapshot: seq<Byte>)
    requires |s.hash| == 32 && |snapshot| < U32_SIZE
    ensures var b, p := Encode(s, snapshot), 36 + |snapshot|;
            && p <= |b| && b[0..32] == s.hash && Word32(b[32..36]) == |snapshot| && b[36..p] == snapshot
            && ListsAt(b, p, s.tables, |b|)
  {
    var b, n, lists := Encode(s, snapshot), |snapshot|, PrintTables(s.tables);
    hide AsU32, Word32, PrintTables, ListsAt, Starts, PrintList;
    FourParts(s.hash, AsU32(n), snapshot, lists);
    assert b == s.hash + (AsU32(n) + (snapshot + lists));
    hide Encode;
    U32Word(n);
    ListsSplit(b, 36 + n, s.tables);
  }

  lemma FourParts(a: seq<Byte>, b: seq<Byte>, c: seq<Byte>, d: seq<Byte>)
    ensures var all := a + (b + (c + d));
            var p1 := |a|; var p2 := p1 + |b|; var p3 := p2 + |c|;
            && |all| == p3 + |d| && all[0..p1] == a && all[p1..p2] == b && all[p2..p3] == c && Starts(all, p3, d)
  {
    var all := a + (b + (c + d));
    assert Starts(all, 0, all);
    StartsSplit(all, 0, a, b + (c + d));
    StartsSplit(all, |a|, b, c + d);
    StartsSplit(all, |a| + |b|, c, d);
  }

  lemma ListsSplit(b: seq<Byte>, p: nat, t: Tables)
    requires Starts(b, p, PrintTables(t))
    ensures ListsAt(b, p, t, p + |PrintTables(t)|)
  {
    hide PrintList, Starts;
    var u, v, w := PrintList(PrintTable, t.tables), PrintList(AsU16, t.byName), PrintList(PrintColumn, t.columns);
    var x, y := PrintList(PrintSym, t.columnNames), PrintList(PrintSym, t.constraintPool);
    var z := PrintList(PrintForeignKey, t.foreignKeyPool);
    StartsSplit(b, p, u, v + (w + (x + (y + z))));
    StartsSplit(b, p + |u|, v, w + (x + (y + z)));
    StartsSplit(b, p + |u| + |v|, w, x + (y + z));
    StartsSplit(b, p + |u| + |v| + |w|, x, y + z);
    StartsSplit(b, p + |u| + |v| + |w| + |x|, y, z);
  }
}
