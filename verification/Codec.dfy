/**
  The binary schema format: the printer, and the one shape of parser that
  `decode` and `decode_unchecked` share. They differ in what a failed read means:
  `None` for the first, undefined behaviour for the second.
 */
module Codec {
  import opened Bytes
  import opened Symbols
  import opened SchemaTypes

  /** The outcome of a parse: a value and the position behind it, or the way it went wrong. */
  datatype Parse<+T> = Parsed(value: T, next: nat) | Rejected | Undefined | Panics {
    predicate IsFailure() { !Parsed? }

    function PropagateFailure<U>(): (r: Parse<U>)
      requires IsFailure()
      ensures r.IsFailure()
    {
      match this
      case Rejected => Rejected
      case Undefined => Undefined
      case Panics => Panics
    }

    function Extract(): (T, nat)
      requires Parsed?
    {
      (value, next)
    }
  }

  type Parser<T> = (seq<Byte>, nat) -> Parse<T>

  /** What a read past the end, a zero symbol or an unknown type tag is. */
  function Fail<T>(unchecked: bool): Parse<T> { if unchecked then Undefined else Rejected }

  // ----- the read macros

  function ReadBytes(m: bool, buf: seq<Byte>, pos: nat, n: nat): Parse<seq<Byte>> {
    if pos + n > |buf| then Fail(m) else Parsed(buf[pos..pos + n], pos + n)
  }

  function ReadU32(m: bool, buf: seq<Byte>, pos: nat): Parse<nat> {
    if pos + 4 > |buf| then Fail(m) else Parsed(Word32(buf[pos..pos + 4]), pos + 4)
  }

  function ReadU16(m: bool, buf: seq<Byte>, pos: nat): Parse<nat> {
    if pos + 2 > |buf| then Fail(m) else Parsed(Word16(buf[pos..pos + 2]), pos + 2)
  }

  function ReadU8(m: bool, buf: seq<Byte>, pos: nat): Parse<nat> {
    if pos + 1 > |buf| then Fail(m) else Parsed(buf[pos], pos + 1)
  }

  function ReadSym(m: bool, buf: seq<Byte>, pos: nat): Parse<Symbol> {
    var (raw, p) :- ReadU32(m, buf, pos);
    if raw == 0 then Fail(m) else Parsed(raw, p)
  }

  /** A raw zero stands for no symbol. */
  function ReadSymOpt(m: bool, buf: seq<Byte>, pos: nat): Parse<Option<Symbol>> {
    var (raw, p) :- ReadU32(m, buf, pos);
    Parsed(if raw == 0 then None else Some(raw), p)
  }

  // ----- records

  function Tag(t: ValueType): (n: nat)
    ensures n < 20
  {
    match t
    case Null => 0 case Bool => 1 case Int => 2 case Float => 3 case Decimal => 4 case Text => 5 case Blob => 6
    case Json => 7 case Uuid => 8 case Timestamp => 9 case TimestampTz => 10 case Date => 11 case Time => 12
    case TimeTz => 13 case Custom(_) => 14 case BoolArray => 15 case IntArray => 16 case FloatArray => 17
    case DecimalArray => 18 case TextArray => 19
  }

  /** The type with a tag other than that of `Custom`. */
  function Plain(tag: nat): Option<ValueType> {
    match tag
    case 0 => Some(Null) case 1 => Some(Bool) case 2 => Some(Int) case 3 => Some(Float) case 4 => Some(Decimal)
    case 5 => Some(Text) case 6 => Some(Blob) case 7 => Some(Json) case 8 => Some(Uuid) case 9 => Some(Timestamp)
    case 10 => Some(TimestampTz) case 11 => Some(Date) case 12 => Some(Time) case 13 => Some(TimeTz)
    case 15 => Some(BoolArray) case 16 => Some(IntArray) case 17 => Some(FloatArray) case 18 => Some(DecimalArray)
    case 19 => Some(TextArray)
    case _ => None
  }

  function ActionCode(a: Action): (n: nat)
    ensures n < 5
  {
    match a case NoAction => 0 case Cascade => 1 case SetNull => 2 case SetDefault => 3 case Restrict => 4
  }

  /** `Action::from`, which panics on any other byte. */
  function ToAction(code: nat, next: nat): Parse<Action> {
    match code
    case 0 => Parsed(NoAction, next) case 1 => Parsed(Cascade, next) case 2 => Parsed(SetNull, next)
    case 3 => Parsed(SetDefault, next) case 4 => Parsed(Restrict, next)
    case _ => Panics
  }

  const NO_PRIMARY_KEY: nat := 0xFFFF

  function ParseTable(m: bool, buf: seq<Byte>, pos: nat): Parse<TableMeta> {
    var (name, p1) :- ReadSym(m, buf, pos);
    var (columnsStart, p2) :- ReadU32(m, buf, p1);
    var (columnsLen, p3) :- ReadU16(m, buf, p2);
    var (pk, p4) :- ReadU16(m, buf, p3);
    var (fkStart, p5) :- ReadU32(m, buf, p4);
    var (fkLen, p6) :- ReadU16(m, buf, p5);
    var primaryKey := if pk == NO_PRIMARY_KEY then None else Some(pk);
    Parsed(TableMeta(name, columnsStart, columnsLen, primaryKey, fkStart, fkLen), p6)
  }

  function ParseType(m: bool, buf: seq<Byte>, pos: nat): Parse<ValueType> {
    var (tag, p) :- ReadU8(m, buf, pos);
    if tag == 14 then
      var (name, p2) :- ReadSym(m, buf, p);
      Parsed(Custom(name), p2)
    else
      match Plain(tag)
      case Some(t) => Parsed(t, p)
      case None => Fail(m)
  }

  function ParseRange(m: bool, buf: seq<Byte>, pos: nat): Parse<PoolRange> {
    var (start, p1) :- ReadU32(m, buf, pos);
    var (len, p2) :- ReadU16(m, buf, p1);
    Parsed(PoolRange(start, len), p2)
  }

  function ParseColumn(m: bool, buf: seq<Byte>, pos: nat): Parse<Column> {
    var (name, p1) :- ReadSym(m, buf, pos);
    var (dataType, p2) :- ParseType(m, buf, p1);
    var (defaultValue, p3) :- ReadSymOpt(m, buf, p2);
    var (flags, p4) :- ReadU8(m, buf, p3);
    var (constraints, p5) :- ParseRange(m, buf, p4);
    var (foreignKeys, p6) :- ParseRange(m, buf, p5);
    Parsed(Column(name, dataType, defaultValue, flags, constraints, foreignKeys), p6)
  }

  function ParseAction(m: bool, buf: seq<Byte>, pos: nat): Parse<Action> {
    var (code, p) :- ReadU8(m, buf, pos);
    ToAction(code, p)
  }

  function ParseForeignKey(m: bool, buf: seq<Byte>, pos: nat): Parse<ForeignKey> {
    var (constraintName, p1) :- ReadSym(m, buf, pos);
    var (namespace, p2) :- ReadSym(m, buf, p1);
    var (table, p3) :- ReadU16(m, buf, p2);
    var (column, p4) :- ReadU16(m, buf, p3);
    var (onUpdate, p5) :- ParseAction(m, buf, p4);
    var (onDelete, p6) :- ParseAction(m, buf, p5);
    Parsed(ForeignKey(constraintName, namespace, table, column, onUpdate, onDelete), p6)
  }

  // ----- lists

  function ParseMany<T>(p: Parser<T>, buf: seq<Byte>, pos: nat, n: nat): Parse<seq<T>>
    decreases n
  {
    if n == 0 then Parsed([], pos) else
    var (x, p1) :- p(buf, pos);
    var (xs, p2) :- ParseMany(p, buf, p1, n - 1);
    Parsed([x] + xs, p2)
  }

  /** A list is its length and its elements. */
  function ParseList<T>(m: bool, p: Parser<T>, buf: seq<Byte>, pos: nat): Parse<seq<T>> {
    var (n, p1) :- ReadU32(m, buf, pos);
    ParseMany(p, buf, p1, n)
  }

  function Prepend<T>(front: seq<T>, r: Parse<seq<T>>): Parse<seq<T>> {
    match r
    case Parsed(xs, next) => Parsed(front + xs, next)
    case Rejected => Rejected
    case Undefined => Undefined
    case Panics => Panics
  }

  lemma PrependLaws<T>(front: seq<T>, x: T, r: Parse<seq<T>>)
    ensures Prepend(front, Prepend([x], r)) == Prepend(front + [x], r)
  {
    if r.Parsed? { assert front + ([x] + r.value) == front + [x] + r.value; }
  }

  lemma PrependEmpty<T>(r: Parse<seq<T>>)
    ensures Prepend([], r) == r
  {
    if r.Parsed? { assert [] + r.value == r.value; }
  }

  /** The decoding loops: read an element, advance, push. */
  method ReadMany<T>(p: Parser<T>, buf: seq<Byte>, pos: nat, n: nat) returns (r: Parse<seq<T>>)
    ensures r == ParseMany(p, buf, pos, n)
  {
    var xs, next := [], pos;
    PrependEmpty(ParseMany(p, buf, pos, n));
    for i := 0 to n
      invariant ParseMany(p, buf, pos, n) == Prepend(xs, ParseMany(p, buf, next, n - i))
    {
      var x := p(buf, next);
      if x.IsFailure() {
        return x.PropagateFailure();
      }
      PrependLaws(xs, x.value, ParseMany(p, buf, x.next, n - i - 1));
      xs, next := xs + [x.value], x.next;
    }
    r := Parsed(xs, next);
    assert xs + [] == xs;
  }

  function PrintMany<T>(show: T -> seq<Byte>, xs: seq<T>): seq<Byte> {
    if xs == [] then [] else show(xs[0]) + PrintMany(show, xs[1..])
  }

  /** The encoding loops: append each element's bytes to the buffer. */
  method WriteMany<T>(show: T -> seq<Byte>, xs: seq<T>, buf: seq<Byte>) returns (out: seq<Byte>)
    ensures out == buf + PrintMany(show, xs)
  {
    out := buf;
    for i := 0 to |xs|
      invariant out + PrintMany(show, xs[i..]) == buf + PrintMany(show, xs)
    {
      assert xs[i..][1..] == xs[i + 1..];
      out := out + show(xs[i]);
    }
  }

  // ----- the printer

  function AsU32(n: nat): seq<Byte> { Le32(n % U32_SIZE) }
  function AsU16(n: nat): seq<Byte> { Le16(n % U16_SIZE) }
  function AsU8(n: nat): seq<Byte> { [n % 256] }

  function PrintSymOpt(s: Option<Symbol>): seq<Byte> {
    match s case Some(x) => AsU32(x) case None => AsU32(0)
  }

  function PrintTable(t: TableMeta): seq<Byte> {
    AsU32(t.name) + AsU32(t.columnsStart) + AsU16(t.columnsLen)
    + AsU16(match t.primaryKey case Some(k) => k case None => NO_PRIMARY_KEY)
    + AsU32(t.fkStart) + AsU16(t.fkLen)
  }

  function PrintType(t: ValueType): seq<Byte> {
    AsU8(Tag(t)) + match t case Custom(name) => AsU32(name) case _ => []
  }

  function PrintRange(r: PoolRange): seq<Byte> { AsU32(r.start) + AsU16(r.len) }

  function PrintColumn(c: Column): seq<Byte> {
    AsU32(c.name) + PrintType(c.dataType) + PrintSymOpt(c.defaultValue) + AsU8(c.flags)
    + PrintRange(c.constraints) + PrintRange(c.foreignKeys)
  }

  function PrintSym(s: Symbol): seq<Byte> { AsU32(s) }

  function PrintForeignKey(f: ForeignKey): seq<Byte> {
    AsU32(f.constraintName) + AsU32(f.namespace) + AsU16(f.table) + AsU16(f.column)
    + AsU8(ActionCode(f.onUpdate)) + AsU8(ActionCode(f.onDelete))
  }

  function PrintList<T>(show: T -> seq<Byte>, xs: seq<T>): seq<Byte> {
    AsU32(|xs|) + PrintMany(show, xs)
  }

  // ----- the width of every field

  predicate RangeFits(r: PoolRange) { r.start < U32_SIZE && r.len < U16_SIZE }

  predicate TableFits(t: TableMeta) {
    && t.columnsStart < U32_SIZE && t.columnsLen < U16_SIZE && t.fkStart < U32_SIZE && t.fkLen < U16_SIZE
    && (t.primaryKey.Some? ==> t.primaryKey.value < NO_PRIMARY_KEY)
  }

  predicate ColumnFits(c: Column) { c.flags < 256 && RangeFits(c.constraints) && RangeFits(c.foreignKeys) }

  predicate ForeignKeyFits(f: ForeignKey) { f.table < U16_SIZE && f.column < U16_SIZE }

  predicate IndexFits(i: nat) { i < U16_SIZE }

  /** Every number is within the width that the format gives it. */
  ghost predicate Fits(t: Tables) {
    && |t.tables| < U32_SIZE && |t.byName| < U32_SIZE && |t.columns| < U32_SIZE && |t.columnNames| < U32_SIZE
    && |t.constraintPool| < U32_SIZE && |t.foreignKeyPool| < U32_SIZE
    && (forall i | 0 <= i < |t.tables| :: TableFits(t.tables[i]))
    && (forall i | 0 <= i < |t.byName| :: IndexFits(t.byName[i]))
    && (forall i | 0 <= i < |t.columns| :: ColumnFits(t.columns[i]))
    && (forall i | 0 <= i < |t.foreignKeyPool| :: ForeignKeyFits(t.foreignKeyPool[i]))
  }

  // ----- reading back

  /** The bytes `bs` stand at `pos`. */
  ghost predicate Starts(buf: seq<Byte>, pos: nat, bs: seq<Byte>) {
    pos + |bs| <= |buf| && buf[pos..pos + |bs|] == bs
  }

  lemma StartsSplit(buf: seq<Byte>, pos: nat, a: seq<Byte>, b: seq<Byte>)
    requires Starts(buf, pos, a + b)
    ensures Starts(buf, pos, a) && Starts(buf, pos + |a|, b)
  {
    var all := buf[pos..pos + |a + b|];
    assert buf[pos..pos + |a|] == all[..|a|] == a;
    assert buf[pos + |a|..pos + |a| + |b|] == all[|a|..] == b;
  }

  lemma ReadsU32(m: bool, buf: seq<Byte>, pos: nat, n: nat)
    requires n < U32_SIZE && Starts(buf, pos, AsU32(n))
    ensures |AsU32(n)| == 4 && ReadU32(m, buf, pos) == Parsed(n, pos + 4)
  {
  }

  lemma ReadsU16(m: bool, buf: seq<Byte>, pos: nat, n: nat)
    requires n < U16_SIZE && Starts(buf, pos, AsU16(n))
    ensures |AsU16(n)| == 2 && ReadU16(m, buf, pos) == Parsed(n, pos + 2)
  {
  }

  lemma ReadsU8(m: bool, buf: seq<Byte>, pos: nat, n: nat)
    requires n < 256 && Starts(buf, pos, AsU8(n))
    ensures |AsU8(n)| == 1 && ReadU8(m, buf, pos) == Parsed(n, pos + 1)
  {
    assert buf[pos..pos + 1][0] == buf[pos];
  }

  lemma ReadsSym(m: bool, buf: seq<Byte>, pos: nat, s: Symbol)
    requires Starts(buf, pos, AsU32(s))
    ensures |AsU32(s)| == 4 && ReadSym(m, buf, pos) == Parsed(s, pos + 4)
  {
    ReadsU32(m, buf, pos, s);
  }

  lemma TableReads(m: bool, buf: seq<Byte>, pos: nat, t: TableMeta)
    requires TableFits(t) && Starts(buf, pos, PrintTable(t))
    ensures ParseTable(m, buf, pos) == Parsed(t, pos + |PrintTable(t)|)
  {
    hide AsU32, AsU16, ReadU32, ReadU16, ReadSym, Starts;
    var pk := match t.primaryKey case Some(k) => k case None => NO_PRIMARY_KEY;
    var a, b, c := AsU32(t.name), AsU32(t.columnsStart), AsU16(t.columnsLen);
    var d, e, f := AsU16(pk), AsU32(t.fkStart), AsU16(t.fkLen);
    StartsSplit(buf, pos, a + b + c + d + e, f);
    StartsSplit(buf, pos, a + b + c + d, e);
    StartsSplit(buf, pos, a + b + c, d);
    StartsSplit(buf, pos, a + b, c);
    StartsSplit(buf, pos, a, b);
    ReadsSym(m, buf, pos, t.name);
    ReadsU32(m, buf, pos + 4, t.columnsStart);
    ReadsU16(m, buf, pos + 8, t.columnsLen);
    ReadsU16(m, buf, pos + 10, pk);
    ReadsU32(m, buf, pos + 12, t.fkStart);
    ReadsU16(m, buf, pos + 16, t.fkLen);
  }

  lemma TypeReads(m: bool, buf: seq<Byte>, pos: nat, t: ValueType)
    requires Starts(buf, pos, PrintType(t))
    ensures ParseType(m, buf, pos) == Parsed(t, pos + |PrintType(t)|)
  {
    hide AsU32, AsU8, ReadU8, ReadSym, Starts;
    if t.Custom? {
      StartsSplit(buf, pos, AsU8(14), AsU32(t.name));
      ReadsU8(m, buf, pos, 14);
      ReadsSym(m, buf, pos + 1, t.name);
    } else {
      assert PrintType(t) == AsU8(Tag(t));
      ReadsU8(m, buf, pos, Tag(t));
    }
  }

  lemma RangeReads(m: bool, buf: seq<Byte>, pos: nat, r: PoolRange)
    requires RangeFits(r) && Starts(buf, pos, PrintRange(r))
    ensures |PrintRange(r)| == 6 && ParseRange(m, buf, pos) == Parsed(r, pos + 6)
  {
    hide AsU32, AsU16, ReadU32, ReadU16, Starts;
    StartsSplit(buf, pos, AsU32(r.start), AsU16(r.len));
    ReadsU32(m, buf, pos, r.start);
    ReadsU16(m, buf, pos + 4, r.len);
  }

  lemma SymOptReads(m: bool, buf: seq<Byte>, pos: nat, s: Option<Symbol>)
    requires Starts(buf, pos, PrintSymOpt(s))
    ensures |PrintSymOpt(s)| == 4 && ReadSymOpt(m, buf, pos) == Parsed(s, pos + 4)
  {
    hide AsU32, ReadU32, Starts;
    match s
    case Some(x) => ReadsU32(m, buf, pos, x);
    case None => ReadsU32(m, buf, pos, 0);
  }

  lemma ColumnReads(m: bool, buf: seq<Byte>, pos: nat, c: Column)
    requires ColumnFits(c) && Starts(buf, pos, PrintColumn(c))
    ensures ParseColumn(m, buf, pos) == Parsed(c, pos + |PrintColumn(c)|)
  {
    hide AsU32, AsU8, PrintType, PrintSymOpt, PrintRange, ReadSym, ReadU8, ReadSymOpt, ParseType, ParseRange, Starts;
    var a, b, d := AsU32(c.name), PrintType(c.dataType), PrintSymOpt(c.defaultValue);
    var e, f, g := AsU8(c.flags), PrintRange(c.constraints), PrintRange(c.foreignKeys);
    StartsSplit(buf, pos, a + b + d + e + f, g);
    StartsSplit(buf, pos, a + b + d + e, f);
    StartsSplit(buf, pos, a + b + d, e);
    StartsSplit(buf, pos, a + b, d);
    StartsSplit(buf, pos, a, b);
    ReadsSym(m, buf, pos, c.name);
    TypeReads(m, buf, pos + 4, c.dataType);
    var p := pos + 4 + |b|;
    SymOptReads(m, buf, p, c.defaultValue);
    ReadsU8(m, buf, p + 4, c.flags);
    RangeReads(m, buf, p + 5, c.constraints);
    RangeReads(m, buf, p + 11, c.foreignKeys);
  }

  lemma ActionReads(m: bool, buf: seq<Byte>, pos: nat, a: Action)
    requires Starts(buf, pos, AsU8(ActionCode(a)))
    ensures |AsU8(ActionCode(a))| == 1 && ParseAction(m, buf, pos) == Parsed(a, pos + 1)
  {
    ReadsU8(m, buf, pos, ActionCode(a));
  }

  lemma ForeignKeyReads(m: bool, buf: seq<Byte>, pos: nat, k: ForeignKey)
    requires ForeignKeyFits(k) && Starts(buf, pos, PrintForeignKey(k))
    ensures ParseForeignKey(m, buf, pos) == Parsed(k, pos + |PrintForeignKey(k)|)
  {
    hide AsU32, AsU16, AsU8, ReadSym, ReadU16, ParseAction, Starts;
    var a, b, c, d := AsU32(k.constraintName), AsU32(k.namespace), AsU16(k.table), AsU16(k.column);
    var e, f := AsU8(ActionCode(k.onUpdate)), AsU8(ActionCode(k.onDelete));
    StartsSplit(buf, pos, a + b + c + d + e, f);
    StartsSplit(buf, pos, a + b + c + d, e);
    StartsSplit(buf, pos, a + b + c, d);
    StartsSplit(buf, pos, a + b, c);
    StartsSplit(buf, pos, a, b);
    ReadsSym(m, buf, pos, k.constraintName);
    ReadsSym(m, buf, pos + 4, k.namespace);
    ReadsU16(m, buf, pos + 8, k.table);
    ReadsU16(m, buf, pos + 10, k.column);
    ActionReads(m, buf, pos + 12, k.onUpdate);
    ActionReads(m, buf, pos + 13, k.onDelete);
  }

  /** At whatever position its bytes stand, the parser reads `x` back. */
  ghost predicate ReadsBack<T(!new)>(p: Parser<T>, show: T -> seq<Byte>, buf: seq<Byte>, x: T) {
    forall pos: nat | Starts(buf, pos, show(x)) :: p(buf, pos) == Parsed(x, pos + |show(x)|)
  }

  lemma OneReads<T(!new)>(p: Parser<T>, show: T -> seq<Byte>, buf: seq<Byte>, pos: nat, x: T)
    requires ReadsBack(p, show, buf, x) && Starts(buf, pos, show(x))
    ensures p(buf, pos) == Parsed(x, pos + |show(x)|)
  {
  }

  lemma {:induction false} ManyReads<T(!new)>(p: Parser<T>, show: T -> seq<Byte>, buf: seq<Byte>, pos: nat, xs: seq<T>)
    requires forall i | 0 <= i < |xs| :: ReadsBack(p, show, buf, xs[i])
    requires Starts(buf, pos, PrintMany(show, xs))
    ensures ParseMany(p, buf, pos, |xs|) == Parsed(xs, pos + |PrintMany(show, xs)|)
    decreases |xs|
  {
    if xs == [] {
      hide ReadsBack;
    } else {
      hide Starts, ReadsBack;
      var first, rest := show(xs[0]), PrintMany(show, xs[1..]);
      StartsSplit(buf, pos, first, rest);
      OneReads(p, show, buf, pos, xs[0]);
      ManyReads(p, show, buf, pos + |first|, xs[1..]);
      assert [xs[0]] + xs[1..] == xs;
    }
  }

  lemma ListReads<T(!new)>(m: bool, p: Parser<T>, show: T -> seq<Byte>, buf: seq<Byte>, pos: nat, xs: seq<T>)
    requires |xs| < U32_SIZE && forall i | 0 <= i < |xs| :: ReadsBack(p, show, buf, xs[i])
    requires Starts(buf, pos, PrintList(show, xs))
    ensures ParseList(m, p, buf, pos) == Parsed(xs, pos + |PrintList(show, xs)|)
  {
    hide AsU32, ReadU32, Starts, PrintMany, ParseMany, ReadsBack;
    StartsSplit(buf, pos, AsU32(|xs|), PrintMany(show, xs));
    ReadsU32(m, buf, pos, |xs|);
    ManyReads(p, show, buf, pos + 4, xs);
  }
}
