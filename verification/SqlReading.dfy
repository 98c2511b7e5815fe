/**
  What SQLite reads in the text of a migration: which defaults survive the cut, what
  the definitions of a new table say, and what becomes of the table when two defaults
  do not survive.
 */
module SqlReading {
  import opened Bytes
  import opened SchemaTypes
  import opened Catalogue
  import opened SqlLexer
  import opened SqlText
  import opened SqlDivision

  // ----- defaults and the cut

  ghost predicate Blank(s: string) { forall i | 0 <= i < |s| :: White(s[i]) }

  /** Without white space at either end. */
  predicate Trimmed(s: string) { s == "" || (!White(s[0]) && !White(s[|s| - 1])) }

  lemma {:induction false} TrimStartIs(a: string, s: string)
    requires Blank(a) && (s == "" || !White(s[0]))
    ensures TrimStart(a + s) == s
  {
    if a == "" {
      assert a + s == s;
    } else {
      TrimStartIs(a[1..], s);
      assert (a + s)[1..] == a[1..] + s;
    }
  }

  lemma {:induction false} TrimEndIs(s: string, z: string)
    requires Blank(z) && (s == "" || !White(s[|s| - 1]))
    ensures TrimEnd(s + z) == s
  {
    if z == "" {
      assert s + z == s;
    } else {
      TrimEndIs(s, z[..|z| - 1]);
      assert (s + z)[..|s + z| - 1] == s + z[..|z| - 1];
    }
  }

  /** `CastAt` is where the first `::` stands. */
  lemma {:induction false} CastAtFirst(s: string)
    ensures CastAt(s) < |s| ==> CastAt(s) + 1 < |s| && s[CastAt(s)] == ':' && s[CastAt(s) + 1] == ':'
    ensures forall k | 0 <= k < CastAt(s) && k + 1 < |s| :: !(s[k] == ':' && s[k + 1] == ':')
  {
    if s != "" { CastAtFirst(s[1..]); }
    forall k | 0 <= k < CastAt(s) && k + 1 < |s| ensures !(s[k] == ':' && s[k + 1] == ':') {
      if k > 0 { assert s[1..][k - 1] == s[k] && s[1..][k] == s[k + 1]; }
    }
  }

  /** A check is written exactly if it is not empty and has no `::` anywhere. */
  lemma WrittenIff(check: string)
    ensures Written(check) <==>
            check != "" && forall k | 0 <= k < |check| - 1 :: !(check[k] == ':' && check[k + 1] == ':')
  {
    CastAtFirst(check);
  }

  /** What begins as a literal does, in other words. */
  lemma LiteralIff(s: string)
    ensures Literal(s) <==>
            || (s != "" && (s[0] == '\'' || '0' <= s[0] <= '9'))
            || (|s| > 1 && s[0] == '-' && '0' <= s[1] <= '9')
            || Alike(s, "true") || Alike(s, "false") || Alike(s, "null") || Alike(s, "current_timestamp")
  {
    hide Alike;
    SameTypeIff(s, "true");
    SameTypeIff(s, "false");
    SameTypeIff(s, "null");
    SameTypeIff(s, "current_timestamp");
    hide Upper;
    UpperWords();
    LengthAlike(s, "true");
    LengthAlike(s, "false");
    LengthAlike(s, "null");
    LengthAlike(s, "current_timestamp");
  }

  lemma LengthAlike(a: string, b: string)
    ensures Alike(a, b) ==> |a| == |b|
  {
  }

  lemma UpperWords()
    ensures Upper("true") == "TRUE" && Upper("false") == "FALSE" && Upper("null") == "NULL"
    ensures Upper("current_timestamp") == "CURRENT_TIMESTAMP"
  {
  }

  /** A default without a cast is kept as it is, without the white space around it, if it is a literal. */
  lemma DefaultKept(a: string, d: string, z: string)
    requires Blank(a) && Trimmed(d) && Blank(z) && CastAt(d) == |d|
    ensures SqliteDefault(a + d + z) == if Literal(d) then Some(d) else None
  {
    BothTrimmed(a, d, z);
    hide Literal, TrimStart, TrimEnd, CastAt;
  }

  lemma BothTrimmed(a: string, d: string, z: string)
    requires Blank(a) && Trimmed(d) && Blank(z)
    ensures TrimStart(TrimEnd(a + d + z)) == d
  {
    hide White;
    if d == "" {
      TrimEndIs("", a + z);
      assert "" + (a + z) == a + d + z;
      EmptyNoLiteral();
    } else {
      TrimEndIs(a + d, z);
      TrimStartIs(a, d);
    }
  }

  lemma EmptyNoLiteral()
    ensures TrimStart("") == TrimEnd("") == "" && CastAt("") == 0 && !Literal("")
  {
  }

  /** Of a default with a cast, what stands before the first `::` is kept, if it is a literal. */
  lemma DefaultCut(a: string, d: string, w: string, t: string)
    requires Blank(a) && Trimmed(d) && Blank(w) && CastAt(d + w + "::" + t) == |d + w|
    ensures SqliteDefault(a + d + w + "::" + t) == if Literal(d) then Some(d) else None
  {
    hide Literal;
    var end := TrimEnd(t);
    TrimEndBehind(a + d + w + "::", t);
    assert TrimEnd(a + d + w + "::" + t) == a + d + w + "::" + end;
    if d == "" {
      TrimStartIs(a + w, "::" + end);
      assert a + w + ("::" + end) == a + d + w + "::" + end;
      assert CastAt("::" + end) == 0;
      assert ("::" + end)[..0] == "";
      EmptyNoLiteral();
    } else {
      TrimStartIs(a, d + w + "::" + end);
      assert a + (d + w + "::" + end) == a + d + w + "::" + end;
      CastFront(d + w, t, end);
      var s := d + w + "::" + end;
      assert s[..CastAt(s)] == d + w;
      TrimEndIs(d, w);
    }
  }

  /** Where the first cast stands depends on nothing behind it. */
  lemma {:induction false} CastFront(x: string, t: string, u: string)
    requires CastAt(x + "::" + t) == |x|
    ensures CastAt(x + "::" + u) == |x|
  {
    if x != "" {
      var one, two := x + "::" + t, x + "::" + u;
      assert one[1..] == x[1..] + "::" + t && two[1..] == x[1..] + "::" + u;
      CastFront(x[1..], t, u);
    }
  }

  lemma {:induction false} TrimEndSplit(s: string) returns (z: string)
    ensures Blank(z) && s == TrimEnd(s) + z && (TrimEnd(s) == "" || !White(TrimEnd(s)[|TrimEnd(s)| - 1]))
  {
    hide White;
    z := "";
    if s != "" && White(s[|s| - 1]) {
      z := TrimEndSplit(s[..|s| - 1]);
      z := z + [s[|s| - 1]];
    }
  }

  lemma {:induction false} TrimStartSplit(s: string) returns (a: string)
    ensures Blank(a) && s == a + TrimStart(s) && (TrimStart(s) == "" || !White(TrimStart(s)[0]))
  {
    hide White;
    a := "";
    if s != "" && White(s[0]) {
      a := TrimStartSplit(s[1..]);
      a := [s[0]] + a;
    }
  }

  /** Every default is of one of the two kinds. */
  lemma DefaultForms(text: string) returns (cast: bool, a: string, d: string, z: string, t: string)
    ensures Blank(a) && Trimmed(d) && Blank(z)
    ensures if cast then text == a + d + z + "::" + t && CastAt(d + z + "::" + t) == |d + z|
            else text == a + d + z && CastAt(d) == |d|
  {
    hide White, TrimStart, TrimEnd, CastAt;
    a := TrimStartSplit(text);
    var s := TrimStart(text);
    CastAtFirst(s);
    var k := CastAt(s);
    cast, t := k < |s|, "";
    if cast {
      d, t := TrimEnd(s[..k]), s[k + 2..];
      z := TrimEndSplit(s[..k]);
      assert s == s[..k] + "::" + t;
    } else {
      d := TrimEnd(s);
      z := TrimEndSplit(s);
      CastAtPrefix(d, z);
    }
    if d != "" { assert d[0] == s[0]; }
  }

  lemma {:induction false} CastAtPrefix(x: string, y: string)
    requires CastAt(x + y) == |x + y|
    ensures CastAt(x) == |x|
  {
    if x != "" {
      assert (x + y)[1..] == x[1..] + y;
      CastAtPrefix(x[1..], y);
    }
  }

  lemma {:induction false} TrimEndBehind(a: string, b: string)
    requires a != "" && !White(a[|a| - 1])
    ensures TrimEnd(a + b) == a + TrimEnd(b)
  {
    hide White;
    if b == "" {
      assert a + b == a;
    } else if White(b[|b| - 1]) {
      TrimEndBehind(a, b[..|b| - 1]);
      assert (a + b)[..|a + b| - 1] == a + b[..|b| - 1];
    }
  }

  /** Where the cut falls in a quoted constant: at a cast inside it, or else behind it. */
  function CutAt(v: string): nat {
    if CastAt(v) < |v| then |Doubled('\'', v[..CastAt(v)])| else |Doubled('\'', v)| + 1
  }

  lemma {:induction false} CastInside(v: string, t: string)
    ensures CastAt(Doubled('\'', v) + ("'::" + t)) == CutAt(v)
  {
    var end := "'::" + t;
    if v == "" {
      assert "" + end == end && end[1..] == "::" + t;
    } else {
      CastInside(v[1..], t);
      hide CastAt, CutAt, Doubled;
      CastInsideStep(v, end);
    }
  }

  lemma CastInsideStep(v: string, end: string)
    requires v != "" && end != "" && end[0] == '\'' && CastAt(Doubled('\'', v[1..]) + end) == CutAt(v[1..])
    ensures CastAt(Doubled('\'', v) + end) == CutAt(v)
  {
    var tail := Doubled('\'', v[1..]) + end;
    CutStep(v);
    CastFronts(v);
    TailBegins(v, end);
    DoubledFirst(v, end);
    hide CutAt, CastAt, Doubled;
    if v[0] == '\'' {
      CastBehind('\'', tail);
      CastBehind('\'', ['\''] + tail);
    } else {
      CastBehind(v[0], tail);
    }
  }

  lemma DoubledFirst(v: string, end: string)
    requires v != ""
    ensures var tail := Doubled('\'', v[1..]) + end;
            Doubled('\'', v) + end == if v[0] == '\'' then ['\''] + (['\''] + tail) else [v[0]] + tail
  {
  }

  lemma CastBehind(c: char, s: string)
    ensures c == ':' && s != "" && s[0] == ':' ==> CastAt([c] + s) == 0
    ensures !(c == ':' && s != "" && s[0] == ':') ==> CastAt([c] + s) == 1 + CastAt(s)
  {
    assert ([c] + s)[1..] == s;
  }

  lemma CastFronts(v: string)
    requires v != ""
    ensures CastAt(v) == 0 <==> v[0] == ':' && |v| > 1 && v[1] == ':'
  {
  }

  lemma TailBegins(v: string, end: string)
    requires v != "" && end != "" && end[0] == '\''
    ensures (Doubled('\'', v[1..]) + end)[0] == if |v| > 1 then v[1] else '\''
  {
  }

  lemma CutStep(v: string)
    requires v != ""
    ensures CutAt(v) == if CastAt(v) == 0 then 0 else (if v[0] == '\'' then 2 else 1) + CutAt(v[1..])
  {
    var k := CastAt(v);
    if k == 0 {
      assert v[..0] == "";
    } else if k < |v| {
      DoubledFront(v, k);
    }
  }

  lemma DoubledFront(v: string, k: nat)
    requires 0 < k <= |v|
    ensures |Doubled('\'', v[..k])| == (if v[0] == '\'' then 2 else 1) + |Doubled('\'', v[1..][..k - 1])|
  {
    assert v[..k][1..] == v[1..][..k - 1];
  }

  lemma {:induction false} DoubledPrefix(v: string, k: nat)
    requires k <= |v|
    ensures Doubled('\'', v[..k]) <= Doubled('\'', v)
  {
    if k > 0 {
      DoubledPrefix(v[1..], k - 1);
      assert v[..k][1..] == v[1..][..k - 1];
    }
  }

  /** What is kept of a string constant with a cast. */
  function ConstantKept(v: string): string {
    if CastAt(v) < |v| then "'" + TrimEnd(Doubled('\'', v[..CastAt(v)])) else Quoted('\'', v)
  }

  /** A string constant with a cast, as PostgreSQL words defaults, keeps what is before the first `::` in it. */
  lemma ConstantDefault(v: string, t: string)
    ensures SqliteDefault(Quoted('\'', v) + "::" + t) == Some(ConstantKept(v))
  {
    var end, d := TrimEnd(t), Doubled('\'', v);
    var head := Quoted('\'', v) + "::";
    TrimEndBehind(head, t);
    var s := head + end;
    assert s[0] == '\'' && TrimStart(s) == s;
    assert s == "'" + (d + ("'::" + end));
    assert s[1..] == d + ("'::" + end);
    CastInside(v, end);
    var k := CastAt(s);
    assert k == 1 + CastAt(s[1..]);
    if CastAt(v) < |v| {
      DoubledPrefix(v, CastAt(v));
      assert s[..k] == "'" + Doubled('\'', v[..CastAt(v)]);
      TrimEndBehind("'", Doubled('\'', v[..CastAt(v)]));
    } else {
      assert s[..k] == Quoted('\'', v);
    }
  }

  /** Trailing white space in an open literal may go: the literal stays open. */
  lemma {:induction false} TrimEndOpen(l: Level, s: string)
    requires Read(l, START, s).mode == Single && Read(l, START, s).done == []
    ensures Read(l, START, TrimEnd(s)).mode == Single
  {
    if s != "" && White(s[|s| - 1]) { TrimEndOpen(l, s[..|s| - 1]); }
  }

  /** The kept text is closed, at either level, if and only if there is no `::` in the constant. */
  lemma ConstantClosedIff(l: Level, v: string)
    ensures Closed(l, ConstantKept(v)) <==> CastAt(v) == |v|
  {
    if CastAt(v) < |v| {
      hide Doubled, TrimEnd, Read;
      ConstantOpen(l, v[..CastAt(v)]);
    } else {
      QuotedClean('\'', v);
    }
  }

  /** A constant without its closing quote stays open, with white space behind it or not. */
  lemma ConstantOpen(l: Level, v: string)
    ensures !Closed(l, "'" + TrimEnd(Doubled('\'', v)))
  {
    var d := Doubled('\'', v);
    ReadChar(l, START, '\'');
    ReadTwo(l, START, "'", d);
    DoubledReads(l, '\'', v, Step(l, START, '\''));
    hide Doubled, TrimEnd, Read;
    TrimEndOpen(l, "'" + d);
    TrimEndBehind("'", d);
  }

  /** The column's default is the string constant `v` with a cast. */
  ghost predicate DefaultsTo(c: TargetColumn, v: string) {
    exists t :: c.defaultText == Some(Quoted('\'', v) + "::" + t)
  }

  /** The statement writes the column. */
  ghost predicate WritesColumn(s: Statement, c: TargetColumn) {
    (s.Create? && c in s.columns) || (s.AddColumn? && c == s.column)
  }

  /** A script that writes a string constant with `::` in it never divides as it was written. */
  lemma ConstantTorn(sql: seq<Statement>, hex: string, k: nat, c: TargetColumn, v: string)
    requires k < |sql| && WritesColumn(sql[k], c) && DefaultsTo(c, v) && CastAt(v) < |v|
    ensures !Divided(sql, hex)
  {
    hide Closed, Divided, SqliteDefault, ConstantKept, Quoted;
    var t :| c.defaultText == Some(Quoted('\'', v) + "::" + t);
    ConstantDefault(v, t);
    ConstantClosedIff(Statements, v);
    DividedIff(sql, hex);
    assert KeptText(c) == ConstantKept(v) && !WholeColumn(c);
    assert !Intact(sql[k]);
  }

  // ----- reading definitions

  function FirstWord(s: string): (w: string)
    ensures w <= s
  {
    if s == "" || s[0] == ' ' then "" else [s[0]] + FirstWord(s[1..])
  }

  /** What the definition of a column says. */
  datatype ColumnRead = ColumnRead(
    name: string, ty: string, primary: bool, unique: bool, notNull: bool, defaultText: Option<string>)

  /** Whether the words stand in front, and the text behind them. */
  function Skip(words: string, s: string): (bool, string) {
    if words <= s then (true, s[|words|..]) else (false, s)
  }

  /** The constraints and the default behind a column's type. */
  function ReadClauses(name: string, ty: string, more: string): ColumnRead {
    var (primary, behindKey) := Skip(" PRIMARY KEY", more);
    var (unique, behindUnique) := Skip(" UNIQUE", behindKey);
    var (notNull, last) := Skip(" NOT NULL", behindUnique);
    var (given, text) := Skip(" DEFAULT ", last);
    ColumnRead(name, ty, primary, unique, notNull, if given then Some(text) else None)
  }

  /** A quoted name, a type and what follows are a column; a definition that begins otherwise is not. */
  function ReadColumn(p: string): Option<ColumnRead> {
    if p == "" || p[0] != '"' then None else
    var (name, rest) := Unquoted('"', p[1..]);
    if rest == "" then Some(ColumnRead(name, "", false, false, false, None)) else
    var ty := FirstWord(rest[1..]);
    Some(ReadClauses(name, ty, rest[1 + |ty|..]))
  }

  /** A definition as the catalogue keeps it. */
  function ReadDefinition(p: string): Option<(string, LiveColumn)> {
    match ReadColumn(p)
    case None => None
    case Some(c) => Some((c.name, LiveColumn(c.ty, c.primary)))
  }

  /** The table that the definitions describe. */
  function ReadShape(parts: seq<string>): Shape {
    if parts == [] then map[] else
    var before := ReadShape(parts[..|parts| - 1]);
    match ReadDefinition(parts[|parts| - 1])
    case None => before
    case Some((name, column)) => before[name := column]
  }

  lemma {:induction false} FirstWordIs(w: string, tail: string)
    requires ' ' !in w && (tail == "" || tail[0] == ' ')
    ensures FirstWord(w + tail) == w
  {
    if w == "" {
      assert w + tail == tail;
    } else {
      FirstWordIs(w[1..], tail);
      assert (w + tail)[1..] == w[1..] + tail;
    }
  }

  lemma TypeIsWord(t: ValueType)
    ensures ' ' !in SqliteType(t)
  {
  }

  /** A quoted name, a type and more, read from the front. */
  lemma NameTypeRead(name: string, ty: string, more: string)
    requires ' ' !in ty && (more == "" || more[0] == ' ')
    ensures ReadColumn(Ident(name) + (" " + ty) + more) == Some(ReadClauses(name, ty, more))
  {
    var rest := " " + ty + more;
    var p := Ident(name) + (" " + ty) + more;
    NameSplit(Doubled('"', name), ty, more);
    hide Unquoted, Doubled, FirstWord, ReadClauses;
    assert p[1..] == Doubled('"', name) + ['"'] + rest;
    UnquotedQuoted('"', name, rest);
    assert rest[1..] == ty + more;
    FirstWordIs(ty, more);
    assert rest[1 + |ty|..] == more;
  }

  lemma NameSplit(d: string, ty: string, more: string)
    ensures (['"'] + d + ['"'] + (" " + ty) + more)[1..] == d + ['"'] + (" " + ty + more)
  {
  }

  /** Whatever a default drags in, the definition that it ends in is read as the column that it began with. */
  lemma ColumnReads(c: TargetColumn, tail: string)
    requires tail == "" || " D" <= tail
    ensures ReadDefinition(Ident(c.name) + (" " + SqliteType(c.dataType)) + Keywords(c) + tail)
         == Some((c.name, LiveColumn(SqliteType(c.dataType), c.primary)))
  {
    TypeIsWord(c.dataType);
    KeyFlag(c, tail);
    ClausesKeep(c.name, SqliteType(c.dataType), Keywords(c) + tail);
    hide SqliteType, Keywords, Ident, ReadColumn, ReadClauses;
    var head := Ident(c.name) + (" " + SqliteType(c.dataType));
    NameTypeRead(c.name, SqliteType(c.dataType), Keywords(c) + tail);
    assert head + Keywords(c) + tail == head + (Keywords(c) + tail);
  }

  lemma ClausesKeep(name: string, ty: string, more: string)
    ensures var r := ReadClauses(name, ty, more);
            r.name == name && r.ty == ty && (r.primary <==> " PRIMARY KEY" <= more)
  {
  }

  lemma KeyFlag(c: TargetColumn, tail: string)
    requires tail == "" || " D" <= tail
    ensures " PRIMARY KEY" <= Keywords(c) + tail <==> c.primary
    ensures Keywords(c) + tail == "" || (Keywords(c) + tail)[0] == ' '
  {
    var more := Keywords(c) + tail;
    assert " PRIMARY KEY"[1] == 'P';
    if c.primary {
      assert " PRIMARY KEY NOT NULL"[..12] == " PRIMARY KEY";
      assert more[..12] == " PRIMARY KEY";
    } else if c.unique {
      assert more[1] == 'U';
    } else if !c.nullable {
      assert more[1] == 'N';
    } else {
      assert more == tail;
    }
  }

  lemma ColumnTextReads(c: TargetColumn)
    ensures ReadDefinition(ColumnText(c)) == Some((c.name, LiveColumn(SqliteType(c.dataType), c.primary)))
  {
    hide ReadDefinition, Quoted, Keywords, SqliteType, KeptText;
    var tail := (if KeptDefault(c).Some? then " DEFAULT " else "") + KeptText(c);
    assert tail == "" || " D" <= tail by { KeptNone(c); }
    ColumnReads(c, tail);
    assert ColumnText(c) == Ident(c.name) + (" " + SqliteType(c.dataType)) + Keywords(c) + tail;
  }

  lemma KeptNone(c: TargetColumn)
    ensures KeptDefault(c).None? ==> KeptText(c) == ""
  {
  }

  lemma {:induction false} ColumnsRead(columns: seq<TargetColumn>)
    ensures ReadShape(ColumnTexts(columns)) == ShapeOf(columns)
  {
    hide ReadDefinition, ColumnText, SqliteType;
    if columns != [] {
      var n := |columns| - 1;
      ColumnsRead(columns[..n]);
      assert ColumnTexts(columns)[..n] == ColumnTexts(columns[..n]);
      ColumnTextReads(columns[n]);
    }
  }

  lemma {:induction false} ClausesRead(parts: seq<string>, clauses: seq<string>)
    requires AreClauses(clauses)
    ensures ReadShape(parts + clauses) == ReadShape(parts)
  {
    if clauses == [] {
      assert parts + clauses == parts;
    } else {
      var n := |clauses| - 1;
      var all := parts + clauses;
      ClausesRead(parts, clauses[..n]);
      assert all[..|all| - 1] == parts + clauses[..n];
      assert clauses[n] in clauses;
    }
  }

  lemma {:induction false} KeysAreClauses(columns: seq<TargetColumn>)
    ensures AreClauses(KeyTexts(columns))
  {
    hide Quoted, ActionText;
    if columns != [] {
      KeysAreClauses(columns[..|columns| - 1]);
      forall name, k ensures KeyText(name, k)[0] == 'F' {}
    }
  }

  /** A created table's definitions, read back, are its columns with their types and key flags. */
  lemma DefinitionsRead(columns: seq<TargetColumn>)
    requires AreClauses(CheckTexts(columns))
    ensures ReadShape(Parts(columns)) == ShapeOf(columns)
  {
    hide ReadShape, KeyTexts, CheckTexts, AreClauses;
    ColumnsRead(columns);
    KeysAreClauses(columns);
    ClausesRead(ColumnTexts(columns), KeyTexts(columns));
    ClausesRead(ColumnTexts(columns) + KeyTexts(columns), CheckTexts(columns));
  }

  /** SQLite finds in the text the statements that were written, and in each new table the columns that were written. */
  predicate Understood(sql: seq<Statement>, hex: string) {
    && Divided(sql, hex)
    && forall k | 0 <= k < |sql| && sql[k].Create? :: ReadShape(Parts(sql[k].columns)) == ShapeOf(sql[k].columns)
  }

  lemma WordedUnderstood(sql: seq<Statement>, hex: string)
    requires AllWorded(sql)
    ensures Understood(sql, hex)
  {
    hide Intact, Divided, ReadShape, ShapeOf, Parts, CheckTexts, AreClauses;
    forall k | 0 <= k < |sql| ensures Intact(sql[k]) { assert Worded(sql[k]); }
    DividedIff(sql, hex);
    forall k | 0 <= k < |sql| && sql[k].Create?
      ensures ReadShape(Parts(sql[k].columns)) == ShapeOf(sql[k].columns)
    {
      assert Worded(sql[k]);
      DefinitionsRead(sql[k].columns);
    }
  }

  /** `write_create_table`: the text grows by the table's statement. */
  method WriteCreateTable(sql0: string, table: TargetTable) returns (sql: string)
    ensures sql == sql0 + CreateText(table.name, table.columns) + ";\n"
  {
    hide Ident, ColumnTexts, KeyTexts, CheckTexts, Commas;
    ghost var head := "CREATE TABLE IF NOT EXISTS " + Ident(table.name) + " (";
    ghost var parts;
    sql := sql0 + ("CREATE TABLE IF NOT EXISTS " + Ident(table.name) + " (");
    sql := WriteColumns(sql, table.columns);
    sql, parts := WriteKeys(sql, table.columns, sql0 + head, ColumnTexts(table.columns));
    sql, parts := WriteChecks(sql, table.columns, sql0 + head, parts);
    sql := sql + ");\n";
    Finished(sql0, head, Commas(parts));
  }

  lemma Finished(a: string, b: string, c: string)
    ensures a + b + c + ");\n" == a + (b + c + ")") + ";\n"
  {
  }

  method WriteColumns(sql0: string, columns: seq<TargetColumn>) returns (sql: string)
    ensures sql == sql0 + Commas(ColumnTexts(columns))
  {
    hide ColumnText, Commas;
    sql := sql0;
    CommasNone();
    var first := true;
    for i := 0 to |columns|
      invariant (first <==> i == 0) && sql == sql0 + Commas(ColumnTexts(columns[..i]))
    {
      if !first { sql := sql + ","; }
      first := false;
      sql := sql + ColumnText(columns[i]);
      CommasLast(ColumnTexts(columns[..i]), ColumnText(columns[i]));
      assert ColumnTexts(columns[..i + 1]) == ColumnTexts(columns[..i]) + [ColumnText(columns[i])];
    }
    assert columns[..|columns|] == columns;
  }

  lemma CommasNone()
    ensures Commas([]) == ""
  {
  }

  method WriteKeys(sql0: string, columns: seq<TargetColumn>, ghost head: string, ghost parts0: seq<string>)
    returns (sql: string, ghost parts: seq<string>)
    requires sql0 == head + Commas(parts0) && (columns != [] ==> parts0 != [])
    ensures parts == parts0 + KeyTexts(columns) && sql == head + Commas(parts)
  {
    hide KeyText, Commas;
    sql, parts := sql0, parts0;
    for i := 0 to |columns|
      invariant parts == parts0 + KeyTexts(columns[..i]) && sql == head + Commas(parts)
    {
      var c := columns[i];
      ghost var before := parts;
      for j := 0 to |c.keys|
        invariant parts == before + seq(j, k requires 0 <= k < j => KeyText(c.name, c.keys[k]))
        invariant sql == head + Commas(parts)
      {
        sql := sql + "," + KeyText(c.name, c.keys[j]);
        CommasLast(parts, KeyText(c.name, c.keys[j]));
        parts := parts + [KeyText(c.name, c.keys[j])];
      }
      assert columns[..i + 1][..i] == columns[..i];
    }
    assert columns[..|columns|] == columns;
  }

  method WriteChecks(sql0: string, columns: seq<TargetColumn>, ghost head: string, ghost parts0: seq<string>)
    returns (sql: string, ghost parts: seq<string>)
    requires sql0 == head + Commas(parts0) && (columns != [] ==> parts0 != [])
    ensures parts == parts0 + CheckTexts(columns) && sql == head + Commas(parts)
  {
    hide Written, Commas;
    sql, parts := sql0, parts0;
    for i := 0 to |columns|
      invariant parts == parts0 + CheckTexts(columns[..i]) && sql == head + Commas(parts)
    {
      var checks := columns[i].checks;
      ghost var before := parts;
      for j := 0 to |checks|
        invariant parts == before + WrittenChecks(checks[..j]) && sql == head + Commas(parts)
      {
        assert checks[..j + 1][..j] == checks[..j];
        if Written(checks[j]) {
          sql := sql + "," + checks[j];
          CommasLast(parts, checks[j]);
          parts := parts + [checks[j]];
        }
      }
      assert checks[..|checks|] == checks;
      assert columns[..i + 1][..i] == columns[..i];
    }
    assert columns[..|columns|] == columns;
  }

  // ----- two defaults that the cut leaves open

  lemma CommasLast(ps: seq<string>, p: string)
    ensures Commas(ps + [p]) == Commas(ps) + (if ps == [] then "" else ",") + p
  {
    assert (ps + [p])[..|ps + [p]| - 1] == ps;
  }

  lemma {:induction false} CommasMerge(xs: seq<string>, a: string, b: string, ys: seq<string>)
    ensures Commas(xs + [a, b] + ys) == Commas(xs + [a + "," + b] + ys)
  {
    hide Commas;
    if ys == [] {
      assert xs + [a, b] + ys == (xs + [a]) + [b] && xs + [a + "," + b] + ys == xs + [a + "," + b];
      CommasLast(xs + [a], b);
      CommasLast(xs, a);
      CommasLast(xs, a + "," + b);
      var before := Commas(xs) + if xs == [] then "" else ",";
      assert before + a + "," + b == before + (a + "," + b);
    } else {
      var n := |ys| - 1;
      CommasMerge(xs, a, b, ys[..n]);
      assert xs + [a, b] + ys == (xs + [a, b] + ys[..n]) + [ys[n]];
      assert xs + [a + "," + b] + ys == (xs + [a + "," + b] + ys[..n]) + [ys[n]];
      CommasLast(xs + [a, b] + ys[..n], ys[n]);
      CommasLast(xs + [a + "," + b] + ys[..n], ys[n]);
    }
  }

  lemma {:induction false} NothingDoubled(s: string)
    requires '\'' !in s
    ensures Doubled('\'', s) == s
  {
    if s != "" { NothingDoubled(s[1..]); }
  }

  lemma {:induction false} NoQuoteInName(name: string)
    requires '\'' !in name
    ensures '\'' !in Doubled('"', name)
  {
    if name != "" { NoQuoteInName(name[1..]); }
  }

  lemma NoQuoteInHead(c: TargetColumn)
    requires '\'' !in c.name
    ensures '\'' !in ColumnHead(c)
  {
    NoQuoteInName(c.name);
    hide Doubled, KeptDefault;
    assert '\'' !in SqliteType(c.dataType);
    assert '\'' !in Keywords(c);
    hide SqliteType, Keywords;
  }

  lemma MergedText(a: TargetColumn, b: TargetColumn)
    requires KeptDefault(a) == Some("'") && KeptDefault(b) == Some("'") && '\'' !in b.name
    ensures ColumnText(a) + "," + ColumnText(b) == ColumnHead(a) + Quoted('\'', "," + ColumnHead(b))
  {
    NoQuoteInHead(b);
    NothingDoubled("," + ColumnHead(b));
    hide ColumnHead, Doubled, KeptDefault;
    QuotesAround(ColumnHead(a), ColumnHead(b));
  }

  lemma QuotesAround(h: string, g: string)
    ensures h + "'" + "," + (g + "'") == h + (['\''] + ("," + g) + ['\''])
  {
  }

  lemma DefaultedReads(a: TargetColumn, more: string)
    requires KeptDefault(a).Some?
    ensures ReadDefinition(ColumnHead(a) + more) == Some((a.name, LiveColumn(SqliteType(a.dataType), a.primary)))
  {
    hide ReadDefinition, KeptDefault, SqliteType, Keywords, Ident;
    var tail := " DEFAULT " + more;
    assert " D" <= tail;
    ColumnReads(a, tail);
    var head := Ident(a.name) + (" " + SqliteType(a.dataType)) + Keywords(a);
    assert head + " DEFAULT " + more == head + tail;
  }

  /** Two definitions, each with a lone quote for a default, are one to the tokenizer: a column with a default. */
  lemma Merged(a: TargetColumn, b: TargetColumn)
    requires KeptDefault(a) == Some("'") && KeptDefault(b) == Some("'") && '\'' !in b.name
    ensures Closed(Definitions, ColumnText(a) + "," + ColumnText(b))
    ensures ReadDefinition(ColumnText(a) + "," + ColumnText(b))
         == Some((a.name, LiveColumn(SqliteType(a.dataType), a.primary)))
  {
    hide Lex, Closed, ReadDefinition, KeptDefault, SqliteType, ColumnHead, ColumnText, Quoted;
    var quoted := Quoted('\'', "," + ColumnHead(b));
    MergedText(a, b);
    HeadClean(a);
    QuotedClean('\'', "," + ColumnHead(b));
    CleanTwo(ColumnHead(a), quoted);
    DefaultedReads(a, quoted);
  }

  /**
    A table with two neighbouring columns whose defaults were cut to a lone quote is
    created without the second of them.
   */
  lemma ColumnSwallowed(front: seq<TargetColumn>, a: TargetColumn, b: TargetColumn, back: seq<TargetColumn>)
    requires var columns := front + [a, b] + back;
             && KeptDefault(a) == Some("'") && KeptDefault(b) == Some("'") && '\'' !in b.name
             && DistinctColumns(columns) && AreClauses(CheckTexts(columns))
             && (forall c | c in front + back :: Closed(Definitions, KeptText(c)))
             && (forall check | check in CheckTexts(columns) :: Closed(Definitions, check))
    ensures var found := Read(Definitions, START, Commas(Parts(front + [a, b] + back)) + ")");
            && found.open == "" && ReadShape(found.done) == ShapeOf(front + [a] + back)
            && b.name !in ReadShape(found.done)
  {
    hide ColumnText, KeptText, KeptDefault, Closed, ReadShape, ReadDefinition, Read, KeyTexts, CheckTexts, Commas;
    var columns, shorter := front + [a, b] + back, front + [a] + back;
    var xs, ys := ColumnTexts(front), ColumnTexts(back);
    var clauses := KeyTexts(columns) + CheckTexts(columns);
    var both := ColumnText(a) + "," + ColumnText(b);
    var found := xs + [both] + (ys + clauses);
    assert Parts(columns) == xs + [ColumnText(a), ColumnText(b)] + (ys + clauses);
    CommasMerge(xs, ColumnText(a), ColumnText(b), ys + clauses);
    Merged(a, b);
    forall p | p in found ensures Closed(Definitions, p) {
      if p != both { FoundClosed(front, back, columns, p); }
    }
    CommasJoined(found, ')');
    JoinedReadsIff(Definitions, found, PartEnds(|found|, ')'));
    KeysAreClauses(columns);
    ClausesRead(xs + [both] + ys, clauses);
    assert xs + [both] + ys + clauses == found;
    MergedShape(front, a, b, back);
    ShapeKeys(shorter);
    assert b.name !in Names(shorter) by { OtherNames(front, a, b, back); }
  }

  lemma OtherNames(front: seq<TargetColumn>, a: TargetColumn, b: TargetColumn, back: seq<TargetColumn>)
    requires DistinctColumns(front + [a, b] + back)
    ensures b.name !in Names(front + [a] + back)
  {
    var columns, k := front + [a, b] + back, |front| + 1;
    assert columns[k] == b;
    forall c | c in front + [a] + back ensures c.name != b.name {
      var i :| 0 <= i < |columns| && i != k && columns[i] == c by {
        var j :| 0 <= j < |front + [a] + back| && (front + [a] + back)[j] == c;
        assert columns[if j < k then j else j + 1] == c;
      }
    }
  }

  lemma FoundClosed(front: seq<TargetColumn>, back: seq<TargetColumn>, columns: seq<TargetColumn>, p: string)
    requires p in ColumnTexts(front) || p in ColumnTexts(back) || p in KeyTexts(columns) || p in CheckTexts(columns)
    requires forall c | c in front + back :: Closed(Definitions, KeptText(c))
    requires forall check | check in CheckTexts(columns) :: Closed(Definitions, check)
    ensures Closed(Definitions, p)
  {
    hide ColumnText, KeptText, Closed, KeyTexts, CheckTexts;
    if p in ColumnTexts(front) {
      var i :| 0 <= i < |front| && p == ColumnText(front[i]);
      ColumnClosed(Definitions, front[i]);
    } else if p in ColumnTexts(back) {
      var i :| 0 <= i < |back| && p == ColumnText(back[i]);
      ColumnClosed(Definitions, back[i]);
    } else if p in KeyTexts(columns) {
      KeyTextsWhole(columns, p);
    }
  }

  lemma {:induction false} MergedShape(front: seq<TargetColumn>, a: TargetColumn, b: TargetColumn,
                                       back: seq<TargetColumn>)
    requires KeptDefault(a) == Some("'") && KeptDefault(b) == Some("'") && '\'' !in b.name
    ensures var both := ColumnText(a) + "," + ColumnText(b);
            ReadShape(ColumnTexts(front) + [both] + ColumnTexts(back)) == ShapeOf(front + [a] + back)
  {
    hide ColumnText, KeptDefault, ReadDefinition, SqliteType;
    var both := ColumnText(a) + "," + ColumnText(b);
    var parts, columns := ColumnTexts(front) + [both] + ColumnTexts(back), front + [a] + back;
    if back == [] {
      ColumnsRead(front);
      Merged(a, b);
      assert parts[..|parts| - 1] == ColumnTexts(front) && columns[..|columns| - 1] == front;
    } else {
      var n := |back| - 1;
      MergedShape(front, a, b, back[..n]);
      ColumnTextReads(back[n]);
      assert parts[..|parts| - 1] == ColumnTexts(front) + [both] + ColumnTexts(back[..n]);
      assert columns[..|columns| - 1] == front + [a] + back[..n];
    }
  }

  /** An address column whose default is a constant with a cast. */
  function AddressColumn(name: string, v: string): TargetColumn {
    TargetColumn(name, Text, false, false, false, Some(Quoted('\'', v) + "::" + "inet"), [], [])
  }

  function HostColumns(): seq<TargetColumn> {
    [TargetColumn("id", Int, true, false, false, None, [], []), AddressColumn("bind_addr", "::"),
     AddressColumn("peer_addr", "::1")]
  }

  /** The defaults of `bind_addr` and `peer_addr` are the addresses `::` and `::1`: the second column is lost. */
  lemma HostsLoseColumn()
    ensures var found := Read(Definitions, START, Commas(Parts(HostColumns())) + ")");
            found.open == "" && ReadShape(found.done).Keys == {"id", "bind_addr"}
  {
    hide Read, ReadShape, Closed, Parts, KeptDefault, CheckTexts, SqliteDefault;
    var columns := HostColumns();
    var id, a, b := columns[0], columns[1], columns[2];
    HostDefaults();
    HostNames();
    assert [id] + [a, b] + [] == columns;
    assert [id] + [] == [id];
    ColumnSwallowed([id], a, b, []);
    assert [id] + [a] + [] == [id, a];
    ShapeKeys([id, a]);
    assert Names([id, a]) == {"id", "bind_addr"};
  }

  lemma HostDefaults()
    ensures var columns := HostColumns();
            && KeptDefault(columns[1]) == Some("'") && KeptDefault(columns[2]) == Some("'")
            && Closed(Definitions, KeptText(columns[0])) && CheckTexts(columns) == []
  {
    hide SqliteDefault;
    LoneQuotes();
    NoChecks(HostColumns());
    EmptyClosed(Definitions);
  }

  lemma HostNames()
    ensures DistinctColumns(HostColumns()) && '\'' !in "peer_addr"
  {
    hide SqliteDefault;
    assert |"id"| == 2 && "bind_addr"[0] == 'b' && "peer_addr"[0] == 'p';
  }

  /** Nothing but the opening quote is kept of the address `::`, or of any that begins with it. */
  lemma LoneQuotes()
    ensures SqliteDefault(Quoted('\'', "::") + "::" + "inet") == Some("'")
    ensures SqliteDefault(Quoted('\'', "::1") + "::" + "inet") == Some("'")
  {
    hide SqliteDefault, Quoted;
    ConstantDefault("::", "inet");
    ConstantDefault("::1", "inet");
    assert CastAt("::") == 0 && CastAt("::1") == 0;
    assert "::"[..0] == "" && "::1"[..0] == "";
    assert Doubled('\'', "") == "" && TrimEnd("") == "";
    assert "'" + "" == "'";
  }

  lemma {:induction false} NoChecks(columns: seq<TargetColumn>)
    requires forall i | 0 <= i < |columns| :: columns[i].checks == []
    ensures CheckTexts(columns) == []
  {
    if columns != [] { NoChecks(columns[..|columns| - 1]); }
  }

  lemma EmptyClosed(l: Level)
    ensures Closed(l, "")
  {
  }
}
