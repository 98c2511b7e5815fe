/**
  A script as commands: what the statements found in the text say, and what carrying
  them out does to a catalogue. Nothing here looks at the plan that was written.
 */
module SqlCommands {
  import opened Bytes
  import opened SchemaTypes
  import opened Catalogue
  import opened SqlLexer
  import opened SqlText
  import opened SqlReading

  datatype Command =
    | Creates(table: string, definitions: seq<string>)
    | CreatesOwn(table: string)
    | Drops(table: string)
    | Adds(table: string, column: ColumnRead)
    | DropsColumn(table: string, name: string)
    | Indexes(index: string, table: string, name: string)
    | Inserts(table: string, key: string, hex: string)
    | Other

  /** The quoted text in front, and what is behind it. */
  function ReadQuoted(q: char, s: string): Option<(string, string)> {
    if s != "" && s[0] == q then Some(Unquoted(q, s[1..])) else None
  }

  function ReadCommand(line: string): Command { ReadBare(Skip("\n", line).1) }

  function ReadBare(s: string): Command {
    var (creates, table) := Skip("CREATE TABLE IF NOT EXISTS ", s);
    var (drops, dropped) := Skip("DROP TABLE IF EXISTS ", s);
    var (alters, altered) := Skip("ALTER TABLE ", s);
    var (indexes, index) := Skip("CREATE UNIQUE INDEX IF NOT EXISTS ", s);
    var (inserts, row) := Skip("INSERT INTO ", s);
    if creates then ReadCreate(table)
    else if drops then ReadDrop(dropped)
    else if alters then ReadAlter(altered)
    else if indexes then ReadIndex(index)
    else if inserts then ReadInsert(row)
    else Other
  }

  /** The definitions of a table with a quoted name; tables with a bare name are the sync's own. */
  function ReadCreate(s: string): Command {
    match ReadQuoted('"', s)
    case None => CreatesOwn(FirstWord(s))
    case Some((table, rest)) =>
      var (opens, body) := Skip(" (", rest);
      if opens then Creates(table, Read(Definitions, START, body).done) else Other
  }

  function ReadDrop(s: string): Command {
    match ReadQuoted('"', s)
    case None => Other
    case Some((table, rest)) => if rest == "" then Drops(table) else Other
  }

  function ReadAlter(s: string): Command {
    match ReadQuoted('"', s)
    case None => Other
    case Some((table, rest)) =>
      var (adds, definition) := Skip(" ADD COLUMN ", rest);
      var (drops, name) := Skip(" DROP COLUMN ", rest);
      if adds then ReadAdded(table, definition) else if drops then ReadDropped(table, name) else Other
  }

  function ReadAdded(table: string, s: string): Command {
    match ReadColumn(s) case None => Other case Some(c) => Adds(table, c)
  }

  function ReadDropped(table: string, s: string): Command {
    match ReadQuoted('"', s)
    case None => Other
    case Some((name, rest)) => if rest == "" then DropsColumn(table, name) else Other
  }

  function ReadIndex(s: string): Command {
    match ReadQuoted('"', s)
    case None => Other
    case Some((index, rest)) =>
      match ReadQuoted('"', Skip(" ON ", rest).1)
      case None => Other
      case Some((table, inside)) =>
        match ReadQuoted('"', Skip("(", inside).1)
        case None => Other
        case Some((name, end)) => if end == ")" then Indexes(index, table, name) else Other
  }

  function ReadInsert(s: string): Command {
    var table := FirstWord(s);
    match ReadQuoted('\'', Skip(" (key, value) VALUES (", s[|table|..]).1)
    case None => Other
    case Some((key, rest)) =>
      match ReadQuoted('\'', Skip(", X", rest).1)
      case None => Other
      case Some((hex, _)) => Inserts(table, key, hex)
  }

  /** The effect of a command on a catalogue, as far as migration looks at it. */
  function Perform(cat: Objects, c: Command): Objects {
    match c
    case Creates(t, definitions) => CreateIfAbsent(cat, t, ReadShape(definitions))
    case CreatesOwn(t) =>
      if t == META then CreateIfAbsent(cat, t, MetaShape())
      else if t == SYNC_LOG then CreateIfAbsent(cat, t, SyncLogShape()) else cat
    case Drops(t) => cat - {t}
    case Adds(t, c) =>
      if IsTable(cat, t) then cat[t := Table(cat[t].shape[c.name := LiveColumn(c.ty, c.primary)])] else cat
    case DropsColumn(t, name) => if IsTable(cat, t) then cat[t := Table(cat[t].shape - {name})] else cat
    case _ => cat
  }

  /**
    What SQLite refuses otherwise: a table with definitions is created, a table and no
    view is dropped, a column is new and no key, a dropped one is there and neither a key
    nor the last, an index is on a column, and a row goes into a table with its columns.
   */
  predicate Accepted(cat: Objects, c: Command) {
    match c
    case Creates(_, definitions) => ReadShape(definitions) != map[]
    case CreatesOwn(t) => t == META || t == SYNC_LOG
    case Drops(t) => t in cat ==> IsTable(cat, t)
    case Adds(t, c) => IsTable(cat, t) && c.name !in cat[t].shape && !c.primary
    case DropsColumn(t, name) =>
      IsTable(cat, t) && name in cat[t].shape && cat[t].shape.Keys != {name} && !cat[t].shape[name].pk
    case Indexes(_, t, name) => IsTable(cat, t) && name in cat[t].shape
    case Inserts(t, _, _) => IsTable(cat, t) && "key" in cat[t].shape && "value" in cat[t].shape
    case Other => false
  }

  /** Every command is accepted by the catalogue that those before it leave. */
  predicate AllAccepted(cat: Objects, lines: seq<string>) {
    lines == [] ||
    var before := lines[..|lines| - 1];
    AllAccepted(cat, before) && Accepted(PerformAll(cat, before), ReadCommand(lines[|lines| - 1]))
  }

  function PerformAll(cat: Objects, lines: seq<string>): Objects {
    if lines == [] then cat else
    Perform(PerformAll(cat, lines[..|lines| - 1]), ReadCommand(lines[|lines| - 1]))
  }

  /** The statements that SQLite finds in the text of a script. */
  function Found(sql: seq<Statement>, hex: string): seq<string> {
    Read(Statements, START, Terminated(Lines(sql, hex))).done
  }

  // ----- the pieces of a statement

  lemma SkipFront(words: string, more: string)
    ensures Skip(words, words + more) == (true, more)
  {
  }

  lemma SkipNot(words: string, s: string, i: nat)
    requires i < |words| && i < |s| && words[i] != s[i]
    ensures Skip(words, s) == (false, s)
  {
  }

  lemma QuotedFront(q: char, name: string, more: string)
    requires more == "" || more[0] != q
    ensures ReadQuoted(q, Quoted(q, name) + more) == Some((name, more))
  {
    UnquotedQuoted(q, name, more);
    hide Unquoted, Doubled;
    var s := Quoted(q, name) + more;
    assert s[1..] == Doubled(q, name) + [q] + more;
  }

  lemma QuotedAll(q: char, name: string)
    ensures ReadQuoted(q, Quoted(q, name)) == Some((name, ""))
  {
    hide Quoted, ReadQuoted;
    QuotedFront(q, name, "");
    assert Quoted(q, name) + "" == Quoted(q, name);
  }

  /** Which command a line is, by the words in front. */
  lemma CreateFront(more: string)
    ensures ReadCommand("CREATE TABLE IF NOT EXISTS " + more) == ReadCreate(more)
  {
    hide ReadCreate, ReadDrop, ReadAlter, ReadIndex, ReadInsert, Skip;
    FrontOf("CREATE TABLE IF NOT EXISTS ", more);
  }

  lemma DropFront(more: string)
    ensures ReadCommand("DROP TABLE IF EXISTS " + more) == ReadDrop(more)
  {
    hide ReadCreate, ReadDrop, ReadAlter, ReadIndex, ReadInsert, Skip;
    FrontOf("DROP TABLE IF EXISTS ", more);
  }

  lemma AlterFront(more: string)
    ensures ReadCommand("ALTER TABLE " + more) == ReadAlter(more)
  {
    hide ReadCreate, ReadDrop, ReadAlter, ReadIndex, ReadInsert, Skip;
    FrontOf("ALTER TABLE ", more);
  }

  lemma IndexFront(more: string)
    ensures ReadCommand("CREATE UNIQUE INDEX IF NOT EXISTS " + more) == ReadIndex(more)
  {
    hide ReadCreate, ReadDrop, ReadAlter, ReadIndex, ReadInsert, Skip;
    FrontOf("CREATE UNIQUE INDEX IF NOT EXISTS ", more);
  }

  lemma InsertFront(more: string)
    ensures ReadCommand("INSERT INTO " + more) == ReadInsert(more)
  {
    hide ReadCreate, ReadDrop, ReadAlter, ReadIndex, ReadInsert, Skip;
    FrontOf("INSERT INTO ", more);
  }

  predicate IsFront(words: string) {
    || words == "CREATE TABLE IF NOT EXISTS " || words == "DROP TABLE IF EXISTS " || words == "ALTER TABLE "
    || words == "CREATE UNIQUE INDEX IF NOT EXISTS " || words == "INSERT INTO "
  }

  /** The words that begin the commands exclude each other. */
  lemma FrontOf(words: string, more: string)
    requires IsFront(words)
    ensures Skip("\n", words + more) == (false, words + more)
    ensures Skip(words, words + more) == (true, more)
    ensures forall other | IsFront(other) && other != words :: !Skip(other, words + more).0
  {
    SkipNot("\n", words + more, 0);
    SkipFront(words, more);
    forall other | IsFront(other) && other != words ensures !Skip(other, words + more).0 {
      if words[0] != other[0] {
        SkipNot(other, words + more, 0);
      } else {
        assert words[7] != other[7];
        SkipNot(other, words + more, 7);
      }
    }
  }

  predicate Begins(line: string) { line != "" && line[0] != '\n' }

  /** A line break in front changes nothing. */
  lemma BreakFront(line: string)
    requires line == "" || line[0] != '\n'
    ensures ReadCommand("\n" + line) == ReadCommand(line)
  {
    hide ReadBare;
    SkipFront("\n", line);
    if line != "" { SkipNot("\n", line, 0); }
  }

  // ----- the statements, read

  lemma CreateSays(table: string, columns: seq<TargetColumn>)
    requires PartsFound(columns)
    ensures ReadCommand(CreateText(table, columns)) == Creates(table, Parts(columns))
  {
    hide Parts, Commas, Quoted, Skip, Read, ReadCommand;
    var body := Commas(Parts(columns)) + ")";
    var more := Ident(table) + (" (" + body);
    CreateFront(more);
    QuotedFront('"', table, " (" + body);
    SkipFront(" (", body);
    assert CreateText(table, columns) == "CREATE TABLE IF NOT EXISTS " + more;
  }

  lemma DropSays(table: string)
    ensures ReadCommand("DROP TABLE IF EXISTS " + Ident(table)) == Drops(table)
  {
    hide Quoted, ReadCommand;
    DropFront(Ident(table));
    QuotedAll('"', table);
  }

  lemma DropColumnSays(table: string, name: string)
    ensures ReadCommand("ALTER TABLE " + Ident(table) + " DROP COLUMN " + Ident(name)) == DropsColumn(table, name)
  {
    hide Quoted, ReadCommand, Skip;
    var behind := " DROP COLUMN " + Ident(name);
    var more := Ident(table) + behind;
    AlterFront(more);
    QuotedFront('"', table, behind);
    SkipFront(" DROP COLUMN ", Ident(name));
    SkipNot(" ADD COLUMN ", behind, 1);
    QuotedAll('"', name);
    assert "ALTER TABLE " + Ident(table) + " DROP COLUMN " + Ident(name) == "ALTER TABLE " + more;
  }

  /** The index of a unique column is on that column of that table. */
  lemma IndexSays(table: string, name: string)
    ensures var line := "CREATE UNIQUE INDEX IF NOT EXISTS " + Ident("__uniq_" + table + "_" + name + "__") + " ON "
                        + Ident(table) + ("(" + Ident(name) + ")");
            ReadCommand(line) == Indexes("__uniq_" + table + "_" + name + "__", table, name)
  {
    hide Quoted, ReadCommand, Skip;
    var index := "__uniq_" + table + "_" + name + "__";
    var column := Ident(name) + ")";
    var inside := "(" + column;
    var behind := Ident(table) + inside;
    var more := Ident(index) + (" ON " + behind);
    IndexFront(more);
    QuotedFront('"', index, " ON " + behind);
    SkipFront(" ON ", behind);
    QuotedFront('"', table, inside);
    SkipFront("(", column);
    QuotedFront('"', name, ")");
    assert "CREATE UNIQUE INDEX IF NOT EXISTS " + Ident(index) + " ON " + Ident(table) + ("(" + Ident(name) + ")")
        == "CREATE UNIQUE INDEX IF NOT EXISTS " + more;
  }

  /** The type written for a column is the one for it, and the default what the cut leaves of its own. */
  ghost predicate Means(c: TargetColumn) {
    && Declares(SqliteType(c.dataType), c.dataType)
    && match c.defaultText
       case None => KeptDefault(c) == None
       case Some(text) => KeptDefault(c) == SqliteDefault(text)
  }

  lemma MeansSo(c: TargetColumn)
    ensures Means(c)
  {
    hide SqliteDefault;
    DeclaresIff(SqliteType(c.dataType), c.dataType);
  }

  /**
    An added column has its name, its type and its default; behind a default it is not
    null unless it may be, and without one it may be, whatever the target says.
   */
  lemma AddSays(table: string, c: TargetColumn)
    ensures ReadCommand(AddText(table, c)) == Adds(table, AddedRead(c)) && Means(c)
  {
    MeansSo(c);
    hide Quoted, ReadCommand, Skip, ReadColumn, KeptDefault, SqliteType, Means;
    var tail := AddTail(c);
    var definition := Ident(c.name) + (" " + SqliteType(c.dataType)) + tail;
    var behind := " ADD COLUMN " + definition;
    var more := Ident(table) + behind;
    AlterFront(more);
    QuotedFront('"', table, behind);
    SkipFront(" ADD COLUMN ", definition);
    TypeIsWord(c.dataType);
    NameTypeRead(c.name, SqliteType(c.dataType), tail);
    hide ReadClauses;
    TailSays(c.name, SqliteType(c.dataType), c);
    hide AddTail;
    assert AddText(table, c) == "ALTER TABLE " + more by { AddParts(table, c); }
  }

  lemma AddParts(table: string, c: TargetColumn)
    ensures AddText(table, c)
         == "ALTER TABLE " + (Ident(table) + (" ADD COLUMN "
            + (Ident(c.name) + (" " + SqliteType(c.dataType)) + AddTail(c))))
  {
    hide Quoted, KeptDefault, SqliteType;
    var head := "ALTER TABLE " + Ident(table) + " ADD COLUMN " + Ident(c.name) + (" " + SqliteType(c.dataType));
    assert AddText(table, c) == head + AddTail(c) by {
      if KeptDefault(c).Some? {
        var last := if c.nullable then "" else " NOT NULL";
        assert head + " DEFAULT " + KeptText(c) + last == head + (" DEFAULT " + (KeptText(c) + last));
      }
    }
  }

  /** What is written behind the type of an added column. */
  function AddTail(c: TargetColumn): string {
    if KeptDefault(c).None? then "" else " DEFAULT " + (KeptText(c) + if c.nullable then "" else " NOT NULL")
  }

  /** An added column, read. */
  function AddedRead(c: TargetColumn): ColumnRead {
    ColumnRead(c.name, SqliteType(c.dataType), false, false, false,
               match KeptDefault(c)
               case None => None
               case Some(text) => Some(text + if c.nullable then "" else " NOT NULL"))
  }

  lemma TailSays(name: string, ty: string, c: TargetColumn)
    ensures ReadClauses(name, ty, AddTail(c))
         == ColumnRead(name, ty, false, false, false, AddedRead(c).defaultText)
  {
    hide KeptDefault, SqliteType, Skip;
    var text := KeptText(c) + if c.nullable then "" else " NOT NULL";
    DefaultSkips(text);
  }

  /** Neither nothing nor a default is one of the constraints. */
  lemma DefaultSkips(text: string)
    ensures forall s | s == "" || s == " DEFAULT " + text ::
              (Skip(" PRIMARY KEY", s) == (false, s) && Skip(" UNIQUE", s) == (false, s)
               && Skip(" NOT NULL", s) == (false, s))
    ensures Skip(" DEFAULT ", "") == (false, "") && Skip(" DEFAULT ", " DEFAULT " + text) == (true, text)
  {
    var s := " DEFAULT " + text;
    SkipNot(" PRIMARY KEY", s, 1);
    SkipNot(" UNIQUE", s, 1);
    SkipNot(" NOT NULL", s, 1);
    SkipFront(" DEFAULT ", text);
  }

  /**
    A column of a new table: a key is a key and not null, another column is unique and
    not null as the target says, and the default is the one that is kept.
   */
  lemma ColumnSays(c: TargetColumn)
    ensures ReadColumn(ColumnText(c))
         == Some(ColumnRead(c.name, SqliteType(c.dataType), c.primary, c.unique && !c.primary,
                            c.primary || !c.nullable, KeptDefault(c))) && Means(c)
  {
    MeansSo(c);
    hide Quoted, ReadClauses, ReadColumn, KeptDefault, SqliteType, Keywords, Means;
    var tail := if KeptDefault(c).Some? then " DEFAULT " + KeptText(c) else "";
    var head := Ident(c.name) + (" " + SqliteType(c.dataType));
    TypeIsWord(c.dataType);
    KeywordsSay(c, tail, KeptText(c));
    assert ColumnText(c) == head + (Keywords(c) + tail);
    assert ClausesSay(Keywords(c) + tail, c.primary, c.unique && !c.primary, c.primary || !c.nullable, KeptDefault(c));
    NameTypeRead(c.name, SqliteType(c.dataType), Keywords(c) + tail);
  }

  /** The first definitions of a new table are its columns, in order, and read as such. */
  lemma PartSays(columns: seq<TargetColumn>, i: nat)
    requires i < |columns|
    ensures var c := columns[i];
            && i < |Parts(columns)| && Means(c)
            && ReadColumn(Parts(columns)[i])
            == Some(ColumnRead(c.name, SqliteType(c.dataType), c.primary, c.unique && !c.primary,
                               c.primary || !c.nullable, KeptDefault(c)))
  {
    ColumnSays(columns[i]);
    hide ColumnText, ReadColumn, KeyTexts, CheckTexts, Means, KeptDefault, SqliteType;
  }

  /** What the constraints and the default of a column say. */
  ghost predicate ClausesSay(more: string, primary: bool, unique: bool, notNull: bool, text: Option<string>) {
    && (more == "" || more[0] == ' ')
    && forall name, ty :: ReadClauses(name, ty, more) == ColumnRead(name, ty, primary, unique, notNull, text)
  }

  lemma KeywordsSay(c: TargetColumn, tail: string, text: string)
    requires tail == "" || tail == " DEFAULT " + text
    ensures ClausesSay(Keywords(c) + tail, c.primary, c.unique && !c.primary, c.primary || !c.nullable,
                       if tail == "" then None else Some(text))
  {
    hide ClausesSay;
    if c.primary {
      KeySaysSo(tail, text);
      Nested(" PRIMARY KEY", " NOT NULL", tail);
      assert " PRIMARY KEY" + " NOT NULL" == " PRIMARY KEY NOT NULL";
    } else {
      var unique, last := if c.unique then " UNIQUE" else "", if c.nullable then "" else " NOT NULL";
      PlainSaysSo(c.unique, c.nullable, tail, text);
      Nested(unique, last, tail);
    }
  }

  lemma Nested(a: string, b: string, c: string)
    ensures a + b + c == a + (b + c)
  {
  }

  lemma KeySaysSo(tail: string, text: string)
    requires tail == "" || tail == " DEFAULT " + text
    ensures ClausesSay(" PRIMARY KEY" + (" NOT NULL" + tail), true, false, true,
                       if tail == "" then None else Some(text))
  {
    hide Skip;
    DefaultSkips(text);
    SkipFront(" PRIMARY KEY", " NOT NULL" + tail);
    SkipNot(" UNIQUE", " NOT NULL" + tail, 1);
    SkipFront(" NOT NULL", tail);
  }

  lemma PlainSaysSo(unique: bool, nullable: bool, tail: string, text: string)
    requires tail == "" || tail == " DEFAULT " + text
    ensures ClausesSay((if unique then " UNIQUE" else "") + ((if nullable then "" else " NOT NULL") + tail),
                       false, unique, !nullable, if tail == "" then None else Some(text))
  {
    hide Skip;
    DefaultSkips(text);
    var last := (if nullable then "" else " NOT NULL") + tail;
    assert last == if nullable then tail else " NOT NULL" + tail;
    if !nullable {
      SkipFront(" NOT NULL", tail);
      SkipNot(" UNIQUE", last, 1);
      SkipNot(" PRIMARY KEY", last, 1);
    }
    if unique {
      SkipFront(" UNIQUE", last);
      SkipNot(" PRIMARY KEY", " UNIQUE" + last, 1);
    } else {
      assert "" + last == last;
    }
  }

  // ----- foreign keys

  /** The words of the actions. */
  function ReadAction(s: string): Option<(Action, string)> {
    var (none, s0) := Skip("NO ACTION", s);
    var (cascade, s1) := Skip("CASCADE", s);
    var (setNull, s2) := Skip("SET NULL", s);
    var (setDefault, s3) := Skip("SET DEFAULT", s);
    var (restrict, s4) := Skip("RESTRICT", s);
    if none then Some((NoAction, s0)) else if cascade then Some((Cascade, s1))
    else if setNull then Some((SetNull, s2)) else if setDefault then Some((SetDefault, s3))
    else if restrict then Some((Restrict, s4)) else None
  }

  /** A foreign key clause: its column, and what it names. */
  function ReadKey(p: string): Option<(string, KeyClause)> {
    match ReadQuoted('"', Skip("FOREIGN KEY(", p).1)
    case None => None
    case Some((name, a)) =>
      match ReadQuoted('"', Skip(") REFERENCES ", a).1)
      case None => None
      case Some((table, b)) =>
        match ReadQuoted('"', Skip("(", b).1)
        case None => None
        case Some((column, d)) => ReadActions(name, table, column, Skip(") ON UPDATE ", d).1)
  }

  function ReadActions(name: string, table: string, column: string, s: string): Option<(string, KeyClause)> {
    match ReadAction(s)
    case None => None
    case Some((onUpdate, rest)) =>
      match ReadAction(Skip(" ON DELETE ", rest).1)
      case None => None
      case Some((onDelete, end)) =>
        if end == "" then Some((name, KeyClause(table, column, onUpdate, onDelete))) else None
  }

  lemma ActionSays(a: Action, more: string)
    ensures ReadAction(ActionText(a) + more) == Some((a, more))
  {
    hide Skip;
    var s := ActionText(a) + more;
    SkipFront(ActionText(a), more);
    forall words | words in {"NO ACTION", "CASCADE", "SET NULL", "SET DEFAULT", "RESTRICT"} && words != ActionText(a)
      ensures Skip(words, s) == (false, s)
    {
      if words[0] != s[0] { SkipNot(words, s, 0); } else { SkipNot(words, s, 4); }
    }
  }

  /** A foreign key's text names its column, its target, and its two actions as such. */
  lemma KeySays(name: string, k: KeyClause)
    ensures ReadKey(KeyText(name, k)) == Some((name, k))
  {
    hide Quoted, Skip, ActionText, ReadAction, ReadQuoted;
    var f := " ON DELETE " + ActionText(k.onDelete);
    var e := ActionText(k.onUpdate) + f;
    var d := ") ON UPDATE " + e;
    var b := "(" + (Ident(k.column) + d);
    var a := ") REFERENCES " + (Ident(k.table) + b);
    KeyParts(name, k);
    SkipFront("FOREIGN KEY(", Ident(name) + a);
    QuotedFront('"', name, a);
    SkipFront(") REFERENCES ", Ident(k.table) + b);
    QuotedFront('"', k.table, b);
    SkipFront("(", Ident(k.column) + d);
    QuotedFront('"', k.column, d);
    SkipFront(") ON UPDATE ", e);
    ActionSays(k.onUpdate, f);
    SkipFront(" ON DELETE ", ActionText(k.onDelete));
    ActionSays(k.onDelete, "");
    assert ActionText(k.onDelete) + "" == ActionText(k.onDelete);
  }

  lemma KeyParts(name: string, k: KeyClause)
    ensures var e := ActionText(k.onUpdate) + (" ON DELETE " + ActionText(k.onDelete));
            var b := "(" + (Ident(k.column) + (") ON UPDATE " + e));
            KeyText(name, k) == "FOREIGN KEY(" + (Ident(name) + (") REFERENCES " + (Ident(k.table) + b)))
  {
    hide Quoted, ActionText;
  }

  /** The text is that of a foreign key of one of the columns. */
  ghost predicate IsKey(columns: seq<TargetColumn>, p: string) {
    exists i :: 0 <= i < |columns| && IsKeyOf(columns[i], p)
  }

  ghost predicate IsKeyOf(c: TargetColumn, p: string) {
    exists j :: 0 <= j < |c.keys| && ReadKey(p) == Some((c.name, c.keys[j])) && p == KeyText(c.name, c.keys[j])
  }

  /** The key clauses of a new table are its columns' foreign keys, and read as such. */
  lemma {:induction false} ClausesAre(columns: seq<TargetColumn>, p: string)
    ensures p in KeyTexts(columns) <==> IsKey(columns, p)
  {
    hide KeyText, ReadKey;
    if columns != [] {
      var n := |columns| - 1;
      var c := columns[n];
      ClausesAre(columns[..n], p);
      assert IsKey(columns, p) <==> IsKey(columns[..n], p) || IsKeyOf(c, p) by {
        if i :| 0 <= i < n && IsKeyOf(columns[i], p) { assert columns[..n][i] == columns[i]; }
      }
      var last := seq(|c.keys|, j requires 0 <= j < |c.keys| => KeyText(c.name, c.keys[j]));
      if p in last {
        var j :| 0 <= j < |last| && last[j] == p;
        KeySays(c.name, c.keys[j]);
      }
      if IsKeyOf(c, p) {
        var j :| 0 <= j < |c.keys| && p == KeyText(c.name, c.keys[j]);
        assert last[j] == p;
      }
    }
  }

  // ----- the hash

  /** The upsert writes the hash into the meta table, under its key. */
  lemma HashSays(hex: string)
    ensures ReadCommand(HashText(hex)) == Inserts(META, "schema_hash", hex) && Begins(HashText(hex))
  {
    hide Quoted, ReadCommand, Skip, FirstWord, ReadQuoted;
    var end := ") ON CONFLICT(key)" + " DO UPDATE SET " + "value = excluded.value";
    var value := Quoted('\'', hex) + end;
    var key := Quoted('\'', "schema_hash") + (", X" + value);
    var row := " (key, value) VALUES (" + key;
    InsertFront(META + row);
    FirstWordIs(META, row);
    assert (META + row)[|META|..] == row;
    SkipFront(" (key, value) VALUES (", key);
    QuotedFront('\'', "schema_hash", ", X" + value);
    SkipFront(", X", value);
    QuotedFront('\'', hex, end);
    GluedThree("INSERT INTO ", META, " (key, value) VALUES (");
    GluedThree(Quoted('\'', "schema_hash"), ", X", Quoted('\'', hex));
    GluedThree(") ON CONFLICT(key)", " DO UPDATE SET ", "value = excluded.value");
    var one, two, three := ["INSERT INTO ", META, " (key, value) VALUES ("],
                           [Quoted('\'', "schema_hash"), ", X", Quoted('\'', hex)],
                           [") ON CONFLICT(key)", " DO UPDATE SET ", "value = excluded.value"];
    GluedTwo(one, two);
    GluedTwo(one + two, three);
    assert one + two + three
        == ["INSERT INTO ", META, " (key, value) VALUES (", Quoted('\'', "schema_hash"), ", X", Quoted('\'', hex),
            ") ON CONFLICT(key)", " DO UPDATE SET ", "value = excluded.value"];
    Regrouped("INSERT INTO ", META, " (key, value) VALUES (", Quoted('\'', "schema_hash"), ", X", Quoted('\'', hex),
              end);
  }

  lemma Regrouped(a: string, b: string, c: string, d: string, e: string, f: string, g: string)
    ensures a + b + c + (d + e + f) + g == a + (b + (c + (d + (e + (f + g)))))
  {
  }

  lemma {:induction false} GluedTwo(a: seq<string>, b: seq<string>)
    ensures Glued(a + b) == Glued(a) + Glued(b)
  {
    if b == [] {
      assert a + b == a;
    } else {
      var n := |b| - 1;
      GluedTwo(a, b[..n]);
      GluedLast(b);
      GluedLast(a + b);
      assert (a + b)[..|a + b| - 1] == a + b[..n];
      hide Glued;
      assert Glued(a) + Glued(b[..n]) + b[n] == Glued(a) + (Glued(b[..n]) + b[n]);
    }
  }

  lemma GluedLast(words: seq<string>)
    requires words != []
    ensures Glued(words) == Glued(words[..|words| - 1]) + words[|words| - 1]
  {
  }

  lemma GluedThree(x: string, y: string, z: string)
    ensures Glued([x, y, z]) == x + y + z
  {
    var one, two, three := [x], [x, y], [x, y, z];
    assert one[..0] == [] && Glued(one) == x;
    assert two[..1] == one && Glued(two) == x + y;
    assert three[..2] == two;
  }

  // ----- the whole script

  lemma {:induction false} GluedFront(words: seq<string>)
    requires words != []
    ensures Glued(words) == words[0] + Glued(words[1..])
  {
    GluedTwo([words[0]], words[1..]);
    assert [words[0]] + words[1..] == words;
    assert [words[0]][..0] == [] && Glued([words[0]]) == words[0];
  }

  /** The creation of a table whose name is not quoted. */
  lemma OwnSays(name: string, words: seq<string>)
    requires |words| > 2 && words[0] == "CREATE TABLE IF NOT EXISTS " && words[1] == name
    requires words[2] != "" && words[2][0] == ' ' && ' ' !in name && name != "" && name[0] != '"'
    ensures ReadCommand(Glued(words)) == CreatesOwn(name) && Begins(Glued(words))
  {
    hide Glued, ReadCommand, FirstWord;
    var more := Glued(words[2..]);
    GluedFront(words);
    GluedFront(words[1..]);
    GluedFront(words[2..]);
    CreateFront(name + more);
    FirstWordIs(name, more);
  }

  lemma MetaSays()
    ensures ReadCommand(MetaText()) == CreatesOwn(META) && Begins(MetaText())
  {
    hide Glued, ReadCommand, Begins;
    OwnSays(META, ["CREATE TABLE IF NOT EXISTS ", META, " (key", " TEXT NOT NULL PRIMARY KEY", ",value",
                   " BLOB NOT NULL", ") WITHOUT ROWID"]);
  }

  lemma SyncLogSays()
    ensures ReadCommand(SyncLogText()) == CreatesOwn(SYNC_LOG) && Begins(SyncLogText())
  {
    hide Glued, ReadCommand, Quoted, Begins;
    OwnSays(SYNC_LOG,
            ["CREATE TABLE IF NOT EXISTS ", SYNC_LOG, " (", "table_name", "  TEXT NOT NULL", ",record_id",
             "   TEXT NOT NULL", ",op_type", "     TEXT NOT NULL CHECK ", "(op_type", " IN ", "(",
             Quoted('\'', "I"), ",", Quoted('\'', "U"), ",", Quoted('\'', "D"), "))", ",version",
             "     INTEGER NOT NULL DEFAULT ", "1,updated_at", "  INTEGER NOT NULL", ",", "PRIMARY KEY ",
             "(table_name", ", record_id)", ") WITHOUT ROWID", ", STRICT"]);
  }

  /** Carrying out a statement's text does what the plan says of the statement. */
  lemma StatementPerformed(cat: Objects, s: Statement, hex: string)
    requires s.Create? ==> PartsFound(s.columns) && ReadShape(Parts(s.columns)) == ShapeOf(s.columns)
    ensures PerformAll(cat, Texts(s, hex)) == Apply(cat, s)
    ensures Applicable(cat, s) ==> AllAccepted(cat, Texts(s, hex))
  {
    hide ReadCommand, ReadShape, ShapeOf, Parts, PartsFound, CreateText, AddText, MetaText, HashText, SyncLogText,
         Quoted, MetaShape, SyncLogShape;
    match s
    case Create(t, columns) =>
      CreateSays(t, columns);
      OneLine(cat, CreateText(t, columns));
      SomeColumns(columns);
    case Drop(t) =>
      DropSays(t);
      OneLine(cat, "DROP TABLE IF EXISTS " + Ident(t));
    case AddColumn(t, c) =>
      AddSays(t, c);
      hide SqliteType, KeptDefault;
      OneLine(cat, AddText(t, c));
    case UniqueIndex(t, c) =>
      IndexSays(t, c);
      OneLine(cat, Texts(s, hex)[0]);
    case DropColumn(t, c) =>
      DropColumnSays(t, c);
      OneLine(cat, Texts(s, hex)[0]);
    case SyncLog =>
      SyncLogSays();
      OneLine(cat, SyncLogText());
    case UpsertHash =>
      HashPerformed(cat, hex);
  }

  lemma SomeColumns(columns: seq<TargetColumn>)
    ensures columns != [] ==> ShapeOf(columns) != map[]
  {
    ShapeKeys(columns);
    if columns != [] {
      assert columns[0] in columns;
      assert columns[0].name in Names(columns);
    }
  }

  /** The table for the hash is created before the hash is written. */
  lemma HashPerformed(cat: Objects, hex: string)
    ensures PerformAll(cat, [MetaText(), HashText(hex)]) == Apply(cat, UpsertHash)
    ensures Applicable(cat, UpsertHash) ==> AllAccepted(cat, [MetaText(), HashText(hex)])
  {
    hide ReadCommand, MetaText, HashText;
    MetaSays();
    HashSays(hex);
    OneLine(cat, MetaText());
    OneLine(PerformAll(cat, [MetaText()]), HashText(hex));
    PerformTwo(cat, [MetaText()], [HashText(hex)]);
    assert [MetaText()] + [HashText(hex)] == [MetaText(), HashText(hex)];
    assert "key" in MetaShape() && "value" in MetaShape();
  }

  lemma OneLine(cat: Objects, line: string)
    ensures PerformAll(cat, [line]) == Perform(cat, ReadCommand(line))
    ensures AllAccepted(cat, [line]) <==> Accepted(cat, ReadCommand(line))
  {
    hide Perform, ReadCommand, Accepted;
    assert [line][..0] == [];
  }

  lemma {:induction false} PerformTwo(cat: Objects, a: seq<string>, b: seq<string>)
    ensures PerformAll(cat, a + b) == PerformAll(PerformAll(cat, a), b)
    ensures AllAccepted(cat, a + b) <==> AllAccepted(cat, a) && AllAccepted(PerformAll(cat, a), b)
  {
    hide Perform, ReadCommand, Accepted;
    if b == [] {
      assert a + b == a;
    } else {
      assert (a + b)[..|a + b| - 1] == a + b[..|b| - 1];
      PerformTwo(cat, a, b[..|b| - 1]);
    }
  }

  lemma {:induction false} LinesPerformed(cat: Objects, sql: seq<Statement>, hex: string)
    requires forall k | 0 <= k < |sql| && sql[k].Create? ::
               PartsFound(sql[k].columns) && ReadShape(Parts(sql[k].columns)) == ShapeOf(sql[k].columns)
    ensures PerformAll(cat, Lines(sql, hex)) == ApplyAll(cat, sql)
    ensures Sound(cat, sql) ==> AllAccepted(cat, Lines(sql, hex))
  {
    hide Perform, Accepted, Applicable, NoEmptyTable, ReadShape, ShapeOf, Parts, PartsFound, Texts, Apply;
    if sql != [] {
      var n := |sql| - 1;
      LinesPerformed(cat, sql[..n], hex);
      PerformTwo(cat, Lines(sql[..n], hex), Texts(sql[n], hex));
      StatementPerformed(ApplyAll(cat, sql[..n]), sql[n], hex);
    }
  }

  /** No statement begins with a line break, and the breaks between them change nothing. */
  lemma {:induction false} RowsPerformed(cat: Objects, lines: seq<string>)
    requires forall i | 0 <= i < |lines| :: Begins(lines[i])
    ensures PerformAll(cat, Rows(lines)) == PerformAll(cat, lines)
    ensures AllAccepted(cat, Rows(lines)) <==> AllAccepted(cat, lines)
  {
    hide Perform, ReadCommand, Accepted;
    if lines != [] {
      var n := |lines| - 1;
      RowsPerformed(cat, lines[..n]);
      assert Rows(lines)[..n] == Rows(lines[..n]);
      BreakFront(lines[n]);
    }
  }

  lemma {:induction false} LinesBegin(sql: seq<Statement>, hex: string)
    ensures forall i | 0 <= i < |Lines(sql, hex)| :: Begins(Lines(sql, hex)[i])
  {
    hide Texts;
    if sql != [] {
      LinesBegin(sql[..|sql| - 1], hex);
      TextsBegin(sql[|sql| - 1], hex);
    }
  }

  lemma TextsBegin(s: Statement, hex: string)
    ensures forall i | 0 <= i < |Texts(s, hex)| :: Begins(Texts(s, hex)[i])
  {
    hide Glued, Parts, Quoted, KeptDefault, SqliteType;
    match s
    case SyncLog => OwnBegins(s, hex);
    case UpsertHash => OwnBegins(s, hex);
    case _ =>
  }

  lemma OwnBegins(s: Statement, hex: string)
    requires s.SyncLog? || s.UpsertHash?
    ensures forall i | 0 <= i < |Texts(s, hex)| :: Begins(Texts(s, hex)[i])
  {
    hide Begins, ReadCommand, MetaText, HashText, SyncLogText;
    if s.SyncLog? { SyncLogSays(); } else { MetaSays(); HashSays(hex); }
  }

  /**
    What SQLite finds in the text of a script that it understands, carried out in turn,
    has the effect of the plan, on every catalogue; and nothing in it is refused if every
    statement of the plan applies to what the earlier ones leave.
   */
  lemma ScriptPerformed(cat: Objects, sql: seq<Statement>, hex: string)
    requires Understood(sql, hex)
    ensures PerformAll(cat, Found(sql, hex)) == ApplyAll(cat, sql)
    ensures Sound(cat, sql) ==> AllAccepted(cat, Found(sql, hex))
  {
    hide Sound, AllAccepted, PerformAll, Terminated, Read, Rows, Lines, PartsFound, ReadShape, Parts, ShapeOf, ApplyAll;
    LinesBegin(sql, hex);
    RowsPerformed(cat, Lines(sql, hex));
    LinesPerformed(cat, sql, hex);
  }
}
