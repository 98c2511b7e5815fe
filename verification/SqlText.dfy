/**
  The text that a migration hands to SQLite, and what SQLite's tokenizer makes of it.
  Names are quoted and cannot do harm. Defaults are copied from PostgreSQL after a
  cut, and checks as they are: the text divides into the statements and definitions
  that were written, if and only if every default and check in it is closed.
 */
module SqlText {
  import opened Bytes
  import opened SchemaTypes
  import opened Catalogue
  import opened SqlLexer

  function Ident(name: string): string { Quoted('"', name) }

  // ----- defaults

  /** `char::is_whitespace`. */
  predicate White(c: char) {
    '\t' <= c <= '\r' || c == ' ' || c == '\U{85}' || c == '\U{A0}' || c == '\U{1680}' || '\U{2000}' <= c <= '\U{200A}'
    || c == '\U{2028}' || c == '\U{2029}' || c == '\U{202F}' || c == '\U{205F}' || c == '\U{3000}'
  }

  function TrimStart(s: string): string { if s != "" && White(s[0]) then TrimStart(s[1..]) else s }

  function TrimEnd(s: string): string { if s != "" && White(s[|s| - 1]) then TrimEnd(s[..|s| - 1]) else s }

  /** The position of the first `::`, or the length. */
  function CastAt(s: string): (k: nat)
    ensures k <= |s|
  {
    if s == "" || (|s| > 1 && s[0] == ':' && s[1] == ':') then 0 else 1 + CastAt(s[1..])
  }

  predicate Digit(c: char) { '0' <= c <= '9' }

  /** The text begins as a literal does. */
  predicate Literal(s: string) {
    && s != ""
    && (s[0] == '\'' || Digit(s[0]) || (s[0] == '-' && |s| > 1 && Digit(s[1]))
        || Upper(s) == "TRUE" || Upper(s) == "FALSE" || Upper(s) == "NULL" || Upper(s) == "CURRENT_TIMESTAMP")
  }

  /** `sqlite_default`: everything from the first `::` is cut off, wherever that is. */
  function SqliteDefault(text: string): Option<string> {
    var s := TrimStart(TrimEnd(text));
    var cut := if CastAt(s) < |s| then TrimEnd(s[..CastAt(s)]) else s;
    if Literal(cut) then Some(cut) else None
  }

  /** The default that is written for a column. */
  function KeptDefault(c: TargetColumn): Option<string> {
    match c.defaultText case None => None case Some(text) => SqliteDefault(text)
  }

  function KeptText(c: TargetColumn): string { match KeptDefault(c) case None => "" case Some(d) => d }

  // ----- statements

  function ActionText(a: Action): string {
    match a
    case NoAction => "NO ACTION" case Cascade => "CASCADE" case SetNull => "SET NULL"
    case SetDefault => "SET DEFAULT" case Restrict => "RESTRICT"
  }

  function Keywords(c: TargetColumn): string {
    if c.primary then " PRIMARY KEY NOT NULL"
    else (if c.unique then " UNIQUE" else "") + (if c.nullable then "" else " NOT NULL")
  }

  /** A column's definition up to its default. */
  function ColumnHead(c: TargetColumn): string {
    Ident(c.name) + (" " + SqliteType(c.dataType)) + Keywords(c) + if KeptDefault(c).Some? then " DEFAULT " else ""
  }

  function ColumnText(c: TargetColumn): string { ColumnHead(c) + KeptText(c) }

  function KeyText(name: string, k: KeyClause): string {
    "FOREIGN KEY" + ("(" + Ident(name) + ")") + " REFERENCES " + Ident(k.table) + ("(" + Ident(k.column) + ")")
    + " ON UPDATE " + ActionText(k.onUpdate) + " ON DELETE " + ActionText(k.onDelete)
  }

  function ColumnTexts(columns: seq<TargetColumn>): (r: seq<string>)
    ensures |r| == |columns|
  {
    seq(|columns|, i requires 0 <= i < |columns| => ColumnText(columns[i]))
  }

  function KeyTexts(columns: seq<TargetColumn>): seq<string> {
    if columns == [] then [] else
    var c := columns[|columns| - 1];
    KeyTexts(columns[..|columns| - 1]) + seq(|c.keys|, i requires 0 <= i < |c.keys| => KeyText(c.name, c.keys[i]))
  }

  /** A check is written unless it is empty or has a cast in it. */
  predicate Written(check: string) { check != "" && CastAt(check) == |check| }

  function WrittenChecks(checks: seq<string>): seq<string> {
    if checks == [] then [] else
    var check := checks[|checks| - 1];
    WrittenChecks(checks[..|checks| - 1]) + if Written(check) then [check] else []
  }

  function CheckTexts(columns: seq<TargetColumn>): seq<string> {
    if columns == [] then [] else
    CheckTexts(columns[..|columns| - 1]) + WrittenChecks(columns[|columns| - 1].checks)
  }

  /** The definitions of a table: its columns, foreign keys and checks. */
  function Parts(columns: seq<TargetColumn>): seq<string> {
    ColumnTexts(columns) + KeyTexts(columns) + CheckTexts(columns)
  }

  /** Definitions with commas between them. */
  function Commas(parts: seq<string>): string {
    if parts == [] then "" else
    var n := |parts| - 1;
    Commas(parts[..n]) + (if n == 0 then "" else ",") + parts[n]
  }

  function CreateText(table: string, columns: seq<TargetColumn>): string {
    "CREATE TABLE IF NOT EXISTS " + Ident(table) + " (" + Commas(Parts(columns)) + ")"
  }

  function AddText(table: string, c: TargetColumn): string {
    "ALTER TABLE " + Ident(table) + " ADD COLUMN " + Ident(c.name) + (" " + SqliteType(c.dataType))
    + if KeptDefault(c).None? then "" else " DEFAULT " + KeptText(c) + if c.nullable then "" else " NOT NULL"
  }

  function Glued(words: seq<string>): string {
    if words == [] then "" else Glued(words[..|words| - 1]) + words[|words| - 1]
  }

  /** `META_DDL`. */
  function MetaText(): string {
    Glued(["CREATE TABLE IF NOT EXISTS ", META, " (key", " TEXT NOT NULL PRIMARY KEY", ",value", " BLOB NOT NULL",
           ") WITHOUT ROWID"])
  }

  /** The upsert of the hash, given in hexadecimal digits. */
  function HashText(hex: string): string {
    Glued(["INSERT INTO ", META, " (key, value) VALUES (", Quoted('\'', "schema_hash"), ", X", Quoted('\'', hex),
           ") ON CONFLICT(key)", " DO UPDATE SET ", "value = excluded.value"])
  }

  /** `SYNC_LOG_DDL`. */
  function SyncLogText(): string {
    Glued(["CREATE TABLE IF NOT EXISTS ", SYNC_LOG, " (", "table_name", "  TEXT NOT NULL", ",record_id",
           "   TEXT NOT NULL", ",op_type", "     TEXT NOT NULL CHECK ", "(op_type", " IN ", "(",
           Quoted('\'', "I"), ",", Quoted('\'', "U"), ",", Quoted('\'', "D"), "))", ",version",
           "     INTEGER NOT NULL DEFAULT ", "1,updated_at", "  INTEGER NOT NULL", ",", "PRIMARY KEY ",
           "(table_name", ", record_id)", ") WITHOUT ROWID", ", STRICT"])
  }

  /** What is written for a statement of a plan, without the semicolons. */
  function Texts(s: Statement, hex: string): seq<string> {
    match s
    case Create(t, columns) => [CreateText(t, columns)]
    case Drop(t) => ["DROP TABLE IF EXISTS " + Ident(t)]
    case AddColumn(t, c) => [AddText(t, c)]
    case UniqueIndex(t, c) =>
      ["CREATE UNIQUE INDEX IF NOT EXISTS " + Ident("__uniq_" + t + "_" + c + "__") + " ON " + Ident(t)
       + ("(" + Ident(c) + ")")]
    case DropColumn(t, c) => ["ALTER TABLE " + Ident(t) + " DROP COLUMN " + Ident(c)]
    case SyncLog => [SyncLogText()]
    case UpsertHash => [MetaText(), HashText(hex)]
  }

  function Lines(sql: seq<Statement>, hex: string): seq<string> {
    if sql == [] then [] else Lines(sql[..|sql| - 1], hex) + Texts(sql[|sql| - 1], hex)
  }

  /** The text of a script: its statements, each with a semicolon and a new line. */
  function Terminated(lines: seq<string>): string {
    if lines == [] then "" else Terminated(lines[..|lines| - 1]) + lines[|lines| - 1] + ";\n"
  }

  // ----- what the tokenizer finds

  /** Statements as they stand between semicolons: every one but the first begins on a new line. */
  function Rows(lines: seq<string>): (r: seq<string>)
    ensures |r| == |lines|
  {
    seq(|lines|, i requires 0 <= i < |lines| => if i == 0 then lines[0] else "\n" + lines[i])
  }

  predicate LinesFound(lines: seq<string>) {
    Read(Statements, START, Terminated(lines)) == Reader(Plain, 0, Rows(lines), if lines == [] then "" else "\n")
  }

  /** The tokenizer finds the statements that were written, and in each new table the definitions that were written. */
  predicate Divided(sql: seq<Statement>, hex: string) {
    LinesFound(Lines(sql, hex)) && forall k | 0 <= k < |sql| && sql[k].Create? :: PartsFound(sql[k].columns)
  }

  predicate PartsFound(columns: seq<TargetColumn>) {
    Read(Definitions, START, Commas(Parts(columns)) + ")") == Reader(Plain, 0, Parts(columns), "")
  }

  /** Closed in a script and in a list of definitions. */
  predicate Whole(text: string) { Closed(Statements, text) && Closed(Definitions, text) }

  /** The default and the checks that are written for a column. */
  ghost predicate WholeColumn(c: TargetColumn) {
    Whole(KeptText(c)) && forall check | check in c.checks && Written(check) :: Whole(check)
  }

  /** Nothing copied into the statement spoils it. */
  ghost predicate Intact(s: Statement) {
    match s
    case Create(_, columns) => columns != [] && forall i | 0 <= i < |columns| :: WholeColumn(columns[i])
    case AddColumn(_, c) => Closed(Statements, KeptText(c))
    case _ => true
  }

  ghost predicate AllIntact(sql: seq<Statement>) { forall k | 0 <= k < |sql| :: Intact(sql[k]) }

  /** Clauses do not begin with a quoted name, as definitions of columns do. */
  ghost predicate AreClauses(parts: seq<string>) { forall p | p in parts :: p == "" || p[0] != '"' }

  /** What was copied into the statement is whole, and its checks begin as checks do. */
  ghost predicate Worded(s: Statement) { Intact(s) && (s.Create? ==> AreClauses(CheckTexts(s.columns))) }

  ghost predicate AllWorded(sql: seq<Statement>) { forall k | 0 <= k < |sql| :: Worded(sql[k]) }

  ghost predicate WholeTable(table: TargetTable) {
    AreClauses(CheckTexts(table.columns)) && forall i | 0 <= i < |table.columns| :: WholeColumn(table.columns[i])
  }

  /** The defaults and checks of the target are whole. */
  ghost predicate WholeTarget(target: seq<TargetTable>) { forall i | 0 <= i < |target| :: WholeTable(target[i]) }

  lemma WordedAppend(sql: seq<Statement>, s: Statement)
    ensures AllWorded(sql + [s]) <==> AllWorded(sql) && Worded(s)
  {
    hide Worded;
    var all := sql + [s];
    assert all[|sql|] == s && forall k | 0 <= k < |sql| :: all[k] == sql[k];
  }

  // ----- pieces of text that are always clean

  predicate WordChar(c: char) { 'A' <= c <= 'Z' || c == ' ' }

  lemma QuietWord(s: string)
    requires forall c | c in s :: WordChar(c)
    ensures Clean(s) && AllQuiet(Statements, s)
  {
    forall l ensures AllQuiet(l, s) {
      forall i | 0 <= i < |s| ensures Quiet(l, s[i]) { assert s[i] in s; }
    }
    QuietClean(s);
  }

  lemma TypeClean(t: ValueType)
    ensures Clean(" " + SqliteType(t))
  {
    hide Clean, AllQuiet;
    QuietWord(" INTEGER");
    QuietWord(" REAL");
    QuietWord(" BLOB");
    QuietWord(" TEXT");
    assert " " + "INTEGER" == " INTEGER" && " " + "REAL" == " REAL";
    assert " " + "BLOB" == " BLOB" && " " + "TEXT" == " TEXT";
  }

  lemma ActionClean(a: Action)
    ensures Clean(ActionText(a))
  {
    hide Clean, AllQuiet;
    QuietWord("NO ACTION");
    QuietWord("CASCADE");
    QuietWord("SET NULL");
    QuietWord("SET DEFAULT");
    QuietWord("RESTRICT");
  }

  lemma KeywordsClean(c: TargetColumn)
    ensures Clean(Keywords(c)) && Clean("")
  {
    hide Clean, AllQuiet, Closed;
    QuietWord(" PRIMARY KEY NOT NULL");
    QuietWord(" UNIQUE");
    QuietWord(" NOT NULL");
    QuietWord("");
    CleanTwo(" UNIQUE", " NOT NULL");
    assert " UNIQUE" + "" == " UNIQUE" && "" + " NOT NULL" == " NOT NULL" && "" + "" == "";
  }

  /** A definition is clean up to its default. */
  lemma HeadClean(c: TargetColumn)
    ensures Clean(ColumnHead(c))
  {
    hide Clean, AllQuiet, Closed, Keywords, SqliteType, Quoted, KeptDefault;
    QuotedClean('"', c.name);
    TypeClean(c.dataType);
    KeywordsClean(c);
    QuietWord(" DEFAULT ");
    var a := Ident(c.name);
    var b := a + (" " + SqliteType(c.dataType));
    CleanTwo(a, " " + SqliteType(c.dataType));
    CleanTwo(b, Keywords(c));
    CleanTwo(b + Keywords(c), " DEFAULT ");
    CleanTwo(b + Keywords(c), "");
  }

  /** A definition is as closed as its default. */
  lemma ColumnClosed(l: Level, c: TargetColumn)
    ensures Closed(l, ColumnText(c)) <==> Closed(l, KeptText(c))
  {
    HeadClean(c);
    hide Clean, ColumnHead, KeptText;
    CleanTwo(ColumnHead(c), KeptText(c));
  }

  lemma KeyClean(name: string, k: KeyClause)
    ensures Clean(KeyText(name, k))
  {
    hide Clean, AllQuiet, Closed, ActionText, Quoted;
    QuietWord("FOREIGN KEY");
    ParenthesisClean(name);
    QuietWord(" REFERENCES ");
    QuotedClean('"', k.table);
    ParenthesisClean(k.column);
    QuietWord(" ON UPDATE ");
    ActionClean(k.onUpdate);
    QuietWord(" ON DELETE ");
    ActionClean(k.onDelete);
    var a := "FOREIGN KEY" + ("(" + Ident(name) + ")");
    CleanTwo("FOREIGN KEY", "(" + Ident(name) + ")");
    CleanTwo(a, " REFERENCES ");
    var b := a + " REFERENCES " + Ident(k.table);
    CleanTwo(a + " REFERENCES ", Ident(k.table));
    CleanTwo(b, "(" + Ident(k.column) + ")");
    var d := b + ("(" + Ident(k.column) + ")");
    CleanTwo(d, " ON UPDATE ");
    CleanTwo(d + " ON UPDATE ", ActionText(k.onUpdate));
    var e := d + " ON UPDATE " + ActionText(k.onUpdate);
    CleanTwo(e, " ON DELETE ");
    CleanTwo(e + " ON DELETE ", ActionText(k.onDelete));
  }

  // ----- lists of definitions

  /** The characters that end the definitions of a list. */
  function PartEnds(n: nat, last: char): (r: string)
    ensures |r| == n
  {
    seq(n, i requires 0 <= i < n => if i < n - 1 then ',' else last)
  }

  lemma {:induction false} CommasJoined(parts: seq<string>, last: char)
    requires parts != []
    ensures Commas(parts) + [last] == Joined(parts, PartEnds(|parts|, last))
  {
    var n := |parts| - 1;
    var ends := PartEnds(n + 1, last);
    if n == 0 {
      assert parts[..0] == [] && Joined([], ends[..0]) == "";
    } else {
      CommasJoined(parts[..n], ',');
      assert ends[..n] == PartEnds(n, ',');
    }
  }

  /** The tokenizer finds the definitions that were written, if and only if each is closed. */
  lemma PartsFoundIff(columns: seq<TargetColumn>)
    ensures PartsFound(columns) <==>
            columns != [] && forall i | 0 <= i < |Parts(columns)| :: Closed(Definitions, Parts(columns)[i])
  {
    hide Closed, ColumnTexts, KeyTexts, CheckTexts;
    var parts := Parts(columns);
    if columns == [] {
      NoParts();
      ReadChar(Definitions, START, ')');
      assert "" + ")" == ")";
    } else {
      CommasJoined(parts, ')');
      JoinedReadsIff(Definitions, parts, PartEnds(|parts|, ')'));
    }
  }

  lemma NoParts()
    ensures Parts([]) == [] && Commas([]) == ""
  {
  }

  /** A definition ends outside quotes and comments, so behind its end the mode is plain. */
  lemma PartEndsPlain(p: string, c: char)
    requires Closed(Definitions, p) && (c == ',' || c == ')')
    ensures Active(Lex(Plain, p)) && Lex(Plain, p + [c]) == Plain
  {
    hide Read;
    ModeIsLex(Definitions, p);
    LexTwo(Plain, p, [c]);
    LexChar(Lex(Plain, p), c);
  }

  /** A definition and its end, as part of a statement. */
  lemma PartInStatement(p: string, c: char)
    requires Closed(Definitions, p) && (c == ',' || c == ')')
    ensures Lex(Plain, p + [c]) == Plain && (Closed(Statements, p + [c]) <==> Closed(Statements, p))
  {
    PartEndsPlain(p, c);
    hide Lex, NextMode, Read;
    var r := Read(Statements, START, p);
    ReadEnd(Statements, START, p, c);
    DepthZero(START, p);
    StepOver(r, c);
    if r.done == [] { ModeIsLex(Statements, p); }
  }

  /** A comma or a parenthesis ends no statement, and is plain outside quotes and comments. */
  lemma StepOver(r: Reader, c: char)
    requires c == ',' || c == ')'
    ensures var q := Step(Statements, r, c);
            q.done == r.done && q.depth == r.depth && (Active(r.mode) ==> Active(q.mode))
  {
  }

  lemma LexChar(m: Mode, c: char)
    ensures Lex(m, [c]) == NextMode(m, c)
  {
    assert [c][..0] == "" && Lex(m, "") == m;
  }

  /** A list of closed definitions in a statement is as closed as they are. */
  lemma {:induction false} ListInStatement(parts: seq<string>, ends: string)
    requires |ends| == |parts| && forall i | 0 <= i < |ends| :: IsEnd(Definitions, ends[i])
    requires forall i | 0 <= i < |parts| :: Closed(Definitions, parts[i])
    ensures Lex(Plain, Joined(parts, ends)) == Plain
    ensures Closed(Statements, Joined(parts, ends)) <==> forall i | 0 <= i < |parts| :: Closed(Statements, parts[i])
  {
    hide Closed, Lex;
    if parts == [] {
      EmptyText();
    } else {
      var n := |parts| - 1;
      var before, p, c := Joined(parts[..n], ends[..n]), parts[n], ends[n];
      ListInStatement(parts[..n], ends[..n]);
      assert IsEnd(Definitions, ends[n]);
      PartInStatement(p, c);
      assert Joined(parts, ends) == before + (p + [c]);
      CatClosed(Statements, before, p + [c]);
      LexTwo(Plain, before, p + [c]);
      assert forall i | 0 <= i < n :: parts[..n][i] == parts[i];
      assert (forall i | 0 <= i < n :: Closed(Statements, parts[..n][i])) <==>
             forall i | 0 <= i < n :: Closed(Statements, parts[i]);
    }
  }

  lemma EmptyText()
    ensures Closed(Statements, "") && Lex(Plain, "") == Plain
  {
  }

  // ----- statements

  /** Closed in a script and ending in plain mode. */
  predicate Steady(p: string) { Closed(Statements, p) && Lex(Plain, p) == Plain }

  lemma SteadyTwo(a: string, b: string)
    requires Steady(a)
    ensures Steady(a + b) <==> Steady(b)
    ensures Closed(Statements, a + b) <==> Closed(Statements, b)
  {
    hide Closed, Lex;
    CatClosed(Statements, a, b);
    LexTwo(Plain, a, b);
  }

  lemma SteadyWord(s: string)
    requires forall c | c in s :: WordChar(c)
    ensures Steady(s)
  {
    QuietWord(s);
  }

  lemma SteadyLine(s: string)
    requires forall i | 0 <= i < |s| :: Quiet(Statements, s[i])
    ensures Steady(s)
  {
    QuietClosed(Statements, s);
  }

  lemma {:induction false} SteadyGlued(words: seq<string>)
    requires forall w | w in words :: Steady(w)
    ensures Steady(Glued(words))
  {
    hide Steady;
    if words == [] {
      SteadyWord("");
    } else {
      var n := |words| - 1;
      assert words == words[..n] + [words[n]];
      SteadyGlued(words[..n]);
      SteadyTwo(Glued(words[..n]), words[n]);
    }
  }

  lemma SteadyQuoted(q: char, s: string)
    requires q == '\'' || q == '"'
    ensures Steady(Quoted(q, s))
  {
    hide Closed, Lex, Quoted;
    QuotedClean(q, s);
  }

  lemma SteadyParenthesis(s: string)
    ensures Steady("(" + Ident(s) + ")")
  {
    hide Closed, Lex, Quoted;
    ParenthesisClean(s);
  }

  lemma HashLines()
    ensures Steady(META) && Steady(" (key, value) VALUES (") && Steady(", X") && Steady(") ON CONFLICT(key)")
    ensures Steady("value = excluded.value")
  {
    hide Steady;
    SteadyLine(META);
    SteadyLine(" (key, value) VALUES (");
    SteadyLine(", X");
    SteadyLine(") ON CONFLICT(key)");
    SteadyLine("value = excluded.value");
  }

  lemma HashSteady(hex: string)
    ensures Steady(HashText(hex))
  {
    hide Steady, Quoted, Glued;
    HashLines();
    SteadyWord("INSERT INTO ");
    SteadyQuoted('\'', "schema_hash");
    SteadyQuoted('\'', hex);
    SteadyWord(" DO UPDATE SET ");
    SteadyGlued(["INSERT INTO ", META, " (key, value) VALUES (", Quoted('\'', "schema_hash"), ", X",
                 Quoted('\'', hex), ") ON CONFLICT(key)", " DO UPDATE SET ", "value = excluded.value"]);
  }

  lemma MetaSteady()
    ensures Steady(MetaText())
  {
    hide Steady, Glued;
    MetaWords();
    SteadyLine(META);
    SteadyLine(" (key");
    SteadyLine(",value");
    SteadyLine(") WITHOUT ROWID");
    SteadyGlued(["CREATE TABLE IF NOT EXISTS ", META, " (key", " TEXT NOT NULL PRIMARY KEY", ",value",
                 " BLOB NOT NULL", ") WITHOUT ROWID"]);
  }

  lemma MetaWords()
    ensures Steady("CREATE TABLE IF NOT EXISTS ") && Steady(" TEXT NOT NULL PRIMARY KEY") && Steady(" BLOB NOT NULL")
  {
    hide Steady;
    SteadyWord("CREATE TABLE IF NOT EXISTS ");
    SteadyWord(" TEXT NOT NULL PRIMARY KEY");
    SteadyWord(" BLOB NOT NULL");
  }

  lemma SyncLogSteady()
    ensures Steady(SyncLogText())
  {
    hide Steady, Quoted, Glued;
    SyncLogWords();
    SyncLogLines();
    SteadyQuoted('\'', "I");
    SteadyQuoted('\'', "U");
    SteadyQuoted('\'', "D");
    SteadyGlued(["CREATE TABLE IF NOT EXISTS ", SYNC_LOG, " (", "table_name", "  TEXT NOT NULL", ",record_id",
                 "   TEXT NOT NULL", ",op_type", "     TEXT NOT NULL CHECK ", "(op_type", " IN ", "(",
                 Quoted('\'', "I"), ",", Quoted('\'', "U"), ",", Quoted('\'', "D"), "))", ",version",
                 "     INTEGER NOT NULL DEFAULT ", "1,updated_at", "  INTEGER NOT NULL", ",", "PRIMARY KEY ",
                 "(table_name", ", record_id)", ") WITHOUT ROWID", ", STRICT"]);
  }

  lemma SyncLogWords()
    ensures Steady("CREATE TABLE IF NOT EXISTS ") && Steady("  TEXT NOT NULL") && Steady("   TEXT NOT NULL")
    ensures Steady("     TEXT NOT NULL CHECK ") && Steady(" IN ") && Steady("     INTEGER NOT NULL DEFAULT ")
    ensures Steady("  INTEGER NOT NULL") && Steady("PRIMARY KEY ")
  {
    hide Steady;
    TextWords();
    SteadyWord("CREATE TABLE IF NOT EXISTS ");
    SteadyWord("     INTEGER NOT NULL DEFAULT ");
    SteadyWord("  INTEGER NOT NULL");
    SteadyWord("PRIMARY KEY ");
  }

  lemma TextWords()
    ensures Steady("  TEXT NOT NULL") && Steady("   TEXT NOT NULL")
    ensures Steady("     TEXT NOT NULL CHECK ") && Steady(" IN ")
  {
    hide Steady;
    SteadyWord("  TEXT NOT NULL");
    SteadyWord("   TEXT NOT NULL");
    SteadyWord("     TEXT NOT NULL CHECK ");
    SteadyWord(" IN ");
  }

  lemma SyncLogLines()
    ensures Steady(SYNC_LOG) && Steady(" (") && Steady("table_name") && Steady(",record_id") && Steady(",op_type")
    ensures Steady("(op_type") && Steady("(") && Steady(",") && Steady("))") && Steady(",version")
    ensures Steady("1,updated_at") && Steady("(table_name") && Steady(", record_id)") && Steady(") WITHOUT ROWID")
    ensures Steady(", STRICT")
  {
    hide Steady;
    SteadyLine(SYNC_LOG);
    SteadyLine(" (");
    SteadyLine("table_name");
    SteadyLine(",record_id");
    SteadyLine(",op_type");
    SteadyLine("(op_type");
    SteadyLine("(");
    SteadyLine(",");
    SteadyLine("))");
    SteadyLine(",version");
    SteadyLine("1,updated_at");
    SteadyLine("(table_name");
    SteadyLine(", record_id)");
    SteadyLine(") WITHOUT ROWID");
    SteadyLine(", STRICT");
  }

  /** A new table's statement is closed if and only if its closed definitions are closed in a script too. */
  lemma CreateClosed(table: string, columns: seq<TargetColumn>)
    requires columns != [] && forall i | 0 <= i < |Parts(columns)| :: Closed(Definitions, Parts(columns)[i])
    ensures Closed(Statements, CreateText(table, columns)) <==>
            forall i | 0 <= i < |Parts(columns)| :: Closed(Statements, Parts(columns)[i])
  {
    hide Steady, Quoted, Closed, Commas, Lex, ColumnTexts, KeyTexts, CheckTexts;
    var parts := Parts(columns);
    SteadyWord("CREATE TABLE IF NOT EXISTS ");
    SteadyQuoted('"', table);
    SteadyLine(" (");
    var a := "CREATE TABLE IF NOT EXISTS " + Ident(table);
    SteadyTwo("CREATE TABLE IF NOT EXISTS ", Ident(table));
    SteadyTwo(a, " (");
    SteadyTwo(a + " (", Commas(parts) + ")");
    CommasJoined(parts, ')');
    ListInStatement(parts, PartEnds(|parts|, ')'));
    assert CreateText(table, columns) == a + " (" + (Commas(parts) + ")");
  }

  /** An added column's statement is closed if and only if its default is. */
  lemma AddClosed(table: string, c: TargetColumn)
    ensures Closed(Statements, AddText(table, c)) <==> Closed(Statements, KeptText(c))
  {
    hide Steady, Quoted, Closed, Lex, SqliteType, KeptDefault;
    SteadyWord("ALTER TABLE ");
    SteadyQuoted('"', table);
    SteadyWord(" ADD COLUMN ");
    SteadyQuoted('"', c.name);
    SteadyType(c.dataType);
    SteadyWord(" DEFAULT ");
    var a := "ALTER TABLE " + Ident(table);
    SteadyTwo("ALTER TABLE ", Ident(table));
    SteadyTwo(a, " ADD COLUMN ");
    SteadyTwo(a + " ADD COLUMN ", Ident(c.name));
    var b := a + " ADD COLUMN " + Ident(c.name);
    SteadyTwo(b, " " + SqliteType(c.dataType));
    var h := b + (" " + SqliteType(c.dataType));
    if KeptDefault(c).None? {
      SteadyClosed(h);
      EmptyText();
      assert AddText(table, c) == h + "" == h;
    } else {
      var tail := if c.nullable then "" else " NOT NULL";
      QuietTail(KeptText(c), tail);
      SteadyTwo(h, " DEFAULT ");
      SteadyTwo(h + " DEFAULT ", KeptText(c) + tail);
      assert AddText(table, c) == h + " DEFAULT " + (KeptText(c) + tail);
    }
  }

  lemma SteadyClosed(p: string)
    requires Steady(p)
    ensures Closed(Statements, p)
  {
  }

  lemma SteadyType(t: ValueType)
    ensures Steady(" " + SqliteType(t))
  {
    hide Closed, Lex;
    TypeClean(t);
  }

  lemma QuietTail(d: string, tail: string)
    requires tail == "" || tail == " NOT NULL"
    ensures Closed(Statements, d + tail) <==> Closed(Statements, d)
  {
    hide Closed, Clean;
    QuietWord(" NOT NULL");
    if tail == "" { assert d + tail == d; } else { QuietBehind(Statements, d, tail); }
  }

  /** Statements made of names alone. */
  lemma NamesClosed(t: string, c: string)
    ensures Closed(Statements, "DROP TABLE IF EXISTS " + Ident(t))
    ensures Closed(Statements, "ALTER TABLE " + Ident(t) + " DROP COLUMN " + Ident(c))
    ensures Closed(Statements, "CREATE UNIQUE INDEX IF NOT EXISTS " + Ident("__uniq_" + t + "_" + c + "__") + " ON " +
                               Ident(t) + ("(" + Ident(c) + ")"))
  {
    hide Steady, Quoted, Closed, Lex;
    var u := Ident("__uniq_" + t + "_" + c + "__");
    SteadyQuoted('"', t);
    SteadyQuoted('"', c);
    SteadyQuoted('"', "__uniq_" + t + "_" + c + "__");
    SteadyParenthesis(c);
    SteadyWord("DROP TABLE IF EXISTS ");
    SteadyWord("ALTER TABLE ");
    SteadyWord(" DROP COLUMN ");
    SteadyWord("CREATE UNIQUE INDEX IF NOT EXISTS ");
    SteadyWord(" ON ");
    SteadyTwo("DROP TABLE IF EXISTS ", Ident(t));
    SteadyClosed("DROP TABLE IF EXISTS " + Ident(t));
    SteadyTwo("ALTER TABLE ", Ident(t));
    SteadyTwo("ALTER TABLE " + Ident(t), " DROP COLUMN ");
    SteadyTwo("ALTER TABLE " + Ident(t) + " DROP COLUMN ", Ident(c));
    SteadyClosed("ALTER TABLE " + Ident(t) + " DROP COLUMN " + Ident(c));
    var a := "CREATE UNIQUE INDEX IF NOT EXISTS " + u + " ON ";
    SteadyTwo("CREATE UNIQUE INDEX IF NOT EXISTS ", u);
    SteadyTwo("CREATE UNIQUE INDEX IF NOT EXISTS " + u, " ON ");
    SteadyTwo(a, Ident(t));
    SteadyTwo(a + Ident(t), "(" + Ident(c) + ")");
    SteadyClosed(a + Ident(t) + ("(" + Ident(c) + ")"));
  }
}
