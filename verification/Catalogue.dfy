/**
  A SQLite catalogue as far as migration looks at it: tables with their columns'
  declared types and primary-key flags, and views, which share the tables' names;
  the statements of a plan and what each does to a catalogue. Names are compared
  exactly. A table's columns are those that `pragma_table_info` lists.
 */
module Catalogue {
  import opened Bytes
  import opened SchemaTypes

  datatype LiveColumn = LiveColumn(ty: string, pk: bool)
  type Shape = map<string, LiveColumn>

  /** What a name stands for. */
  datatype Object = Table(shape: Shape) | View

  type Objects = map<string, Object>

  /** What a foreign key clause names. */
  datatype KeyClause = KeyClause(table: string, column: string, onUpdate: Action, onDelete: Action)

  /** A column of the target, with its default and its checks as PostgreSQL words them. */
  datatype TargetColumn = TargetColumn(
    name: string, dataType: ValueType, primary: bool, unique: bool, nullable: bool,
    defaultText: Option<string>, keys: seq<KeyClause>, checks: seq<string>)

  datatype TargetTable = TargetTable(name: string, columns: seq<TargetColumn>)

  datatype Statement =
    | Create(table: string, columns: seq<TargetColumn>)
    | Drop(table: string)
    | AddColumn(table: string, column: TargetColumn)
    | UniqueIndex(table: string, name: string)
    | DropColumn(table: string, name: string)
    | SyncLog
    | UpsertHash

  /** `sqlite_type`. */
  function SqliteType(t: ValueType): string {
    match t
    case Bool => "INTEGER" case Int => "INTEGER"
    case Float => "REAL"
    case Blob => "BLOB" case Null => "BLOB"
    case _ => "TEXT"
  }

  function UpperChar(c: char): char { if 'a' <= c <= 'z' then (c as int - 32) as char else c }

  function Upper(s: string): string { seq(|s|, i requires 0 <= i < |s| => UpperChar(s[i])) }

  /** `eq_ignore_ascii_case`. */
  predicate SameType(a: string, b: string) { Upper(a) == Upper(b) }

  /** The same character, or the two cases of a letter from A to Z. */
  predicate SameLetter(a: char, b: char) {
    a == b || ('A' <= a <= 'Z' && b as int == a as int + 32) || ('A' <= b <= 'Z' && a as int == b as int + 32)
  }

  /** The texts differ in the case of ASCII letters at most. */
  ghost predicate Alike(a: string, b: string) { |a| == |b| && forall i | 0 <= i < |a| :: SameLetter(a[i], b[i]) }

  lemma SameTypeIff(a: string, b: string)
    ensures SameType(a, b) <==> Alike(a, b)
  {
    forall i | 0 <= i < |a| && i < |b| ensures Upper(a)[i] == Upper(b)[i] <==> SameLetter(a[i], b[i]) {}
    if Upper(a) == Upper(b) {
      forall i | 0 <= i < |a| ensures SameLetter(a[i], b[i]) { assert Upper(a)[i] == Upper(b)[i]; }
    }
  }

  /** The declared type is the one that a column of type `t` has in SQLite, in whatever case it is written. */
  ghost predicate Declares(ty: string, t: ValueType) {
    if t == Bool || t == Int then Alike(ty, "INTEGER")
    else if t == Float then Alike(ty, "REAL")
    else if t == Blob || t == Null then Alike(ty, "BLOB")
    else Alike(ty, "TEXT")
  }

  lemma DeclaresIff(ty: string, t: ValueType)
    ensures SameType(ty, SqliteType(t)) <==> Declares(ty, t)
  {
    hide SameType, Alike;
    SameTypeIff(ty, SqliteType(t));
  }

  const META: string := "__meta__"
  const SYNC_LOG: string := "__sync_log__"

  /**
    Introspection passes over the name: it matches the pattern `sqlite_%`, in which
    `_` stands for any character and case is ignored, or it is one of the two names of
    the sync's own tables.
   */
  predicate Filtered(name: string) {
    (|name| >= 7 && Upper(name[..6]) == "SQLITE") || name == META || name == SYNC_LOG
  }

  /** SQL's `LIKE`: `_` stands for any character, `%` for any characters, and letters match in both cases. */
  ghost predicate Like(pattern: string, s: string) {
    if pattern == "" then s == ""
    else if pattern[0] == '%' then exists k | 0 <= k <= |s| :: Like(pattern[1..], s[k..])
    else s != "" && (pattern[0] == '_' || SameLetter(pattern[0], s[0])) && Like(pattern[1..], s[1..])
  }

  lemma {:induction false} LikeWord(word: string, more: string, s: string)
    requires '%' !in word && '_' !in word
    ensures Like(word + more, s) <==> |s| >= |word| && Alike(word, s[..|word|]) && Like(more, s[|word|..])
  {
    if word == "" {
      assert word + more == more && s[0..] == s;
    } else if s != "" {
      assert (word + more)[1..] == word[1..] + more;
      LikeWord(word[1..], more, s[1..]);
      if |s| >= |word| {
        var t := s[..|word|];
        assert t[1..] == s[1..][..|word| - 1] && s[|word|..] == s[1..][|word| - 1..];
        AlikeFront(word, t);
      }
    }
  }

  lemma AlikeFront(a: string, b: string)
    requires |a| == |b| > 0
    ensures Alike(a, b) <==> SameLetter(a[0], b[0]) && Alike(a[1..], b[1..])
  {
    hide SameLetter;
    if Alike(a[1..], b[1..]) && SameLetter(a[0], b[0]) {
      forall i | 0 <= i < |a| ensures SameLetter(a[i], b[i]) {
        if i > 0 { assert SameLetter(a[1..][i - 1], b[1..][i - 1]); }
      }
    }
  }

  /** The names that introspection's query leaves out. */
  lemma FilteredIff(name: string)
    ensures Filtered(name) <==> Like("sqlite_%", name) || name in {"__sync_log__", "__meta__"}
  {
    var s := if |name| >= 6 then name[6..] else "";
    assert "sqlite" + "_%" == "sqlite_%";
    LikeWord("sqlite", "_%", name);
    if |name| >= 6 { SameTypeIff("sqlite", name[..6]); }
    assert Upper("sqlite") == "SQLITE";
    hide Alike, SameType;
    assert Like("_%", s) <==> s != "" by {
      assert "_%"[1..] == "%" && "%"[1..] == "";
      if s != "" {
        var t := s[1..];
        assert t[|t|..] == "" && Like("", t[|t|..]);
        assert Like("%", t);
      }
    }
  }

  /** Introspection lists the table. */
  predicate Listed(cat: Objects, name: string) { name in cat && cat[name].Table? && !Filtered(name) }

  /** The name is taken by something that introspection does not list. */
  predicate Overlooked(cat: Objects, name: string) { name in cat && !Listed(cat, name) }

  /** The sync's own tables, as their DDL declares them. */
  function MetaShape(): Shape { map["key" := LiveColumn("TEXT", true), "value" := LiveColumn("BLOB", false)] }

  function SyncLogShape(): Shape {
    map["table_name" := LiveColumn("TEXT", true), "record_id" := LiveColumn("TEXT", true),
        "op_type" := LiveColumn("TEXT", false), "version" := LiveColumn("INTEGER", false),
        "updated_at" := LiveColumn("INTEGER", false)]
  }

  /** `CREATE TABLE IF NOT EXISTS`, which does nothing if the name is a table's or a view's. */
  function CreateIfAbsent(cat: Objects, name: string, shape: Shape): Objects {
    if name in cat then cat else cat[name := Table(shape)]
  }

  function Names(columns: seq<TargetColumn>): set<string> { set c | c in columns :: c.name }

  function TableNames(target: seq<TargetTable>): set<string> { set t | t in target :: t.name }

  /** A new table's shape. */
  function ShapeOf(columns: seq<TargetColumn>): Shape {
    if columns == [] then map[] else
    var c := columns[|columns| - 1];
    ShapeOf(columns[..|columns| - 1])[c.name := LiveColumn(SqliteType(c.dataType), c.primary)]
  }

  /** The effect of a statement that the engine accepts. */
  function Apply(cat: Objects, s: Statement): Objects {
    match s
    case Create(t, columns) => CreateIfAbsent(cat, t, ShapeOf(columns))
    case Drop(t) => cat - {t}
    case AddColumn(t, c) =>
      if t in cat && cat[t].Table?
      then cat[t := Table(cat[t].shape[c.name := LiveColumn(SqliteType(c.dataType), false)])] else cat
    case DropColumn(t, name) =>
      if t in cat && cat[t].Table? then cat[t := Table(cat[t].shape - {name})] else cat
    case UniqueIndex(_, _) => cat
    case SyncLog => CreateIfAbsent(cat, SYNC_LOG, SyncLogShape())
    case UpsertHash => CreateIfAbsent(cat, META, MetaShape())
  }

  function ApplyAll(cat: Objects, plan: seq<Statement>): Objects {
    if plan == [] then cat else Apply(ApplyAll(cat, plan[..|plan| - 1]), plan[|plan| - 1])
  }

  predicate IsTable(cat: Objects, t: string) { t in cat && cat[t].Table? }

  /** The hash can be written: the object, if it is there, is a table with the two columns. */
  predicate TakesHash(o: Object) { o.Table? && "key" in o.shape && "value" in o.shape }

  /**
    What a statement presupposes: a table or column that it creates is not listed, one
    that it changes is there, and a column that it drops is neither a key nor the last.
   */
  predicate Applicable(cat: Objects, s: Statement) {
    match s
    case Create(t, columns) => !Listed(cat, t) && columns != []
    case Drop(t) => IsTable(cat, t)
    case AddColumn(t, c) => IsTable(cat, t) && c.name !in cat[t].shape
    case DropColumn(t, name) =>
      IsTable(cat, t) && name in cat[t].shape && cat[t].shape.Keys != {name} && !cat[t].shape[name].pk
    case UniqueIndex(t, name) => IsTable(cat, t) && name in cat[t].shape
    case SyncLog => true
    case UpsertHash => META in cat ==> TakesHash(cat[META])
  }

  /** SQLite has no table without columns. */
  ghost predicate NoEmptyTable(cat: Objects) { forall t | IsTable(cat, t) :: cat[t].shape != map[] }

  /** Every statement applies to the catalogue left by the earlier ones, and no table is ever empty. */
  ghost predicate Sound(cat: Objects, plan: seq<Statement>) {
    NoEmptyTable(cat) &&
    (plan == [] ||
     var before := plan[..|plan| - 1];
     Sound(cat, before) && Applicable(ApplyAll(cat, before), plan[|plan| - 1]) && NoEmptyTable(ApplyAll(cat, plan)))
  }

  lemma Extend(cat: Objects, plan: seq<Statement>, s: Statement)
    ensures ApplyAll(cat, plan + [s]) == Apply(ApplyAll(cat, plan), s)
    ensures Sound(cat, plan + [s]) <==>
            && Sound(cat, plan)
            && Applicable(ApplyAll(cat, plan), s) && NoEmptyTable(Apply(ApplyAll(cat, plan), s))
  {
    hide Apply, Applicable, NoEmptyTable;
    assert (plan + [s])[..|plan + [s]| - 1] == plan;
  }

  ghost predicate DistinctColumns(columns: seq<TargetColumn>) {
    forall i, j | 0 <= i < j < |columns| :: columns[i].name != columns[j].name
  }

  /** A target as the schema gives it: distinct table names, and in each table some columns with distinct names. */
  ghost predicate GoodTarget(target: seq<TargetTable>) {
    && (forall i, j | 0 <= i < j < |target| :: target[i].name != target[j].name)
    && (forall i | 0 <= i < |target| :: target[i].columns != [] && DistinctColumns(target[i].columns))
  }

  /** The column is there with the wanted type and key flag. */
  ghost predicate ColumnMatches(shape: Shape, c: TargetColumn) {
    c.name in shape && SameType(shape[c.name].ty, SqliteType(c.dataType)) && shape[c.name].pk == c.primary
  }

  /** A table has exactly the target's column names, types and primary-key flags. */
  ghost predicate Matches(shape: Shape, columns: seq<TargetColumn>) {
    shape.Keys == Names(columns) && forall i | 0 <= i < |columns| :: ColumnMatches(shape, columns[i])
  }

  /** The table's columns are the target's, each with the type and the key flag that it should have. */
  ghost predicate DeclaredAs(shape: Shape, columns: seq<TargetColumn>) {
    && (forall name :: name in shape <==> exists i :: 0 <= i < |columns| && columns[i].name == name)
    && (forall i | 0 <= i < |columns| && columns[i].name in shape ::
          Declares(shape[columns[i].name].ty, columns[i].dataType) && shape[columns[i].name].pk == columns[i].primary)
  }

  lemma MatchesMeans(shape: Shape, columns: seq<TargetColumn>)
    ensures Matches(shape, columns) <==> DeclaredAs(shape, columns)
  {
    hide SameType, Declares, SqliteType;
    forall name ensures name in Names(columns) <==> exists i :: 0 <= i < |columns| && columns[i].name == name {
      if i :| 0 <= i < |columns| && columns[i].name == name { assert columns[i] in columns; }
    }
    forall i | 0 <= i < |columns| && columns[i].name in shape
      ensures SameType(shape[columns[i].name].ty, SqliteType(columns[i].dataType))
         <==> Declares(shape[columns[i].name].ty, columns[i].dataType)
    {
      DeclaresIff(shape[columns[i].name].ty, columns[i].dataType);
    }
    hide Names;
    if DeclaredAs(shape, columns) {
      assert shape.Keys == Names(columns);
      forall i | 0 <= i < |columns| ensures columns[i].name in shape {}
    }
  }

  lemma {:induction false} ShapeKeys(columns: seq<TargetColumn>)
    ensures ShapeOf(columns).Keys == Names(columns)
  {
    hide SqliteType;
    if columns != [] {
      var n := |columns| - 1;
      ShapeKeys(columns[..n]);
      assert columns == columns[..n] + [columns[n]];
    }
  }

  lemma {:induction false} ShapeAt(columns: seq<TargetColumn>, i: nat)
    requires DistinctColumns(columns) && i < |columns|
    ensures columns[i].name in ShapeOf(columns)
    ensures ShapeOf(columns)[columns[i].name] == LiveColumn(SqliteType(columns[i].dataType), columns[i].primary)
  {
    var n := |columns| - 1;
    if i < n { ShapeAt(columns[..n], i); }
  }

  /** A created table matches its target. */
  lemma ShapeMatches(columns: seq<TargetColumn>)
    requires DistinctColumns(columns)
    ensures Matches(ShapeOf(columns), columns)
    ensures columns != [] ==> ShapeOf(columns) != map[]
  {
    hide ShapeOf, DistinctColumns, Names, SqliteType;
    ShapeKeys(columns);
    forall i | 0 <= i < |columns| ensures ColumnMatches(ShapeOf(columns), columns[i]) { ShapeAt(columns, i); }
    if columns != [] { ShapeAt(columns, 0); }
  }

  /** A live table must be rebuilt if a shared column's type or key flag changes, or a key column comes or goes. */
  ghost predicate NeedsRebuild(shape: Shape, columns: seq<TargetColumn>) {
    || (exists i | 0 <= i < |columns| :: ColumnForces(shape, columns[i]))
    || (exists name | name in shape && name !in Names(columns) :: shape[name].pk)
  }

  /** The key columns of a live table and of a target. */
  function LiveKeys(shape: Shape): set<string> { set name | name in shape && shape[name].pk }

  function TargetKeys(columns: seq<TargetColumn>): set<string> { set c | c in columns && c.primary :: c.name }

  /** So it is rebuilt exactly if a shared column has another type or the tables have not the same keys. */
  lemma RebuildMeans(shape: Shape, columns: seq<TargetColumn>)
    requires DistinctColumns(columns)
    ensures NeedsRebuild(shape, columns) <==>
            || LiveKeys(shape) != TargetKeys(columns)
            || exists i | 0 <= i < |columns| ::
                 columns[i].name in shape && !Declares(shape[columns[i].name].ty, columns[i].dataType)
  {
    hide SameType, Declares, SqliteType;
    forall i | 0 <= i < |columns| && columns[i].name in shape
      ensures SameType(shape[columns[i].name].ty, SqliteType(columns[i].dataType))
         <==> Declares(shape[columns[i].name].ty, columns[i].dataType)
    {
      DeclaresIff(shape[columns[i].name].ty, columns[i].dataType);
    }
    forall i | 0 <= i < |columns| ensures columns[i].primary <==> columns[i].name in TargetKeys(columns) {
      assert columns[i] in columns;
    }
    if LiveKeys(shape) != TargetKeys(columns) {
      var name :| name in LiveKeys(shape) <==> name !in TargetKeys(columns);
      if name in Names(columns) {
        var i :| 0 <= i < |columns| && columns[i].name == name;
        assert ColumnForces(shape, columns[i]);
      } else {
        assert name in shape && shape[name].pk;
      }
    } else {
      forall i | 0 <= i < |columns| ensures columns[i].primary <==> columns[i].name in LiveKeys(shape) {}
      forall name | name in shape && shape[name].pk ensures name in Names(columns) {
        assert name in TargetKeys(columns);
      }
    }
  }

  ghost predicate ColumnForces(shape: Shape, c: TargetColumn) {
    if c.name in shape then !SameType(shape[c.name].ty, SqliteType(c.dataType)) || shape[c.name].pk != c.primary
    else c.primary
  }
}
