/**
  `alter_tables`: the difference between the live catalogue and the target as a
  plan, and the drop-and-recreate fallback when the engine rejects the plan.
 */
module Migration {
  import opened Catalogue
  import opened SqlText

  /** What introspection lists. */
  function Visible(live: Objects): map<string, Shape> { map t | t in live && Listed(live, t) :: live[t].shape }

  /** The comparison of one table: whether it must be rebuilt, and otherwise the columns to add and those left over. */
  method CompareColumns(shape: Shape, columns: seq<TargetColumn>)
    returns (rebuild: bool, added: seq<TargetColumn>, left: Shape)
    requires DistinctColumns(columns)
    ensures rebuild <==> NeedsRebuild(shape, columns)
    ensures !rebuild ==> added == Missing(shape, columns)
    ensures !rebuild ==> left == shape - Names(columns)
  {
    hide SameType, SqliteType, Names, DistinctColumns, NeedsRebuild;
    rebuild, added, left := false, [], shape;
    var i := 0;
    NoNames(columns);
    while i < |columns| && !rebuild
      invariant i <= |columns|
      invariant rebuild ==> exists k :: 0 <= k < |columns| && ColumnForces(shape, columns[k])
      invariant !rebuild ==> added == Missing(shape, columns[..i]) && left == shape - Names(columns[..i])
      invariant !rebuild ==> forall k | 0 <= k < i :: !ColumnForces(shape, columns[k])
      decreases |columns| - i, !rebuild
    {
      var c := columns[i];
      NamesStep(columns, i);
      FreshName(columns, i);
      assert ColumnForces(shape, columns[i]) == ColumnForces(shape, c);
      if c.name in left {
        var live := left[c.name];
        left := left - {c.name};
        if !SameType(live.ty, SqliteType(c.dataType)) || live.pk != c.primary {
          rebuild := true;
        }
      } else if c.primary {
        rebuild := true;
      } else {
        added := added + [c];
      }
      i := i + 1;
    }
    RebuildIff(shape, columns);
    if !rebuild {
      assert columns[..i] == columns;
      rebuild := exists name | name in left :: left[name].pk;
    }
  }

  lemma NoNames(columns: seq<TargetColumn>)
    ensures Names(columns[..0]) == {}
  {
  }

  lemma RebuildIff(shape: Shape, columns: seq<TargetColumn>)
    ensures NeedsRebuild(shape, columns) <==>
            || (exists k :: 0 <= k < |columns| && ColumnForces(shape, columns[k]))
            || (var left := shape - Names(columns); exists name | name in left :: left[name].pk)
  {
    hide ColumnForces, Names;
    var left := shape - Names(columns);
    if name: string :| name in shape && name !in Names(columns) && shape[name].pk {
      assert name in left && left[name].pk;
    }
  }

  /** The target columns that a live table lacks, in order. */
  function Missing(shape: Shape, columns: seq<TargetColumn>): seq<TargetColumn> {
    if columns == [] then [] else
    var c := columns[|columns| - 1];
    Missing(shape, columns[..|columns| - 1]) + if c.name in shape then [] else [c]
  }

  lemma NamesStep(columns: seq<TargetColumn>, i: nat)
    requires i < |columns|
    ensures Names(columns[..i + 1]) == Names(columns[..i]) + {columns[i].name}
    ensures columns[..i + 1][..i] == columns[..i] && columns[..i + 1][i] == columns[i]
  {
    assert columns[..i + 1] == columns[..i] + [columns[i]];
  }

  lemma FreshName(columns: seq<TargetColumn>, i: nat)
    requires DistinctColumns(columns) && i < |columns|
    ensures columns[i].name !in Names(columns[..i])
  {
  }

  /** The missing columns are the target's columns outside the live table. */
  lemma {:induction false} MissingHas(shape: Shape, columns: seq<TargetColumn>, c: TargetColumn)
    ensures c in Missing(shape, columns) <==> c in columns && c.name !in shape
  {
    if columns != [] {
      var n := |columns| - 1;
      MissingHas(shape, columns[..n], c);
      assert columns == columns[..n] + [columns[n]];
    }
  }

  lemma {:induction false} MissingDistinct(shape: Shape, columns: seq<TargetColumn>)
    requires DistinctColumns(columns)
    ensures DistinctColumns(Missing(shape, columns)) && Names(Missing(shape, columns)) !! shape.Keys
  {
    forall c | c in Missing(shape, columns) ensures c.name !in shape { MissingHas(shape, columns, c); }
    if columns != [] {
      var n := |columns| - 1;
      MissingDistinct(shape, columns[..n]);
      var front := Missing(shape, columns[..n]);
      forall i | 0 <= i < |front| ensures front[i].name != columns[n].name {
        MissingHas(shape, columns[..n], front[i]);
      }
    }
  }

  /** The plan so far, started on `live`, has brought table `t` to `shape` and touched nothing else. */
  ghost predicate Reached(live: Objects, plan: seq<Statement>, before: Objects, t: string, shape: Shape) {
    Sound(live, plan) && ApplyAll(live, plan) == before[t := Table(shape)]
  }

  lemma AppendOn(live: Objects, plan: seq<Statement>, before: Objects, t: string, shape: Shape, s: Statement,
                 shape': Shape)
    requires Reached(live, plan, before, t, shape) && NoEmptyTable(before) && shape' != map[]
    requires Applicable(before[t := Table(shape)], s)
    requires Apply(before[t := Table(shape)], s) == before[t := Table(shape')]
    ensures Reached(live, plan + [s], before, t, shape')
  {
    Extend(live, plan, s);
  }

  /** The shape after a list of columns was added. */
  function Added(shape: Shape, columns: seq<TargetColumn>): Shape {
    if columns == [] then shape else
    var c := columns[|columns| - 1];
    Added(shape, columns[..|columns| - 1])[c.name := LiveColumn(SqliteType(c.dataType), false)]
  }

  lemma {:induction false} AddedKeeps(shape: Shape, columns: seq<TargetColumn>)
    requires Names(columns) !! shape.Keys
    ensures Added(shape, columns).Keys == shape.Keys + Names(columns)
    ensures forall name | name in shape :: Added(shape, columns)[name] == shape[name]
  {
    hide SqliteType;
    if columns != [] {
      var n := |columns| - 1;
      NamesStep(columns, n);
      assert columns[..n + 1] == columns;
      hide Names;
      AddedKeeps(shape, columns[..n]);
    }
  }

  lemma {:induction false} AddedAt(shape: Shape, columns: seq<TargetColumn>, i: nat)
    requires DistinctColumns(columns) && i < |columns|
    ensures columns[i].name in Added(shape, columns)
    ensures Added(shape, columns)[columns[i].name] == LiveColumn(SqliteType(columns[i].dataType), false)
  {
    var n := |columns| - 1;
    if i < n { AddedAt(shape, columns[..n], i); }
  }

  /** What the statement creates, adds or indexes is a table of the target, whole, or a column of one. */
  ghost predicate FromTarget(target: seq<TargetTable>, s: Statement) {
    match s
    case Create(t, columns) => TargetTable(t, columns) in target
    case AddColumn(t, c) => exists table | table in target :: table.name == t && c in table.columns
    case UniqueIndex(t, name) =>
      exists table | table in target :: table.name == t && exists c | c in table.columns :: c.unique && c.name == name
    case _ => true
  }

  /** Every statement is the target's, and an added column that is unique has its index. */
  ghost predicate Faithful(target: seq<TargetTable>, sql: seq<Statement>) {
    && (forall s | s in sql :: FromTarget(target, s))
    && (forall s | s in sql && s.AddColumn? && s.column.unique :: UniqueIndex(s.table, s.column.name) in sql)
  }

  lemma FaithfulAppend(target: seq<TargetTable>, sql: seq<Statement>, more: seq<Statement>)
    requires Faithful(target, sql) && Faithful(target, more)
    ensures Faithful(target, sql + more)
  {
    hide FromTarget;
  }

  lemma FaithfulWider(target: seq<TargetTable>, i: nat, sql: seq<Statement>)
    requires i < |target| && Faithful([target[i]], sql)
    ensures Faithful(target, sql)
  {
    forall s | s in sql ensures FromTarget(target, s) { assert FromTarget([target[i]], s); }
  }

  lemma FaithfulOne(target: seq<TargetTable>, s: Statement)
    requires FromTarget(target, s) && !s.AddColumn?
    ensures Faithful(target, [s])
  {
    hide FromTarget;
  }

  /** An added column with its index, if it is unique. */
  lemma FaithfulColumn(table: TargetTable, c: TargetColumn)
    requires c in table.columns
    ensures Faithful([table], [AddColumn(table.name, c)] + if c.unique then [UniqueIndex(table.name, c.name)] else [])
  {
    assert table in [table];
    assert FromTarget([table], AddColumn(table.name, c));
    if c.unique { assert FromTarget([table], UniqueIndex(table.name, c.name)); }
    hide FromTarget;
  }

  /** The `ADD COLUMN` statements, each followed by its unique index if it has one. */
  method AddColumns(sql0: seq<Statement>, table: string, added: seq<TargetColumn>, ghost live: Objects,
                    ghost before: Objects, ghost shape: Shape, ghost target: TargetTable)
    returns (sql: seq<Statement>)
    requires target.name == table && forall c | c in added :: c in target.columns
    requires Reached(live, sql0, before, table, shape) && NoEmptyTable(before) && shape != map[]
    requires DistinctColumns(added) && Names(added) !! shape.Keys
    ensures Reached(live, sql, before, table, Added(shape, added))
    ensures OnlyDrops(sql0, sql, {}) && (added == [] ==> sql == sql0)
    ensures AllWorded(sql0) && (forall i | 0 <= i < |added| :: WholeColumn(added[i])) ==> AllWorded(sql)
    ensures Faithful([target], sql[|sql0|..])
  {
    hide SqliteType, Names, DistinctColumns, Added, Reached, NoEmptyTable, AllWorded, WholeColumn, Worded, Faithful;
    sql := sql0;
    AddedNone(shape, added);
    FaithfulNone([target]);
    assert sql[|sql0|..] == [];
    for i := 0 to |added|
      invariant Reached(live, sql, before, table, Added(shape, added[..i]))
      invariant OnlyDrops(sql0, sql, {}) && (i == 0 ==> sql == sql0)
      invariant AllWorded(sql0) && (forall k | 0 <= k < i :: WholeColumn(added[k])) ==> AllWorded(sql)
      invariant Faithful([target], sql[|sql0|..])
    {
      var c := added[i];
      ghost var sql1 := sql;
      FaithfulColumn(target, c);
      AddedFresh(shape, added, i);
      AddedStep(shape, added, i);
      ghost var now, next := Added(shape, added[..i]), Added(shape, added[..i + 1]);
      assert next == now[c.name := LiveColumn(SqliteType(c.dataType), false)];
      AppendAdd(live, sql, before, table, now, c);
      AddWorded(table, c);
      WordedAppend(sql, AddColumn(table, c));
      sql := sql + [AddColumn(table, c)];
      if c.unique {
        assert c.name in next;
        AppendOn(live, sql, before, table, next, UniqueIndex(table, c.name), next);
        WordedAppend(sql, UniqueIndex(table, c.name));
        sql := sql + [UniqueIndex(table, c.name)];
      }
      ghost var more := [AddColumn(table, c)] + if c.unique then [UniqueIndex(table, c.name)] else [];
      FaithfulAppend([target], sql1[|sql0|..], more);
      assert sql[|sql0|..] == sql1[|sql0|..] + more;
    }
    assert added[..|added|] == added;
  }

  lemma FaithfulNone(target: seq<TargetTable>)
    ensures Faithful(target, [])
  {
  }

  lemma PlainFaithful(target: seq<TargetTable>, table: string, name: string)
    ensures Faithful(target, [DropColumn(table, name)]) && Faithful(target, [Drop(table)])
    ensures Faithful(target, [SyncLog]) && Faithful(target, [UpsertHash])
  {
  }

  lemma CreateFaithful(target: seq<TargetTable>, i: nat)
    requires i < |target|
    ensures Faithful(target, [Create(target[i].name, target[i].columns)])
  {
    assert TargetTable(target[i].name, target[i].columns) == target[i];
  }

  lemma AddWorded(table: string, c: TargetColumn)
    ensures WholeColumn(c) ==> Worded(AddColumn(table, c))
    ensures Worded(UniqueIndex(table, c.name))
  {
  }

  lemma PlainWorded(table: string, name: string)
    ensures Worded(DropColumn(table, name)) && Worded(Drop(table)) && Worded(SyncLog) && Worded(UpsertHash)
  {
  }

  lemma CreateWorded(table: TargetTable)
    requires table.columns != []
    ensures WholeTable(table) ==> Worded(Create(table.name, table.columns))
  {
  }

  lemma AddedNone(shape: Shape, added: seq<TargetColumn>)
    ensures Added(shape, added[..0]) == shape
  {
  }

  lemma AppendAdd(live: Objects, plan: seq<Statement>, before: Objects, t: string, shape: Shape, c: TargetColumn)
    requires Reached(live, plan, before, t, shape) && NoEmptyTable(before) && c.name !in shape
    ensures Reached(live, plan + [AddColumn(t, c)], before, t,
                    shape[c.name := LiveColumn(SqliteType(c.dataType), false)])
  {
    hide SqliteType, Reached, NoEmptyTable;
    var next := shape[c.name := LiveColumn(SqliteType(c.dataType), false)];
    assert c.name in next;
    AppendOn(live, plan, before, t, shape, AddColumn(t, c), next);
  }

  lemma NamesFront(columns: seq<TargetColumn>, i: nat)
    requires i < |columns|
    ensures Names(columns[..i]) <= Names(columns) && columns[i].name in Names(columns)
  {
    forall name | name in Names(columns[..i]) ensures name in Names(columns) {
      var c :| c in columns[..i] && c.name == name;
      assert c in columns;
    }
    assert columns[i] in columns;
  }

  /** A column about to be added is not there yet. */
  lemma AddedFresh(shape: Shape, added: seq<TargetColumn>, i: nat)
    requires DistinctColumns(added) && Names(added) !! shape.Keys && i < |added|
    ensures added[i].name !in Added(shape, added[..i])
  {
    NamesFront(added, i);
    FreshName(added, i);
    hide Names, Added, DistinctColumns;
    AddedKeeps(shape, added[..i]);
  }

  lemma AddedStep(shape: Shape, added: seq<TargetColumn>, i: nat)
    requires i < |added|
    ensures Added(shape, added[..i + 1])
         == Added(shape, added[..i])[added[i].name := LiveColumn(SqliteType(added[i].dataType), false)]
  {
    hide SqliteType;
    assert added[..i + 1][..i] == added[..i] && added[..i + 1][i] == added[i];
  }

  /** The `DROP COLUMN` statements, in whatever order the hash map yields them. */
  method DropColumns(sql0: seq<Statement>, table: string, left: Shape, ghost live: Objects, ghost before: Objects,
                     ghost shape: Shape)
    returns (sql: seq<Statement>)
    requires Reached(live, sql0, before, table, shape) && NoEmptyTable(before)
    requires left.Keys < shape.Keys && forall name | name in left :: !shape[name].pk
    ensures Reached(live, sql, before, table, shape - left.Keys)
    ensures OnlyDrops(sql0, sql, {}) && (left == map[] ==> sql == sql0)
    ensures AllWorded(sql0) ==> AllWorded(sql)
    ensures forall k | |sql0| <= k < |sql| :: sql[k].DropColumn?
  {
    hide Reached, NoEmptyTable, AllWorded, Worded;
    sql := sql0;
    var todo := left.Keys;
    assert shape - (left.Keys - todo) == shape;
    ghost var keep :| keep in shape && keep !in left;
    while todo != {}
      invariant todo <= left.Keys
      invariant Reached(live, sql, before, table, shape - (left.Keys - todo))
      invariant OnlyDrops(sql0, sql, {}) && (left == map[] ==> sql == sql0)
      invariant AllWorded(sql0) ==> AllWorded(sql)
      invariant forall k | |sql0| <= k < |sql| :: sql[k].DropColumn?
      decreases |todo|
    {
      var name :| name in todo;
      ghost var now := shape - (left.Keys - todo);
      assert now - {name} == shape - (left.Keys - (todo - {name}));
      AppendDrop(live, sql, before, table, now, name, keep);
      PlainWorded(table, name);
      WordedAppend(sql, DropColumn(table, name));
      sql := sql + [DropColumn(table, name)];
      todo := todo - {name};
    }
    assert left.Keys - todo == left.Keys;
  }

  lemma AppendDrop(live: Objects, plan: seq<Statement>, before: Objects, t: string, shape: Shape, name: string,
                   keep: string)
    requires Reached(live, plan, before, t, shape) && NoEmptyTable(before)
    requires name in shape && !shape[name].pk && keep in shape && keep != name
    ensures Reached(live, plan + [DropColumn(t, name)], before, t, shape - {name})
  {
    hide Reached, NoEmptyTable;
    assert keep in shape - {name};
    AppendOn(live, plan, before, t, shape, DropColumn(t, name), shape - {name});
  }

  /** `sql` continues `sql0`, and the tables it drops on the way are among `tables`. */
  ghost predicate OnlyDrops(sql0: seq<Statement>, sql: seq<Statement>, tables: set<string>) {
    sql0 <= sql && forall k | |sql0| <= k < |sql| && sql[k].Drop? :: sql[k].table in tables
  }

  /** A table that needs no rebuild matches its target once the missing columns are added and the rest dropped. */
  lemma AlteredMatches(shape: Shape, columns: seq<TargetColumn>)
    requires DistinctColumns(columns) && columns != [] && !NeedsRebuild(shape, columns)
    ensures var all := Added(shape, Missing(shape, columns)); var left := shape - Names(columns);
            && left.Keys < all.Keys
            && (forall name | name in left :: name in all && !all[name].pk)
            && Matches(all - left.Keys, columns)
  {
    hide SqliteType, SameType, Added, Missing, Names, DistinctColumns, NeedsRebuild;
    AlteredKeys(shape, columns);
    RebuildIff(shape, columns);
    var all, left := Added(shape, Missing(shape, columns)), shape - Names(columns);
    var final := all - left.Keys;
    forall i | 0 <= i < |columns| ensures ColumnMatches(final, columns[i]) {
      AlteredColumn(shape, columns, i);
      assert columns[i].name in final && final[columns[i].name] == all[columns[i].name];
    }
    assert columns[0].name in final;
  }

  lemma AlteredKeys(shape: Shape, columns: seq<TargetColumn>)
    requires DistinctColumns(columns)
    ensures var all := Added(shape, Missing(shape, columns));
            && shape.Keys <= all.Keys && all.Keys - (shape.Keys - Names(columns)) == Names(columns)
            && forall name | name in shape :: all[name] == shape[name]
  {
    hide SqliteType, Added, NeedsRebuild, DistinctColumns;
    var missing := Missing(shape, columns);
    MissingDistinct(shape, columns);
    AddedKeeps(shape, missing);
    forall name ensures name in Names(missing) <==> name in Names(columns) && name !in shape {
      if name in Names(missing) {
        var c :| c in missing && c.name == name;
        MissingHas(shape, columns, c);
      }
      if name in Names(columns) && name !in shape {
        var c :| c in columns && c.name == name;
        MissingHas(shape, columns, c);
      }
    }
    hide Names, Missing;
  }

  lemma AlteredColumn(shape: Shape, columns: seq<TargetColumn>, i: nat)
    requires DistinctColumns(columns) && i < |columns| && !NeedsRebuild(shape, columns)
    ensures var c := columns[i]; var all := Added(shape, Missing(shape, columns));
            && c.name in all && c.name in Names(columns)
            && SameType(all[c.name].ty, SqliteType(c.dataType)) && all[c.name].pk == c.primary
  {
    hide SqliteType;
    var c, missing := columns[i], Missing(shape, columns);
    MissingDistinct(shape, columns);
    AddedKeeps(shape, missing);
    assert !ColumnForces(shape, c);
    if c.name !in shape {
      MissingHas(shape, columns, c);
      var k: nat :| k < |missing| && missing[k] == c;
      AddedAt(shape, missing, k);
    }
  }

  /** A table that already matches is left alone. */
  lemma MatchedStays(shape: Shape, columns: seq<TargetColumn>)
    requires Matches(shape, columns)
    ensures !NeedsRebuild(shape, columns) && Missing(shape, columns) == [] && shape - Names(columns) == map[]
  {
    hide SameType, SqliteType;
    var missing := Missing(shape, columns);
    if missing != [] {
      MissingHas(shape, columns, missing[0]);
      assert false;
    }
    forall i | 0 <= i < |columns| ensures !ColumnForces(shape, columns[i]) {
      assert ColumnMatches(shape, columns[i]);
    }
  }

  /** The statements for one listed table. The shape reached is given back. */
  method AlterTable(sql0: seq<Statement>, table: TargetTable, shape: Shape, ghost live: Objects, ghost before: Objects)
    returns (sql: seq<Statement>, ghost reached: Shape)
    requires Reached(live, sql0, before, table.name, shape) && NoEmptyTable(before) && shape != map[]
    requires table.columns != [] && DistinctColumns(table.columns)
    ensures Reached(live, sql, before, table.name, reached) && Matches(reached, table.columns)
    ensures OnlyDrops(sql0, sql, if NeedsRebuild(shape, table.columns) then {table.name} else {})
    ensures sql == sql0 <==> Matches(shape, table.columns)
    ensures AllWorded(sql0) && WholeTable(table) ==> AllWorded(sql)
    ensures Faithful([table], sql[|sql0|..])
  {
    hide Reached, NoEmptyTable, DistinctColumns, Names, Added, NeedsRebuild, Matches, ShapeOf, AllWorded, Worded,
         WholeTable, WholeColumn, Faithful;
    var rebuild, added, left := CompareColumns(shape, table.columns);
    if Matches(shape, table.columns) { MatchedStays(shape, table.columns); }
    if rebuild {
      Recreate(live, sql0, before, table, shape);
      RecreateWorded(sql0, table);
      sql := sql0 + [Drop(table.name), Create(table.name, table.columns)];
      PlainFaithful([table], table.name, "");
      CreateFaithful([table], 0);
      FaithfulAppend([table], [Drop(table.name)], [Create(table.name, table.columns)]);
      assert sql[|sql0|..] == [Drop(table.name)] + [Create(table.name, table.columns)];
      reached := ShapeOf(table.columns);
      ShapeMatches(table.columns);
    } else {
      AlteredMatches(shape, table.columns);
      MissingDistinct(shape, table.columns);
      if WholeTable(table) { MissingWhole(shape, table); }
      forall c | c in added ensures c in table.columns { MissingHas(shape, table.columns, c); }
      sql := AddColumns(sql0, table.name, added, live, before, shape, table);
      ghost var sql1 := sql;
      sql := DropColumns(sql, table.name, left, live, before, Added(shape, added));
      assert sql[|sql0|..] == sql1[|sql0|..] + sql[|sql1|..];
      OnlyColumnDrops([table], sql[|sql1|..]);
      FaithfulAppend([table], sql1[|sql0|..], sql[|sql1|..]);
      reached := Added(shape, added) - left.Keys;
      if sql == sql0 { SameReached(live, sql, before, table.name, shape, reached); }
    }
  }

  lemma OnlyColumnDrops(target: seq<TargetTable>, sql: seq<Statement>)
    requires forall k | 0 <= k < |sql| :: sql[k].DropColumn?
    ensures Faithful(target, sql)
  {
  }

  lemma RecreateWorded(sql0: seq<Statement>, table: TargetTable)
    requires table.columns != []
    ensures AllWorded(sql0) && WholeTable(table) ==>
            AllWorded(sql0 + [Drop(table.name), Create(table.name, table.columns)])
  {
    hide AllWorded, Worded, WholeTable;
    PlainWorded(table.name, "");
    CreateWorded(table);
    WordedAppend(sql0, Drop(table.name));
    WordedAppend(sql0 + [Drop(table.name)], Create(table.name, table.columns));
    assert sql0 + [Drop(table.name)] + [Create(table.name, table.columns)]
        == sql0 + [Drop(table.name), Create(table.name, table.columns)];
  }

  lemma MissingWhole(shape: Shape, table: TargetTable)
    requires WholeTable(table)
    ensures var missing := Missing(shape, table.columns); forall i | 0 <= i < |missing| :: WholeColumn(missing[i])
  {
    hide WholeColumn, Missing;
    var missing := Missing(shape, table.columns);
    forall i | 0 <= i < |missing| ensures WholeColumn(missing[i]) {
      MissingHas(shape, table.columns, missing[i]);
      assert missing[i] in table.columns;
      var k :| 0 <= k < |table.columns| && table.columns[k] == missing[i];
    }
  }

  lemma SameReached(live: Objects, plan: seq<Statement>, before: Objects, t: string, one: Shape, two: Shape)
    requires Reached(live, plan, before, t, one) && Reached(live, plan, before, t, two)
    ensures one == two
  {
    assert before[t := Table(one)][t] == Table(one) && before[t := Table(two)][t] == Table(two);
  }

  lemma Recreate(live: Objects, plan: seq<Statement>, before: Objects, table: TargetTable, shape: Shape)
    requires Reached(live, plan, before, table.name, shape) && NoEmptyTable(before)
    requires table.columns != [] && DistinctColumns(table.columns)
    ensures Reached(live, plan + [Drop(table.name), Create(table.name, table.columns)], before, table.name,
                    ShapeOf(table.columns))
  {
    hide ShapeOf, DistinctColumns, Matches;
    var t := table.name;
    ShapeMatches(table.columns);
    Extend(live, plan, Drop(t));
    assert before[t := Table(shape)] - {t} == before - {t};
    Extend(live, plan + [Drop(t)], Create(t, table.columns));
    assert (before - {t})[t := Table(ShapeOf(table.columns))] == before[t := Table(ShapeOf(table.columns))];
    assert plan + [Drop(t)] + [Create(t, table.columns)] == plan + [Drop(t), Create(t, table.columns)];
  }
}
