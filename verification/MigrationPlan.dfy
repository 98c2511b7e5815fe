/**
  The whole of `alter_tables`: the loop over the target's tables, the drops of
  what is left, the run against the engine and the fallback.
 */
module MigrationPlan {
  import opened Bytes
  import opened SchemaTypes
  import opened Catalogue
  import opened SqlText
  import opened SqlReading
  import opened SqlCommands
  import opened Migration

  /** A target table is as wanted, except that whatever introspection overlooked under its name stays as it was. */
  ghost predicate Settled(live: Objects, table: TargetTable, cat: Objects) {
    table.name in cat
    && if Overlooked(live, table.name) then cat[table.name] == live[table.name]
       else cat[table.name].Table? && Matches(cat[table.name].shape, table.columns)
  }

  ghost predicate SameAt(one: Objects, two: Objects, name: string) {
    (name in one <==> name in two) && (name in one && name in two ==> one[name] == two[name])
  }

  /** One of the sync's own tables, as its DDL declares it. */
  predicate Own(name: string, o: Object) {
    (name == META && o == Table(MetaShape())) || (name == SYNC_LOG && o == Table(SyncLogShape()))
  }

  /**
    What becomes of a name that the target does not use: what was overlooked stays, of
    the rest only the sync's own tables.
   */
  ghost predicate Unwanted(live: Objects, cat: Objects, name: string) {
    if Overlooked(live, name) then SameAt(live, cat, name) else name in cat ==> Own(name, cat[name])
  }

  /** What a migration arrives at. */
  ghost predicate Migrated(live: Objects, target: seq<TargetTable>, cat: Objects) {
    && (forall i | 0 <= i < |target| :: Settled(live, target[i], cat))
    && (forall name | name !in TableNames(target) :: Unwanted(live, cat, name))
  }

  /** The catalogue lists exactly the target's tables, and each has exactly its columns, types and key flags. */
  ghost predicate Exact(target: seq<TargetTable>, cat: Objects) {
    && (forall i | 0 <= i < |target| ::
          IsTable(cat, target[i].name) && Matches(cat[target[i].name].shape, target[i].columns))
    && (forall name | Listed(cat, name) :: name in TableNames(target))
  }

  /** Whatever introspection overlooks under the name of a target table is that table, as wanted. */
  ghost predicate NothingOverlooked(live: Objects, target: seq<TargetTable>) {
    forall i | 0 <= i < |target| && Overlooked(live, target[i].name) ::
      live[target[i].name].Table? && Matches(live[target[i].name].shape, target[i].columns)
  }

  /** A migration reaches the target exactly if nothing else was overlooked under the name of a target table. */
  lemma ExactIff(live: Objects, target: seq<TargetTable>, cat: Objects)
    requires Migrated(live, target, cat)
    ensures Exact(target, cat) <==> NothingOverlooked(live, target)
  {
    hide Matches, TableNames;
    forall i | 0 <= i < |target|
      ensures Settled(live, target[i], cat)
    {
    }
    NothingElse(live, target, cat);
  }

  /** No listed table is left that the target does not have. */
  lemma NothingElse(live: Objects, target: seq<TargetTable>, cat: Objects)
    requires Migrated(live, target, cat)
    ensures forall name | Listed(cat, name) :: name in TableNames(target)
  {
    hide Settled, TableNames;
    forall name | Listed(cat, name) ensures name in TableNames(target) {
      assert name in TableNames(target) || Unwanted(live, cat, name);
    }
  }

  /** The live tables that a plan may drop: those not wanted, and those that cannot be altered in place. */
  ghost predicate MayDrop(live: Objects, target: seq<TargetTable>, name: string) {
    && Listed(live, name)
    && forall i | 0 <= i < |target| && target[i].name == name :: NeedsRebuild(live[name].shape, target[i].columns)
  }

  ghost predicate DropsAllowed(live: Objects, target: seq<TargetTable>, plan: seq<Statement>) {
    forall k | 0 <= k < |plan| && plan[k].Drop? :: MayDrop(live, target, plan[k].table)
  }

  /** The table is listed and already as wanted. */
  ghost predicate UpToDate(live: Objects, table: TargetTable) {
    Listed(live, table.name) && Matches(live[table.name].shape, table.columns)
  }

  /** The live catalogue already is the target. */
  ghost predicate NothingToDo(live: Objects, target: seq<TargetTable>) {
    && (forall i | 0 <= i < |target| :: UpToDate(live, target[i]))
    && (forall name | Listed(live, name) :: name in TableNames(target))
  }

  /** After the first tables of the target: these are settled, everything else is as it was. */
  ghost predicate Progress(live: Objects, target: seq<TargetTable>, i: nat, cat: Objects)
    requires i <= |target|
  {
    && (forall k | 0 <= k < i :: Settled(live, target[k], cat))
    && (forall name | name !in TableNames(target[..i]) :: SameAt(live, cat, name))
  }

  lemma ProgressStep(live: Objects, target: seq<TargetTable>, i: nat, cat: Objects, cat': Objects)
    requires i < |target| && GoodTarget(target) && Progress(live, target, i, cat)
    requires Settled(live, target[i], cat') && cat' - {target[i].name} == cat - {target[i].name}
    ensures Progress(live, target, i + 1, cat')
  {
    hide Matches, DistinctColumns, Overlooked;
    var t := target[i].name;
    assert target[..i + 1] == target[..i] + [target[i]];
    forall name | name != t ensures SameAt(cat, cat', name) {
      assert SameAt(cat, cat - {t}, name) && SameAt(cat', cat' - {t}, name);
    }
    forall k | 0 <= k < i ensures Settled(live, target[k], cat') {
      assert SameAt(cat, cat', target[k].name) && Settled(live, target[k], cat);
    }
    hide Settled;
    forall name | name !in TableNames(target[..i + 1]) ensures SameAt(live, cat', name) {
      assert target[i] in target[..i + 1];
      assert SameAt(cat, cat', name) && SameAt(live, cat, name);
    }
  }

  /** The name of table `i` is new, so its table is as it was. */
  lemma NotYet(live: Objects, target: seq<TargetTable>, i: nat, cat: Objects)
    requires i < |target| && GoodTarget(target) && Progress(live, target, i, cat)
    ensures target[i].name !in TableNames(target[..i]) && SameAt(live, cat, target[i].name)
    ensures TableNames(target[..i + 1]) == TableNames(target[..i]) + {target[i].name}
  {
    hide Settled, SameAt, DistinctColumns;
    assert target[..i + 1] == target[..i] + [target[i]];
  }

  lemma {:induction false} SoundNoEmpty(cat: Objects, plan: seq<Statement>)
    requires Sound(cat, plan)
    ensures NoEmptyTable(ApplyAll(cat, plan))
  {
  }

  /** A new table with columns leaves no table empty and every other name alone. */
  lemma CreateKeeps(cat: Objects, name: string, shape: Shape)
    requires NoEmptyTable(cat) && shape != map[]
    ensures NoEmptyTable(CreateIfAbsent(cat, name, shape))
    ensures CreateIfAbsent(cat, name, shape) - {name} == cat - {name}
  {
    var cat' := CreateIfAbsent(cat, name, shape);
    assert forall t | t in cat' && t != name :: t in cat && cat'[t] == cat[t];
    assert cat' - {name} == cat - {name};
  }

  /** `CREATE TABLE IF NOT EXISTS` of a table that introspection does not list. */
  lemma CreateSettles(live: Objects, plan: seq<Statement>, base: Objects, table: TargetTable)
    requires Sound(live, plan) && table.columns != [] && DistinctColumns(table.columns)
    requires SameAt(base, ApplyAll(live, plan), table.name) && !Listed(base, table.name)
    ensures var next := plan + [Create(table.name, table.columns)];
            && Sound(live, next) && Settled(base, table, ApplyAll(live, next))
            && ApplyAll(live, next) - {table.name} == ApplyAll(live, plan) - {table.name}
  {
    hide Matches, ShapeOf, DistinctColumns, Filtered, Sound, ApplyAll, NoEmptyTable;
    SoundNoEmpty(live, plan);
    ShapeMatches(table.columns);
    Extend(live, plan, Create(table.name, table.columns));
    CreateKeeps(ApplyAll(live, plan), table.name, ShapeOf(table.columns));
  }

  /** The plan's loop over the target's tables. */
  method PlanTables(live: Objects, target: seq<TargetTable>) returns (sql: seq<Statement>, left: map<string, Shape>)
    requires NoEmptyTable(live) && GoodTarget(target)
    ensures Sound(live, sql) && Progress(live, target, |target|, ApplyAll(live, sql)) && DropsAllowed(live, target, sql)
    ensures left == Visible(live) - TableNames(target)
    ensures sql == [] <==> forall i | 0 <= i < |target| :: UpToDate(live, target[i])
    ensures WholeTarget(target) ==> AllWorded(sql)
    ensures Faithful(target, sql)
  {
    hide Matches, DistinctColumns, Listed, Overlooked, Sound, ApplyAll, Progress, TableNames, NeedsRebuild;
    hide Settled, NoEmptyTable, MayDrop, UpToDate, Visible, Worded, WholeTable, Faithful;
    sql, left := [], Visible(live);
    FaithfulNone(target);
    StartsAs(live, target);
    for i := 0 to |target|
      invariant Sound(live, sql) && Progress(live, target, i, ApplyAll(live, sql)) && DropsAllowed(live, target, sql)
      invariant left == Visible(live) - TableNames(target[..i])
      invariant sql == [] <==> forall k | 0 <= k < i :: UpToDate(live, target[k])
      invariant WholeTarget(target) ==> AllWorded(sql)
      invariant Faithful(target, sql)
    {
      var table := target[i];
      ghost var cat := ApplyAll(live, sql);
      NotYet(live, target, i, cat);
      ListedIs(live, table.name);
      assert table.name in left <==> table.name in Visible(live);
      var sql0 := sql;
      if table.name in left {
        var shape := left[table.name];
        left := left - {table.name};
        AsReached(live, sql0, cat, table.name);
        ghost var reached;
        sql, reached := AlterTable(sql0, table, shape, live, cat);
        AlterSettles(live, sql, cat, table, reached);
        AlterDrops(live, target, i, sql0, sql);
        AlterUpToDate(live, table);
        FaithfulWider(target, i, sql[|sql0|..]);
      } else {
        CreateSettles(live, sql0, live, table);
        CreateWorded(table);
        CreateFaithful(target, i);
        sql := sql0 + [Create(table.name, table.columns)];
        NotListed(live, table);
      }
      assert sql == sql0 + sql[|sql0|..];
      FaithfulAppend(target, sql0, sql[|sql0|..]);
      ProgressStep(live, target, i, cat, ApplyAll(live, sql));
    }
    assert target[..|target|] == target;
  }

  lemma StartsAs(live: Objects, target: seq<TargetTable>)
    requires NoEmptyTable(live)
    ensures Sound(live, []) && Progress(live, target, 0, ApplyAll(live, [])) && TableNames(target[..0]) == {}
  {
  }

  lemma ListedIs(live: Objects, name: string)
    ensures name in Visible(live) <==> Listed(live, name)
    ensures Listed(live, name) ==> IsTable(live, name) && Visible(live)[name] == live[name].shape
  {
  }

  lemma AsReached(live: Objects, plan: seq<Statement>, cat: Objects, t: string)
    requires Sound(live, plan) && cat == ApplyAll(live, plan) && IsTable(cat, t)
    ensures Reached(live, plan, cat, t, cat[t].shape) && cat[t].shape != map[] && NoEmptyTable(cat)
  {
    hide Sound, ApplyAll;
    SoundNoEmpty(live, plan);
    assert cat[t := Table(cat[t].shape)] == cat;
  }

  lemma AlterSettles(live: Objects, plan: seq<Statement>, cat: Objects, table: TargetTable, shape: Shape)
    requires Reached(live, plan, cat, table.name, shape) && Matches(shape, table.columns) && Listed(live, table.name)
    ensures Sound(live, plan) && Settled(live, table, ApplyAll(live, plan))
    ensures ApplyAll(live, plan) - {table.name} == cat - {table.name}
  {
    hide Matches, Sound, ApplyAll;
    assert cat[table.name := Table(shape)] - {table.name} == cat - {table.name};
  }

  lemma AlterDrops(live: Objects, target: seq<TargetTable>, i: nat, sql0: seq<Statement>, sql: seq<Statement>)
    requires i < |target| && GoodTarget(target) && DropsAllowed(live, target, sql0) && Listed(live, target[i].name)
    requires var rebuild := NeedsRebuild(live[target[i].name].shape, target[i].columns);
             OnlyDrops(sql0, sql, if rebuild then {target[i].name} else {})
    ensures DropsAllowed(live, target, sql)
  {
    hide NeedsRebuild, Listed, DistinctColumns;
    forall k | 0 <= k < |sql| && sql[k].Drop? ensures MayDrop(live, target, sql[k].table) {
      if k < |sql0| { assert sql[k] == sql0[k]; }
    }
  }

  lemma AlterUpToDate(live: Objects, table: TargetTable)
    requires Listed(live, table.name)
    ensures UpToDate(live, table) <==> Matches(live[table.name].shape, table.columns)
  {
  }

  lemma NotListed(live: Objects, table: TargetTable)
    requires !Listed(live, table.name)
    ensures !UpToDate(live, table)
  {
  }

  /** While the tables left over are dropped: `todo` are still there. */
  ghost predicate Dropping(live: Objects, target: seq<TargetTable>, todo: set<string>, cat: Objects) {
    && (forall i | 0 <= i < |target| :: Settled(live, target[i], cat))
    && (forall name | name !in TableNames(target) ::
          if Overlooked(live, name) || name in todo then SameAt(live, cat, name) else name !in cat)
  }

  lemma DroppingStarts(live: Objects, target: seq<TargetTable>, cat: Objects)
    requires Progress(live, target, |target|, cat)
    ensures Dropping(live, target, (Visible(live) - TableNames(target)).Keys, cat)
  {
    hide Settled, Filtered, TableNames;
    assert target[..|target|] == target;
  }

  lemma DroppingStep(live: Objects, target: seq<TargetTable>, todo: set<string>, plan: seq<Statement>, name: string)
    requires Sound(live, plan) && Dropping(live, target, todo, ApplyAll(live, plan))
    requires name in todo && Listed(live, name) && name !in TableNames(target)
    ensures Sound(live, plan + [Drop(name)])
    ensures Dropping(live, target, todo - {name}, ApplyAll(live, plan + [Drop(name)]))
  {
    hide Matches, Filtered, Sound, ApplyAll;
    var cat := ApplyAll(live, plan);
    SoundNoEmpty(live, plan);
    Extend(live, plan, Drop(name));
    forall i | 0 <= i < |target| ensures Settled(live, target[i], cat - {name}) {
      assert Settled(live, target[i], cat) && target[i].name in TableNames(target);
    }
  }

  /** The drops of listed tables that the target does not have, in whatever order the hash map yields them. */
  method DropLeft(sql0: seq<Statement>, left: set<string>, live: Objects, ghost target: seq<TargetTable>)
    returns (sql: seq<Statement>)
    requires Sound(live, sql0) && Dropping(live, target, left, ApplyAll(live, sql0)) && DropsAllowed(live, target, sql0)
    requires forall name | name in left :: Listed(live, name) && name !in TableNames(target)
    ensures Sound(live, sql) && Dropping(live, target, {}, ApplyAll(live, sql)) && DropsAllowed(live, target, sql)
    ensures |sql| == |sql0| + |left| && (AllWorded(sql0) ==> AllWorded(sql))
    ensures Faithful(target, sql0) ==> Faithful(target, sql)
  {
    hide Listed, Sound, ApplyAll, Dropping, NeedsRebuild, TableNames, Worded, Faithful;
    sql := sql0;
    var todo := left;
    while todo != {}
      invariant todo <= left && |sql| + |todo| == |sql0| + |left| && (AllWorded(sql0) ==> AllWorded(sql))
      invariant Sound(live, sql) && Dropping(live, target, todo, ApplyAll(live, sql)) && DropsAllowed(live, target, sql)
      invariant Faithful(target, sql0) ==> Faithful(target, sql)
      decreases |todo|
    {
      var name :| name in todo;
      PlainFaithful(target, name, "");
      if Faithful(target, sql0) { FaithfulAppend(target, sql, [Drop(name)]); }
      DroppingStep(live, target, todo, sql, name);
      NotWanted(live, target, name);
      PlainWorded(name, "");
      sql := sql + [Drop(name)];
      todo := todo - {name};
    }
  }

  lemma NotWanted(live: Objects, target: seq<TargetTable>, name: string)
    requires Listed(live, name) && name !in TableNames(target)
    ensures MayDrop(live, target, name)
  {
  }

  lemma DroppingEnds(live: Objects, target: seq<TargetTable>, cat: Objects)
    requires Dropping(live, target, {}, cat)
    ensures Migrated(live, target, cat)
  {
    hide Settled, SameAt, Overlooked, TableNames;
  }

  lemma NothingLeft(live: Objects, target: seq<TargetTable>)
    ensures var left := Visible(live) - TableNames(target);
            && (forall name | name in left :: Listed(live, name) && name !in TableNames(target))
            && (NothingToDo(live, target) <==>
                (forall i | 0 <= i < |target| :: UpToDate(live, target[i])) && left.Keys == {})
  {
    hide UpToDate, TableNames, Filtered;
    forall name | Listed(live, name) && name !in TableNames(target)
      ensures name in (Visible(live) - TableNames(target)).Keys
    {
    }
  }

  // ----- the sync's own tables

  /** Creating one of the sync's own tables if it is absent disturbs nothing. */
  lemma OwnKeeps(live: Objects, target: seq<TargetTable>, cat: Objects, name: string, shape: Shape)
    requires Migrated(live, target, cat) && Own(name, Table(shape)) && NoEmptyTable(cat)
    ensures Migrated(live, target, CreateIfAbsent(cat, name, shape)) && NoEmptyTable(CreateIfAbsent(cat, name, shape))
  {
    hide Matches, Filtered, TableNames, NoEmptyTable;
    var cat' := CreateIfAbsent(cat, name, shape);
    OwnColumns();
    CreateKeeps(cat, name, shape);
    forall i | 0 <= i < |target| ensures Settled(live, target[i], cat') { assert Settled(live, target[i], cat); }
    forall n | n !in TableNames(target) ensures Unwanted(live, cat', n) { assert Unwanted(live, cat, n); }
  }

  lemma OwnColumns()
    ensures MetaShape() != map[] && SyncLogShape() != map[] && TakesHash(Table(MetaShape()))
  {
    assert "key" in MetaShape() && "version" in SyncLogShape();
  }

  /** The hash upsert finds a table that takes it: the live one, or else one that the target gives the two columns. */
  ghost predicate HashWritable(live: Objects, target: seq<TargetTable>) {
    if META in live then TakesHash(live[META])
    else forall i | 0 <= i < |target| && target[i].name == META :: {"key", "value"} <= Names(target[i].columns)
  }

  /** The last statement of a plan, and what it takes for the plan to be sound. */
  lemma HashLast(live: Objects, target: seq<TargetTable>, plan: seq<Statement>)
    requires Sound(live, plan) && Migrated(live, target, ApplyAll(live, plan))
    ensures Migrated(live, target, ApplyAll(live, plan + [UpsertHash]))
    ensures Sound(live, plan + [UpsertHash]) <==> HashWritable(live, target)
    ensures NoEmptyTable(ApplyAll(live, plan + [UpsertHash]))
  {
    hide Sound, ApplyAll, NoEmptyTable, TableNames;
    var cat := ApplyAll(live, plan);
    SoundNoEmpty(live, plan);
    Extend(live, plan, UpsertHash);
    OwnKeeps(live, target, cat, META, MetaShape());
    HashTaken(live, target, cat);
  }

  lemma HashTaken(live: Objects, target: seq<TargetTable>, cat: Objects)
    requires Migrated(live, target, cat)
    ensures (META in cat ==> TakesHash(cat[META])) <==> HashWritable(live, target)
  {
    OwnColumns();
    hide MetaShape, SyncLogShape, Names;
    if i :| 0 <= i < |target| && target[i].name == META {
      assert Settled(live, target[i], cat);
      assert forall k | 0 <= k < |target| && target[k].name == META :: Settled(live, target[k], cat);
    } else {
      assert META !in TableNames(target);
      assert Unwanted(live, cat, META);
    }
  }

  /** The plan up to the hash. */
  method PlanChanges(live: Objects, target: seq<TargetTable>) returns (sql: seq<Statement>)
    requires NoEmptyTable(live) && GoodTarget(target)
    ensures Sound(live, sql) && Migrated(live, target, ApplyAll(live, sql)) && DropsAllowed(live, target, sql)
    ensures sql == [] <==> NothingToDo(live, target)
    ensures WholeTarget(target) ==> AllWorded(sql)
    ensures Faithful(target, sql)
  {
    hide Listed, Sound, ApplyAll, Dropping, Migrated, Progress, TableNames, UpToDate, DropsAllowed, NoEmptyTable,
         NothingToDo, GoodTarget, Visible;
    hide AllWorded, WholeTarget, Filtered, Faithful;
    var left;
    sql, left := PlanTables(live, target);
    ghost var tables := sql;
    NothingLeft(live, target);
    DroppingStarts(live, target, ApplyAll(live, sql));
    sql := DropLeft(sql, left.Keys, live, target);
    DroppingEnds(live, target, ApplyAll(live, sql));
    assert |sql| == 0 <==> |tables| == 0 && |left.Keys| == 0;
  }

  lemma HashDropsNothing(live: Objects, target: seq<TargetTable>, sql: seq<Statement>)
    requires DropsAllowed(live, target, sql)
    ensures DropsAllowed(live, target, sql + [UpsertHash])
    ensures (sql + [UpsertHash])[..|sql + [UpsertHash]| - 1] == sql
    ensures sql + [UpsertHash] == [UpsertHash] <==> sql == []
  {
    hide MayDrop;
    assert |sql + [UpsertHash]| == 1 ==> sql == [];
  }

  /**
    The whole plan: every statement applies to what the earlier ones left, as far as
    the hash can be written at the end; it arrives at the target, drops only what it
    must, and is nothing but the hash on a catalogue that already is the target.
   */
  method Plan(live: Objects, target: seq<TargetTable>) returns (sql: seq<Statement>)
    requires NoEmptyTable(live) && GoodTarget(target)
    ensures sql != [] && sql[|sql| - 1] == UpsertHash && Sound(live, sql[..|sql| - 1])
    ensures Sound(live, sql) <==> HashWritable(live, target)
    ensures Migrated(live, target, ApplyAll(live, sql)) && NoEmptyTable(ApplyAll(live, sql))
    ensures DropsAllowed(live, target, sql)
    ensures sql == [UpsertHash] <==> NothingToDo(live, target)
    ensures WholeTarget(target) ==> AllWorded(sql)
    ensures Faithful(target, sql)
  {
    hide Sound, ApplyAll, Migrated, DropsAllowed, NoEmptyTable, NothingToDo, GoodTarget, HashWritable, AllWorded;
    hide Worded, WholeTarget, Faithful;
    sql := PlanChanges(live, target);
    PlainFaithful(target, "", "");
    FaithfulAppend(target, sql, [UpsertHash]);
    HashLast(live, target, sql);
    HashDropsNothing(live, target, sql);
    PlainWorded("", "");
    WordedAppend(sql, UpsertHash);
    sql := sql + [UpsertHash];
  }

  // ----- the fallback

  /** The fallback's drops: every listed table. */
  method DropAll(live: Objects) returns (sql: seq<Statement>)
    requires NoEmptyTable(live)
    ensures Sound(live, sql) && ApplyAll(live, sql) == live - Visible(live).Keys && AllWorded(sql)
  {
    hide Filtered, Sound, ApplyAll, AllWorded, Worded, Visible, NoEmptyTable;
    sql := [];
    ghost var all := Visible(live).Keys;
    var todo := Visible(live).Keys;
    StartsAs(live, []);
    NothingApplied(live);
    while todo != {}
      invariant todo <= all
      invariant Sound(live, sql) && ApplyAll(live, sql) == live - (all - todo) && AllWorded(sql)
      decreases |todo|
    {
      var name :| name in todo;
      DropOne(live, sql, all, todo, name);
      PlainWorded(name, "");
      WordedAppend(sql, Drop(name));
      sql := sql + [Drop(name)];
      todo := todo - {name};
    }
    assert all - todo == all;
  }

  lemma DropOne(live: Objects, sql: seq<Statement>, all: set<string>, todo: set<string>, name: string)
    requires Sound(live, sql) && ApplyAll(live, sql) == live - (all - todo)
    requires name in todo && todo <= all == Visible(live).Keys
    ensures Sound(live, sql + [Drop(name)]) && ApplyAll(live, sql + [Drop(name)]) == live - (all - (todo - {name}))
  {
    hide Filtered, Sound, ApplyAll;
    SoundNoEmpty(live, sql);
    Extend(live, sql, Drop(name));
    assert all - (todo - {name}) == (all - todo) + {name};
    assert live - (all - todo) - {name} == live - ((all - todo) + {name});
  }

  lemma NothingApplied(live: Objects)
    ensures ApplyAll(live, []) == live && live - {} == live && AllWorded([])
  {
  }

  lemma ProgressEnds(base: Objects, target: seq<TargetTable>, cat: Objects)
    requires Progress(base, target, |target|, cat) && forall name :: !Listed(base, name)
    ensures Migrated(base, target, cat)
  {
    hide Settled, TableNames, Filtered;
    assert target[..|target|] == target;
    forall name | name !in TableNames(target) ensures Unwanted(base, cat, name) {
      assert SameAt(base, cat, name) && !Listed(base, name);
    }
  }

  /** The fallback's creations, where nothing is listed: the target's tables, the sync log, the hash. */
  method CreateTables(base: Objects, target: seq<TargetTable>) returns (sql: seq<Statement>)
    requires NoEmptyTable(base) && GoodTarget(target) && forall name :: !Listed(base, name)
    ensures sql != [] && sql[|sql| - 1] == UpsertHash && Sound(base, sql[..|sql| - 1])
    ensures Sound(base, sql) <==> HashWritable(base, target)
    ensures Migrated(base, target, ApplyAll(base, sql)) && NoEmptyTable(ApplyAll(base, sql))
    ensures WholeTarget(target) ==> AllWorded(sql)
    ensures Faithful(target, sql) && SyncLog in sql
  {
    hide Sound, ApplyAll, Settled, DistinctColumns, NoEmptyTable, TableNames, Progress, Migrated, HashWritable,
         SyncLogShape, Worded, WholeTable, Faithful;
    sql := [];
    FaithfulNone(target);
    PlainFaithful(target, "", "");
    StartsAs(base, target);
    for i := 0 to |target|
      invariant Sound(base, sql) && Progress(base, target, i, ApplyAll(base, sql))
      invariant WholeTarget(target) ==> AllWorded(sql)
      invariant Faithful(target, sql)
    {
      CreateFaithful(target, i);
      NotYet(base, target, i, ApplyAll(base, sql));
      CreateSettles(base, sql, base, target[i]);
      CreateWorded(target[i]);
      var create := Create(target[i].name, target[i].columns);
      ProgressStep(base, target, i, ApplyAll(base, sql), ApplyAll(base, sql + [create]));
      FaithfulAppend(target, sql, [create]);
      sql := sql + [create];
    }
    ProgressEnds(base, target, ApplyAll(base, sql));
    SoundNoEmpty(base, sql);
    OwnKeeps(base, target, ApplyAll(base, sql), SYNC_LOG, SyncLogShape());
    Extend(base, sql, SyncLog);
    PlainWorded("", "");
    FaithfulAppend(target, sql, [SyncLog]);
    sql := sql + [SyncLog];
    HashLast(base, target, sql);
    assert (sql + [UpsertHash])[..|sql + [UpsertHash]| - 1] == sql;
    FaithfulAppend(target, sql, [UpsertHash]);
    sql := sql + [UpsertHash];
  }

  /** Dropping what is listed leaves what is overlooked. */
  lemma BaseIs(live: Objects, name: string)
    ensures var base := live - Visible(live).Keys;
            && !Listed(base, name) && (Overlooked(base, name) <==> Overlooked(live, name))
            && (name in base ==> base[name] == live[name])
  {
    hide Filtered;
  }

  lemma BaseNoEmpty(live: Objects)
    requires NoEmptyTable(live)
    ensures NoEmptyTable(live - Visible(live).Keys)
  {
    hide Visible;
  }

  lemma MigratedFrom(live: Objects, target: seq<TargetTable>, cat: Objects)
    requires Migrated(live - Visible(live).Keys, target, cat)
    ensures Migrated(live, target, cat)
  {
    hide Listed, Visible, Matches, TableNames;
    var base := live - Visible(live).Keys;
    forall i | 0 <= i < |target| ensures Settled(live, target[i], cat) {
      assert Settled(base, target[i], cat);
      BaseIs(live, target[i].name);
    }
    hide Settled;
    forall name | name !in TableNames(target) ensures Unwanted(live, cat, name) {
      assert Unwanted(base, cat, name);
      BaseIs(live, name);
    }
  }

  /** What the engine does with a transaction: commit it, reject a statement, or fail outside the statements. */
  datatype Answer = Committed | Rejected | Unavailable

  /**
    What a migration comes to, column by column: every table of the target whose name
    was not overlooked has the target's columns and no other, each declared as its
    PostgreSQL type demands and each a key if it should be; and nothing else is listed.
   */
  ghost predicate Arrived(live: Objects, target: seq<TargetTable>, cat: Objects) {
    && (forall i | 0 <= i < |target| && !Overlooked(live, target[i].name) ::
          IsTable(cat, target[i].name) && DeclaredAs(cat[target[i].name].shape, target[i].columns))
    && (forall name | Listed(cat, name) :: exists i :: 0 <= i < |target| && target[i].name == name)
  }

  lemma MigratedArrives(live: Objects, target: seq<TargetTable>, cat: Objects)
    requires Migrated(live, target, cat)
    ensures Arrived(live, target, cat)
  {
    hide Matches, DeclaredAs, Overlooked, Listed;
    forall i | 0 <= i < |target| && !Overlooked(live, target[i].name)
      ensures IsTable(cat, target[i].name) && DeclaredAs(cat[target[i].name].shape, target[i].columns)
    {
      assert Settled(live, target[i], cat);
      MatchesMeans(cat[target[i].name].shape, target[i].columns);
    }
    NothingElse(live, target, cat);
    forall name | Listed(cat, name) ensures exists i :: 0 <= i < |target| && target[i].name == name {
      assert name in TableNames(target);
      var t :| t in target && t.name == name;
    }
  }

  /**
    `alter_tables` against an engine that gives any answers. A transaction that does
    not commit changes nothing. One that commits carries out the statements that the
    engine finds in the text, if it understands them as they were written; if not, it
    leaves some catalogue. The last script that ran is given back.
   */
  method AlterTables(live: Objects, target: seq<TargetTable>, hex: string, plan: Answer, drops: Answer,
                     creates: Answer, torn: Objects)
    returns (ok: bool, cat: Objects, ran: seq<Statement>)
    requires NoEmptyTable(live) && GoodTarget(target) && NoEmptyTable(torn)
    ensures ok <==> plan.Committed? || (plan.Rejected? && drops.Committed? && creates.Committed?)
    ensures ok && Understood(ran, hex) ==>
            Migrated(live, target, cat) && (Exact(target, cat) <==> NothingOverlooked(live, target))
    ensures ok && Understood(ran, hex) ==> Arrived(live, target, cat) && Faithful(target, ran)
    ensures WholeTarget(target) ==> Understood(ran, hex)
    ensures !ok ==> cat == live || cat == live - Visible(live).Keys
    ensures NoEmptyTable(cat)
  {
    hide Listed, Sound, ApplyAll, Migrated, Exact, NothingOverlooked, TableNames, DropsAllowed, GoodTarget,
         NoEmptyTable, Filtered;
    hide HashWritable, NothingToDo, Visible, AllWorded, WholeTarget, Understood, Executed, Arrived, Faithful;
    ran := Plan(live, target);
    if WholeTarget(target) { WordedUnderstood(ran, hex); }
    if plan.Committed? {
      ok, cat := true, Executed(live, ran, hex, torn);
      ExecutedIs(live, ran, hex, torn);
      if Understood(ran, hex) {
        ExactIff(live, target, cat);
        MigratedArrives(live, target, cat);
      }
      return;
    }
    if plan.Unavailable? { return false, live, ran; }
    if !drops.Committed? { return false, live, ran; }
    ran := DropAll(live);
    WordedUnderstood(ran, hex);
    cat := Executed(live, ran, hex, torn);
    ExecutedIs(live, ran, hex, torn);
    BaseNoEmpty(live);
    if !creates.Committed? { return false, cat, ran; }
    forall name ensures !Listed(cat, name) { BaseIs(live, name); }
    ran := CreateTables(cat, target);
    if WholeTarget(target) { WordedUnderstood(ran, hex); }
    ghost var base := cat;
    ok, cat := true, Executed(cat, ran, hex, torn);
    ExecutedIs(base, ran, hex, torn);
    if Understood(ran, hex) {
      MigratedFrom(live, target, cat);
      ExactIff(live, target, cat);
      MigratedArrives(live, target, cat);
    }
  }

  /**
    The effect of a script that commits: what is found in its text is carried out; `torn`
    is what is left by a text that says something else.
   */
  function Executed(cat: Objects, sql: seq<Statement>, hex: string, torn: Objects): Objects {
    if Understood(sql, hex) then PerformAll(cat, Found(sql, hex)) else torn
  }

  lemma ExecutedIs(cat: Objects, sql: seq<Statement>, hex: string, torn: Objects)
    ensures Executed(cat, sql, hex, torn) == if Understood(sql, hex) then ApplyAll(cat, sql) else torn
  {
    hide Understood, PerformAll, Found, ApplyAll;
    if Understood(sql, hex) { ScriptPerformed(cat, sql, hex); }
  }

  /**
    Planning again on the result of a migration gives nothing but the hash, exactly
    if no target table has a name that introspection passes over or that was a view's.
   */
  lemma ReplanIff(live: Objects, target: seq<TargetTable>, cat: Objects)
    requires Migrated(live, target, cat)
    ensures NothingToDo(cat, target) <==>
            forall i | 0 <= i < |target| ::
              !Filtered(target[i].name) && !(target[i].name in live && live[target[i].name].View?)
  {
    hide Matches, TableNames, Filtered;
    forall i | 0 <= i < |target|
      ensures UpToDate(cat, target[i]) <==>
              !Filtered(target[i].name) && !(target[i].name in live && live[target[i].name].View?)
    {
      assert Settled(live, target[i], cat);
    }
    NothingElse(live, target, cat);
  }

  // ----- targets that no migration reaches

  function WantedColumn(): TargetColumn { TargetColumn("id", Int, true, false, false, None, [], []) }

  /** A target of one table with one column. */
  function OneTable(name: string): seq<TargetTable> { [TargetTable(name, [WantedColumn()])] }

  lemma Unreachable(live: Objects, name: string)
    requires Overlooked(live, name) && (live[name].Table? ==> "id" !in live[name].shape)
    ensures GoodTarget(OneTable(name)) && forall cat | Migrated(live, OneTable(name), cat) ::
            !Exact(OneTable(name), cat)
  {
    var target := OneTable(name);
    assert target[0].name == name && WantedColumn() in target[0].columns;
    assert "id" in Names(target[0].columns);
    assert !NothingOverlooked(live, target);
    forall cat | Migrated(live, target, cat) ensures !Exact(target, cat) { ExactIff(live, target, cat); }
  }

  /** A live table `sqlitemap` in another shape: its name matches the pattern. */
  lemma OverlookedPattern()
    ensures var live: Objects := map["sqlitemap" := Table(map["key" := LiveColumn("TEXT", true)])];
            NoEmptyTable(live) && forall cat | Migrated(live, OneTable("sqlitemap"), cat) ::
              !Exact(OneTable("sqlitemap"), cat)
  {
    var shape: Shape := map["key" := LiveColumn("TEXT", true)];
    assert "sqlitemap"[..6] == "sqlite" && Upper("sqlite") == "SQLITE";
    assert "key" in shape && "id" !in shape by { assert "id" != "key"; }
    Unreachable(map["sqlitemap" := Table(shape)], "sqlitemap");
  }

  /** The sync's own `__meta__`, which is always there, if PostgreSQL has a table of that name. */
  lemma OverlookedMeta()
    ensures var live: Objects := map[META := Table(MetaShape())];
            NoEmptyTable(live) && forall cat | Migrated(live, OneTable(META), cat) :: !Exact(OneTable(META), cat)
  {
    assert "key" in MetaShape();
    assert "id" !in MetaShape() by { assert "id" != "key" && |"id"| != |"value"|; }
    Unreachable(map[META := Table(MetaShape())], META);
  }

  /** A live view with the name of a target table. */
  lemma OverlookedView()
    ensures var live: Objects := map["users" := View];
            NoEmptyTable(live) && forall cat | Migrated(live, OneTable("users"), cat) :: !Exact(OneTable("users"), cat)
  {
    Unreachable(map["users" := View], "users");
  }
}
