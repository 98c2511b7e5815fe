# Boomerang in Dafny

Boomerang keeps a PostgreSQL database and a SQLite database in step. This project
models the five parts of it whose correctness spans whole loops, whole runs or the
agreement of several functions, and proves what they promise:

1. **String interner.** `Records`, `Symbols` and `InternerModel` define the record
   layout, the symbols and the interner as a value, and `Utf8` which texts are valid.
   `MemoryPool` and `Interner` are the arena and the interner as objects with 32-bit
   arithmetic, including the snapshot writer and both readers. `Concurrent.dfy` (module
   `ConcurrentInterner`) is a state machine in which any number of threads run
   `get_or_intern`, `get`, `resolve` and `bytes`, one atomic access (and one copied byte)
   at a time; `ConcurrentShard`, `ConcurrentSafety` and `ConcurrentTheorems` prove its
   invariant and what follows for whole runs, `ConcurrentProgress` that no thread waits
   for ever, and `ConcurrentFailures` when a call may fail and that otherwise all return.
   `CacheWitness` and `CacheExact` show for exactly which values the thread-local
   cache can be trusted.
2. **Schema builder.** `SchemaRows` says what the rows describe, `Builder` collects
   them, `Resolution`, `TopoSort`, `Compaction` and `SchemaBuild` are the loops of
   `build`, and `SchemaTheorems` and `SchemaColumns` state what a built schema says
   about its rows.
3. **Schema codec and lookups.** `Codec`, `SchemaCodec`, `DecodeExact`, `NameIndex` and
   `EndToEnd`. `TextRows` and `TextColumns` go from rows of texts through interner,
   builder and codec to what is found by name and what is found there.
4. **Truth table.** `MergeSpec` is the merge and the join it must equal, `MergeLaws`
   its symmetry and its fixpoint, `TruthTable.dfy` (module `TruthTables`) the
   streaming object, and `LogJoin` what it reports, in terms of the logs' rows alone.
5. **SQLite migration.** `Catalogue`, `Migration` and `MigrationPlan` are the plan and
   its effect. `SqlText` is the text in which it is handed to SQLite, `SqlLexer` how
   SQLite's tokenizer divides text, `SqlDivision` and `SqlReading` say exactly when the
   text means the plan, and `SqlCommands` reads the statements back and carries them out.

Names of tables, columns and checks are symbols in the builder and the codec, byte
strings in the interner, in `TextRows` and in the logs, and character strings in the
migration.

## Where the code differs from its promises

- **The cache reads four bytes too far.** `get_or_intern` and `get` cache the offset of
  a string's text (crates/database/src/core/string_interner.rs:836 and :949), but a hit
  adds four to it as if it were the offset of the record (:752-757, :915-920). The
  model follows the code. Values of up to eight bytes are not affected. A longer value
  `v` can be given the symbol of another string exactly if its bytes 0..4 and 4..8
  agree, `w = v[..4] + v[..|v| - 4]` is a different, valid string, the hashes of `v`
  and `w` agree in their low 32 bits, and a region has room for them (the bytes behind
  a record are arbitrary until they are written).
  `ConcurrentSafety.Trusted` excludes those values; `CacheExact.TruthfulIff` proves, for
  each hash and geometry on its own, that the condition is exact.
  `CacheWitness.CacheUnsafeExample` gives a value that only the hash protects, and
  `ConcurrentTheorems.MendedOneSymbolPerString` shows that with the record's offset in
  the cache all runs would be right for all values. The misplaced read may also reach
  four bytes behind the arena; the model gives the arena four bytes more, of arbitrary
  content.
- **Introspection overlooks some names.** `alter_tables` lists objects of type `table`
  whose name is `NOT LIKE 'sqlite_%'` and is neither `__sync_log__` nor `__meta__`
  (crates/database/src/dialect/sqlite.rs:231-236). In the pattern `_` stands for any
  character and case is ignored, so a user table called `sqlitemap` is never seen; nor
  is a view; nor are the two tables of the sync itself, if PostgreSQL has tables of
  those names. `CREATE TABLE IF NOT EXISTS` then does nothing, and the call succeeds. A
  migration whose script SQLite understands as it was written (see the next point)
  reaches the target exactly if whatever is overlooked under the name of a target table
  already is that table (`MigrationPlan.ExactIff`; the three kinds of failure are `MigrationPlan.OverlookedPattern`, `MigrationPlan.OverlookedMeta` and
  `MigrationPlan.OverlookedView`), and a second plan repeats the creation of a target
  table that is not listed (`MigrationPlan.ReplanIff`).
- **Defaults are cut inside their quotes.** `sqlite_default` cuts a default at its first
  `::` (crates/database/src/dialect/sqlite.rs:414-428), also when that is inside a string
  constant, as in `'::1'::inet`. What is left opens a quote and never closes it, so that
  SQLite reads what follows as part of the constant. A script divides into the statements
  and definitions that were written exactly if every default and every check copied into
  it is closed (`SqlDivision.DividedIff`), and a string constant with a cast survives the
  cut exactly if there is no `::` in it (`SqlReading.ConstantClosedIff`). Otherwise the
  migration may succeed and miss the target: two neighbouring columns whose defaults are
  cut to a lone quote make a table without the second one
  (`SqlReading.ColumnSwallowed`, with the addresses `::` and `::1` as an instance in
  `SqlReading.HostsLoseColumn`). `MigrationPlan.AlterTables` promises the target for every
  script that is understood, which is every script of a target whose defaults and checks
  are whole; what SQLite's grammar makes of another text is not modelled.
- **Triggers write names that are not interned.** The triggers on both sides log
  `public.` and the table's name (crates/database/src/dialect/sqlite.rs:574,
  crates/database/src/dialect/postgres.rs:377), while the builder interns bare names
  (crates/database/src/core/schema_builder.rs:94). The rows that the program itself logs
  therefore fail with an unknown table, except where the prefixed name happens to be one of
  the schema's texts (`TextRows.TriggerRowDecodes`). The results on the truth table are
  about logs whose table names are interned.
- **An index can overflow only with one or two shards.** From four shards on a region is
  too small for 2^24 records (`InternerModel.StandardConfigured`). A snapshot of a
  larger shard panics when it is read (`ConcurrentTheorems.SnapshotDecodes`).

## Assumptions

- The release profile aborts on panic (Cargo.toml:10). A panic of `Symbol::new` ends
  the run. A full region poisons its shard and stops its thread; the model lets the
  other threads go on, so it covers unwinding there too.
- Interleavings are sequentially consistent. The string hash is any deterministic
  function, for short strings too; every result holds for each such function on its
  own, and so for the hash in use.
- Table and column names that reach the builder and the logs are trusted in the sense
  above, so that the cached `get_or_intern` and `get` answer as the hash table does; the
  builder and the truth table use the answers of the latter.
- Thread-local caches are shared with other interners, which may fill any slot with
  any cell under another id at any time.
- Rows reach the builder grouped by table (crates/database/src/dialect/postgres.rs:201),
  and counts fit the fields that hold them: tables, columns and keys per table, checks
  and keys per column 16 bits, pools 32 bits. String lengths are below 2^32 - 8.
- Logs are finite, strictly ascending by table name and record, and their table names
  are interned in the schema. Errors are terminal.
- A SQLite transaction that commits has the effects of its statements in order; one
  that does not commit changes nothing. The engine may reject any statement. A table's
  columns are those that `pragma_table_info` lists. Live tables are ordinary ones: a
  virtual table would take its shadow tables with it when it is dropped. Among the live
  and the target's table and column names no two differ only in case, so that names may be
  compared exactly, and column names are distinct within a target table.
- SQLite's tokenizer divides text by quotes, comments, parentheses, commas and semicolons
  as `SqlLexer` says. Defaults and checks are texts of PostgreSQL expressions and of its
  `CHECK` constraints: a closed default is one term of its definition or is rejected.

## Model

| member | source | states |
|---|---|---|
| Records.PaddedIsMask | crates/database/src/core/string_interner.rs:149-152 | below the length limit the 32-bit masking form neither wraps nor differs from rounding up to four |
| Records.OffAligned | crates/database/src/core/string_interner.rs:149-152 | every record of a run starts at a multiple of four |
| Symbols.PackRoundTrip | crates/database/src/core/string_interner.rs:70-88 | shard and index survive packing, and a symbol is a nonzero u32 |
| Symbols.UnpackRoundTrip | crates/database/src/core/string_interner.rs:70-98 | every raw symbol with an index is the packing of its shard and index |
| Symbols.ChunkBijection | crates/database/src/core/string_interner.rs:386-387 | chunk and slot are a bijection between the 2^24 indices and the cells of the chunked array |
| Symbols.PrefixDetermines | crates/database/src/core/string_interner.rs:492-513 | from two to eight bytes, length and `prefix8` determine the string |
| Symbols.PrefixOfLong | crates/database/src/core/string_interner.rs:492-497 | strings of eight bytes and more with one prefix agree in their first eight bytes |
| InternerModel.PoolConfigured | crates/database/src/core/string_interner.rs:157-187 | the constructor's assertions suffice for all regions to be aligned and to fit behind the header in a u32 capacity |
| InternerModel.PoolLargest | crates/database/src/core/string_interner.rs:157-187 | no region size that is a greater multiple of four would fit |
| InternerModel.StandardConfigured | crates/database/src/core/string_interner.rs:544-574 | every interner's geometry is valid, and from four shards on no region has room for 2^24 records |
| InternerModel.ShardCountLeast | crates/database/src/core/string_interner.rs:544-574 | the shard count is the least power of two that is not below the request, up to 128 |
| InternerModel.MaskIsRemainder | crates/database/src/core/string_interner.rs:568 | masking a 64-bit hash is its remainder for every shard count in use |
| InternerModel.ShardIsMask | crates/database/src/core/string_interner.rs:568-570 | a string's shard is the last binary digits of its hash, as many as the shard count takes |
| InternerModel.StaticExact | crates/database/src/core/string_interner.rs:869-880 | in every interner the empty text and the 128 one-byte texts have the symbols of the static shard, and no other text has one |
| InternerModel.GetResolve | crates/database/src/core/string_interner.rs:869-1003 | in a well-formed interner `get` and `resolve` are inverse, static strings included |
| InternerModel.InternExtends | crates/database/src/core/string_interner.rs:707-867 | interning keeps the interner well formed, gives the string a symbol and moves no other string |
| InternerModel.InternIff | crates/database/src/core/string_interner.rs:674-705 | interning succeeds exactly if some well-formed interner holds the string behind what is already stored: it fails only where no interner could have it too |
| InternerModel.SnapshotRoundTrip | crates/database/src/core/string_interner.rs:611-705 | reading back any snapshot of a well-formed interner exhausts no region and restores every shard string for string, so every symbol and lookup is unchanged |
| InternerModel.SnapshotExact | crates/database/src/core/string_interner.rs:611-705 | reading back a snapshot of any strings that fit their regions restores them if every shard has at most 2^24 - 1 and panics otherwise, whatever the padding holds |
| InternerModel.LoadedReloads | crates/database/src/core/string_interner.rs:611-672 | an interner loaded from any bytes with valid texts, repeated ones included, is loaded again from each of its snapshots, string for string and symbol for symbol |
| InternerModel.TextsUnchecked | crates/database/src/core/string_interner.rs:643-672 | without invalid texts the unchecked reader sees the texts of the checked one |
| InternerModel.TextsChecked | crates/database/src/core/string_interner.rs:611-672 | on any bytes the checked reader hands on what the unchecked one does, in order, without the texts that are not valid |
| InternerModel.RecordsRead | crates/database/src/core/string_interner.rs:611-672 | a run of any records is read record by record up to one that is cut off |
| Utf8.ValidIff | crates/database/src/core/string_interner.rs:632-635 | a text is accepted exactly if it is the concatenation of the encodings of some sequence of Unicode scalar values |
| MemoryPool.MemoryPool.constructor | crates/database/src/core/string_interner.rs:157-187 | a valid empty pool over arbitrary memory |
| MemoryPool.MemoryPool.Alloc | crates/database/src/core/string_interner.rs:200-241 | succeeds exactly if the record fits and the shard is not poisoned; the record is aligned, inside its region and behind all others; no other byte changes; a request that does not fit writes nothing and poisons the shard; no u32 operation wraps |
| MemoryPool.CommitRecord | crates/database/src/core/string_interner.rs:229-240 | writing the next record extends its own shard's run and disturbs no other record of any shard |
| MemoryPool.MemoryPool.CommittedBytes | crates/database/src/core/string_interner.rs:243-270 | the snapshot is the header and all committed records of all shards in order |
| Interner.StringInterner.constructor | crates/database/src/core/string_interner.rs:544-570 | an empty interner with the requested count clamped to a power of two |
| Interner.StringInterner.ResolveSymbol | crates/database/src/core/string_interner.rs:982-1003 | the string of the symbol's shard and index, or none |
| Interner.StringInterner.Find | crates/database/src/core/string_interner.rs:775-793 | the hash table lookup finds a string's symbol exactly if the shard holds the string |
| Interner.StringInterner.InsertUnique | crates/database/src/core/string_interner.rs:674-705 | stores the string at the end of its shard, fails exactly if region or index is exhausted |
| Interner.StringInterner.GetOrIntern | crates/database/src/core/string_interner.rs:707-867 | as one thread sees it without the cache: the interner stays well formed and the symbol is the one `get` gives afterwards |
| Interner.FromBytes | crates/database/src/core/string_interner.rs:611-672 | on any bytes without a record as long as `alloc` forbids: the interner that storing the readable texts in turn gives, or the panic on the way |
| Interner.Reload | crates/database/src/core/string_interner.rs:576-641 | `from_bytes(bytes())` of a well-formed interner succeeds with the same geometry and the same strings under the same symbols |
| ConcurrentShard.WorkKeeps | crates/database/src/core/string_interner.rs:796-834 | every step of the write-locked section (recheck, byte copy, cursor, length, chunk, slot, entry) keeps the shard's invariant, loses nothing and writes only in its own region |
| ConcurrentFailures.WorkFails | crates/database/src/core/string_interner.rs:796-834 | a step of the write-locked section panics exactly if the text is not stored and its shard is poisoned or has no room for it, and crashes exactly at an index that symbols cannot carry |
| ConcurrentInterner.CandidateIff | crates/database/src/core/string_interner.rs:732-764 | the probe's candidate is the first matching way of the hash's line of four, and there is none exactly if no way matches |
| ConcurrentInterner.FillFound | crates/database/src/core/string_interner.rs:836-864 | a cell is filled into the hash's line, into the first empty way if there is one and else the hash's own, is then found, and answers for a text of up to eight bytes |
| ConcurrentShard.LookupMeaning | crates/database/src/core/string_interner.rs:775-793 | at any step the hash table answers as a search of the entered strings would |
| ConcurrentSafety.MisreadString | crates/database/src/core/string_interner.rs:747-757 | the only string that the misplaced comparison can take for a value is the value shifted by four |
| ConcurrentSafety.ProbeSound | crates/database/src/core/string_interner.rs:732-764 | a cache hit for a trusted value names that value, for any history of the cache |
| ConcurrentSafety.DoKeeps | crates/database/src/core/string_interner.rs:707-1003 | every move of every thread keeps the invariant, loses no string and withdraws no answer |
| ConcurrentTheorems.RunKeeps | crates/database/src/core/string_interner.rs:707-1003 | the invariant holds in every state of every run |
| ConcurrentTheorems.InitInv | crates/database/src/core/string_interner.rs:544-672 | an interner that is new or loaded with any strings satisfies the invariant, whatever else the arena and the caches hold |
| ConcurrentTheorems.LoadedStarts | crates/database/src/core/string_interner.rs:611-672 | every well-formed interner, in an arena that holds its records, is a state from which runs start |
| ConcurrentTheorems.AnyCall | crates/database/src/core/string_interner.rs:707-1003 | an idle thread can begin any call with any valid text or symbol |
| ConcurrentTheorems.OneSymbolPerString | crates/database/src/core/string_interner.rs:707-867 | in every interleaving, on an interner that is new or loaded by `from_bytes`, equal strings get one symbol and different strings different ones, for trusted values |
| ConcurrentTheorems.ResolveFinds | crates/database/src/core/string_interner.rs:381-424 | a lock-free read of a returned symbol, started in any later state, ends after four of its own steps with the string, whatever the other threads do |
| ConcurrentTheorems.GetFinds | crates/database/src/core/string_interner.rs:869-947 | once a symbol was returned for a string, no `get` of it, whenever it began, ends with none |
| ConcurrentTheorems.ViewsWhole | crates/database/src/core/string_interner.rs:381-424 | at every step of racing writers a finished read is none or the complete string of its index |
| ConcurrentTheorems.CacheRefines | crates/database/src/core/string_interner.rs:732-793 | whenever the cache answers for a trusted value, the hash table would give the same symbol |
| ConcurrentTheorems.MendedOneSymbolPerString | crates/database/src/core/string_interner.rs:752-757 | with the record's offset in the cache, as the probe expects, symbols and strings match in every run for all values |
| ConcurrentTheorems.SnapshotDecodes | crates/database/src/core/string_interner.rs:243-270 | a snapshot taken among running writers is a prefix of every shard, in which every symbol returned before it began still resolves; read back it gives exactly these strings if symbols can name them all, which from four shards on they can, and panics otherwise |
| ConcurrentProgress.RunLocks | crates/database/src/core/string_interner.rs:775-867 | in every state of every run that has not crashed, each lock is held by exactly the threads that read or write under it |
| ConcurrentProgress.Unblocked | crates/database/src/core/string_interner.rs:707-1003 | a thread in a call can step, or waits for a lock that a thread holds which can: there is no deadlock |
| ConcurrentProgress.AllCallsEnd | crates/database/src/core/string_interner.rs:707-1003 | from every reachable state, in every schedule without new calls, the calls under way take a bounded number of steps, and the schedule stops only in a crash or when each has returned or panicked |
| ConcurrentFailures.PoisonedMisfit | crates/database/src/core/string_interner.rs:212-227 | in every run a shard is poisoned only if some text that was called for belongs there, is not stored, and has no room behind what is |
| ConcurrentFailures.PanickedMisfit | crates/database/src/core/string_interner.rs:707-867 | unless the run crashed, a thread panics only in a `get_or_intern` whose text is not stored, at a shard in which some text that was called for has no room |
| ConcurrentFailures.CrashedFull | crates/database/src/core/string_interner.rs:70-88 | a run crashes only if some shard has more strings than symbols can name |
| ConcurrentFailures.NoFailures | crates/database/src/core/string_interner.rs:707-867 | if all texts that are stored or called for fit into their regions together, nothing is poisoned, no thread panics and the run does not crash |
| ConcurrentFailures.AllCallsReturn | crates/database/src/core/string_interner.rs:707-1003 | and then every schedule of the calls under way ends, after a bounded number of steps, with each thread idle and each `get_or_intern` answered with a symbol |
| CacheWitness.CacheUnsafeFails | crates/database/src/core/string_interner.rs:836-864 | under every hash and geometry, for any value that is not trusted there is a run of one thread on a new interner that gives it the symbol of another string |
| CacheExact.TruthfulIff | crates/database/src/core/string_interner.rs:732-764 | under a given hash and geometry the symbols returned for a value name it in every run if and only if the value is cache safe, or the low 32 bits of the hash tell it from the value shifted by four, or no region has room for it |
| TruthTables.TableCache.SymbolFor | crates/database/src/sync/truth_table.rs:182-209 | the memo never changes an answer |
| TruthTables.Pull | crates/database/src/sync/truth_table.rs:287-299 | the next row decoded, or none at the end, or an error exactly if it does not decode |
| TruthTables.TriggerRowFails | crates/database/src/dialect/sqlite.rs:560-580 | a row that a trigger wrote fails to decode exactly if its op is invalid or the prefixed table name is not interned |
| TruthTables.DecodedStands | crates/database/src/sync/truth_table.rs:60-111 | a row decodes exactly if its table name has a symbol and its op is one of the three letters, and then to what it says: the table that has its name, its record, version and time, and the operation of its letter |
| TruthTables.CompareHeadsIsKeyOrder | crates/database/src/sync/truth_table.rs:129-141 | comparing symbols first orders heads as their table names and records do |
| TruthTables.ResolveIsVerdict | crates/database/src/sync/truth_table.rs:431-449 | the decision is the documented last-writer-wins policy |
| TruthTables.HeadOrderIsStep | crates/database/src/sync/truth_table.rs:382-413 | consuming the lookaheads of the smaller key is the merge's first step |
| TruthTables.TruthTable.Open | crates/database/src/sync/truth_table.rs:323-358 | fails exactly if a first row does not decode; otherwise both whole logs are ahead |
| TruthTables.TruthTable.NextEntry | crates/database/src/sync/truth_table.rs:370-421 | the next result of the merge of what is left, none exactly at its end; it terminates, and fails exactly if a row that it reads on the way does not decode, stopping behind that row |
| TruthTables.Drain | crates/database/src/sync/truth_table.rs:370-421 | draining ends and yields the merge of the two logs |
| LogJoin.DrainIsJoin | crates/database/src/sync/truth_table.rs:360-449 | on logs in strictly ascending byte order whose rows decode, said of the rows alone: draining reports records in that order, each once, with what each log's row says and for the side whose stamp is later, or as a conflict of equal stamps with different operations; a record of either log is left out exactly if both have a row of it with the same version, time and operation |
| MergeSpec.StrLessIff | crates/database/src/sync/truth_table.rs:129-141 | the order of the merge is the order of the bytes: at the first difference one text has the smaller byte or has ended |
| MergeSpec.VerdictMeans | crates/database/src/sync/truth_table.rs:431-449 | the winner's stamp is not below the loser's and not the same; there is no verdict exactly if neither side is there or both say the same |
| MergeSpec.MergeIsJoin | crates/database/src/sync/truth_table.rs:370-449 | the merge equals the full outer join at every key, and is strictly ordered |
| MergeLaws.MergeSymmetric | crates/database/src/sync/truth_table.rs:431-449 | swapping the logs gives the same keys with mirrored entries and actions |
| MergeLaws.SyncFixpoint | crates/database/src/sync/truth_table.rs:159-168 | once every winner is copied to the other log, a second merge emits exactly the earlier conflicts |
| Builder.SchemaBuilder.FinishTable | crates/database/src/core/schema_builder.rs:194-209 | the open table joins the finished ones |
| Builder.SchemaBuilder.AddRow | crates/database/src/core/schema_builder.rs:81-192 | the builder's vectors describe all rows seen so far, whatever rows those are |
| Builder.RawGrows | crates/database/src/core/schema_builder.rs:81-192 | one more row keeps tables, columns, pools and pending keys true to the rows |
| SchemaRows.GroupedDistinct | crates/database/src/core/schema_builder.rs:96-102 | grouped rows give distinct table names |
| Resolution.ResolveForeignKeys | crates/database/src/core/schema_builder.rs:218-252 | keys resolve exactly if their table and column exist; the graph has an edge exactly for those between different tables, and in-degrees count them |
| TopoSort.RunQueue | crates/database/src/core/schema_builder.rs:254-271 | no in-degree goes negative, no table is queued twice, and every ordered table follows all tables it references |
| TopoSort.LeftOutIffCycle | crates/database/src/core/schema_builder.rs:263-283 | the queue leaves out exactly the tables that depend on a cycle of two or more tables |
| TopoSort.TableOrder | crates/database/src/core/schema_builder.rs:254-283 | the order is a permutation: roots first, topological up to the fallback, which appends the rest in ascending order |
| Compaction.CompactPool | crates/database/src/core/schema_builder.rs:299-315 | the new pool is the declared keys that lead somewhere, in order, with permuted table indices |
| Compaction.NewRange | crates/database/src/core/schema_builder.rs:317-357 | the rewritten range covers what is kept of the old one |
| Compaction.ShrunkSlice | crates/database/src/core/schema_builder.rs:299-357 | the rewritten range of the new pool holds exactly the kept keys of the old range |
| SchemaBuild.BuildTables | crates/database/src/core/schema_builder.rs:211-370 | from any collected vectors: ordered tables, moved ranges, compacted pool, sorted index |
| SchemaBuild.Build | crates/database/src/core/schema_builder.rs:211-370 | the same from the builder, for every grouped sequence of rows |
| SchemaColumns.ColumnExact | crates/database/src/core/schema_builder.rs:317-337 | every column of a built schema has its row's name, type and default, flags whose bits are set exactly as the row says, and a range of the check pool that holds exactly the row's checks |
| SchemaColumns.PrimaryExact | crates/database/src/core/schema_builder.rs:112-114 | a table's key column is the last of its rows that is primary, and it has one exactly if some row is |
| SchemaColumns.ColumnKeys | crates/database/src/core/schema_builder.rs:317-339 | a column's foreign keys are, in order, those of its row whose target exists, each with its names and actions and with the indices of the table and of the first column so called |
| SchemaColumns.TableKeys | crates/database/src/core/schema_builder.rs:339-357 | a table's foreign keys are, in order, those of its rows whose target exists |
| SchemaTheorems.ColumnFksExact | crates/database/src/core/schema_builder.rs:317-339 | each column's range holds exactly its row's declared keys that lead somewhere, in order |
| SchemaTheorems.TableFksExact | crates/database/src/core/schema_builder.rs:339-357 | each table's range holds exactly its rows' keys that lead somewhere, in order |
| SchemaTheorems.KeptNamesTarget | crates/database/src/core/schema_builder.rs:299-312 | a kept key's indices name the declared table and column after the permutation |
| SchemaTheorems.TargetKept | crates/database/src/core/schema_builder.rs:223-252 | a key whose table and column exist is kept |
| SchemaTheorems.NamesDistinct | crates/database/src/core/schema_builder.rs:294-297 | table names stay distinct and the index sorts them |
| SchemaTheorems.OrderTheorem | crates/database/src/core/schema_builder.rs:254-297 | in the built schema every table from the queue follows all other tables it references, and the rest are exactly those from which references lead to a cycle of two or more tables |
| SchemaTheorems.IndependentTables | crates/database/src/core/schema.rs:470-476 | yields exactly the tables that reference no other, and they are an initial segment of the order |
| SchemaTheorems.LeafTables | crates/database/src/core/schema.rs:478-494 | in ascending order exactly the tables that no other table references |
| NameIndex.SortByName | crates/database/src/core/schema_builder.rs:294-297 | a permutation of the table indices, sorted by name |
| NameIndex.TableBySymbol | crates/database/src/core/schema.rs:462-468 | binary search answers as a linear scan, for every symbol |
| SchemaCodec.EncodeSchema | crates/database/src/core/schema.rs:503-605 | the growing buffer is the printed form |
| SchemaCodec.DecodeSchema | crates/database/src/core/schema.rs:607-917 | the advancing readers are the parser, in both modes, on every input for which memory suffices, the panics of `Action::from` and of the interner included |
| SchemaCodec.RoundTrip | crates/database/src/core/schema.rs:503-764 | decoding an encoding with anything behind it, in either mode, yields the schema itself: tables, columns, pools, both sentinels, hash and interner |
| SchemaCodec.PrefixRejected | crates/database/src/core/schema.rs:607-764 | every strict prefix of an encoding decodes to `None` |
| SchemaCodec.DecodeStable | crates/database/src/core/schema.rs:607-917 | wherever `decode` succeeds, trailing bytes change nothing, shorter input is refused, and `decode_unchecked` gives the same if all texts are valid UTF-8 |
| DecodeExact.EncodeLayout | crates/database/src/core/schema.rs:503-605 | an encoding is the hash, the snapshot behind its length, and the lists of tables, name index, columns, column names, checks and foreign keys in this order |
| DecodeExact.ListLayout | crates/database/src/core/schema.rs:552-605 | a list is its length and its elements one behind the other |
| DecodeExact.TableLayout | crates/database/src/core/schema.rs:553-560 | which of the 18 bytes of a table say what, little-endian, with 65535 for no key column |
| DecodeExact.ColumnLayout | crates/database/src/core/schema.rs:568-584 | which bytes of a column say what, with zero for no default |
| DecodeExact.TypeLayout | crates/database/src/core/schema.rs:570-575 | a type is its tag, and behind tag 14 the symbol of its name |
| DecodeExact.ForeignKeyLayout | crates/database/src/core/schema.rs:597-605 | which of the 14 bytes of a foreign key say what, with the codes 0 to 4 for the actions |
| DecodeExact.DecodesIff | crates/database/src/core/schema.rs:607-917 | either decoder yields a schema exactly for the bytes that begin with an encoding of it: nothing else is accepted, and no two schemas have the same bytes |
| DecodeExact.DecodeKinds | crates/database/src/core/schema.rs:607-917 | on any bytes `decode` is never undefined and `decode_unchecked` never answers `None`; a panic comes from the interner's records or from a foreign key |
| DecodeExact.ForeignKeyPanics | crates/database/src/core/schema.rs:607-764 | reading a foreign key panics exactly on an action byte above four behind two symbols that are not zero |
| EndToEnd.BuiltFits | crates/database/src/core/schema.rs:503-605 | every schema from the builder fits the format's field widths |
| EndToEnd.BuiltRoundTrip | crates/database/src/core/schema.rs:503-764 | every schema from the builder survives the codec unchanged |
| TextRows.AddAllMeans | crates/database/src/core/schema_builder.rs:81-192 | interning the texts of all rows in turn, the symbols given to the builder at the time are those of the texts in the interner that results |
| TextRows.AddAllOnly | crates/database/src/core/schema_builder.rs:81-192 | the interner of a schema holds the texts of its rows and no other |
| TextRows.GroupedRows | crates/database/src/core/schema_builder.rs:96-102 | rows grouped by table name reach the builder grouped by symbol |
| TextRows.TableByName | crates/database/src/core/schema.rs:457-468 | `table(name)` finds the table of exactly the rows of that name, with their column names, and one is found exactly if there are such rows |
| TextRows.ColumnsByName | crates/database/src/core/schema.rs:372-388 | `column(name)` of each table finds the first of its rows with that column name, or none exactly if there is none |
| TextColumns.BuiltHolds | crates/database/src/core/schema_builder.rs:81-370 | a schema built from rows of texts holds them: every column reads as its row's name, type, default, flags and checks, every key column is the last primary one, and every foreign key, followed to its table and column, reads as the texts that declared it, kept exactly if some row is that table and column |
| TextColumns.DecodedByName | crates/database/src/core/schema.rs:457-764 | from rows of texts through interner, builder, encoder and decoder, either mode: the decoded schema holds the rows, and answers every `table(name)` and `column(name)` as they do |
| TextRows.TriggerRowDecodes | crates/database/src/dialect/sqlite.rs:560-580 | under a schema from rows of texts a trigger's row decodes exactly if its op is valid and the prefixed name is itself one of those texts |
| SqlLexer.QuotedReads | crates/database/src/core.rs:36-65 | whatever a quoted name or constant holds, the tokenizer reads it as one token that completes nothing |
| SqlLexer.UnquotedQuoted | crates/database/src/core.rs:36-49 | unquoting undoes `Ident` for every text |
| SqlLexer.JoinedReadsIff | crates/database/src/dialect/sqlite.rs:464-536 | a text of pieces and the characters that end them is divided into these pieces if and only if each piece is closed |
| SqlText.PartsFoundIff | crates/database/src/dialect/sqlite.rs:464-536 | in the text of a `CREATE TABLE` the tokenizer finds the columns, keys and checks that were written, if and only if each is closed |
| SqlDivision.DividedIff | crates/database/src/dialect/sqlite.rs:258-342 | a whole script divides into the statements that were written, and each new table into its definitions, if and only if every default and check copied into it is closed, whatever the names are |
| SqlReading.ConstantDefault | crates/database/src/dialect/sqlite.rs:414-428 | what is kept of a string constant with a cast: all of it, or what is before the first `::` in it |
| SqlReading.ConstantClosedIff | crates/database/src/dialect/sqlite.rs:414-428 | what is kept is closed if and only if there is no `::` in the constant |
| SqlReading.ConstantTorn | crates/database/src/dialect/sqlite.rs:296-315 | a script that creates or adds a column with such a constant for a default never divides as it was written |
| SqlReading.DefaultKept | crates/database/src/dialect/sqlite.rs:414-428 | a default without a cast is kept as it is, without white space around it, if it begins as a literal |
| SqlReading.DefaultCut | crates/database/src/dialect/sqlite.rs:414-428 | of a default with a cast, what stands before the first `::` is kept, without white space around it, if it begins as a literal |
| SqlReading.DefaultForms | crates/database/src/dialect/sqlite.rs:414-428 | every default is of one of these two kinds |
| SqlReading.LiteralIff | crates/database/src/dialect/sqlite.rs:419-427 | a literal begins with a quote, a digit or a minus and a digit, or is one of four words in any case |
| SqlReading.WrittenIff | crates/database/src/dialect/sqlite.rs:525-533 | a check is written exactly if it is not empty and has no `::` in it |
| SqlReading.DefinitionsRead | crates/database/src/dialect/sqlite.rs:464-536 | the definitions of a created table, read back, are the target's column names, types and key flags |
| SqlReading.WriteCreateTable | crates/database/src/dialect/sqlite.rs:464-536 | the loops append the table's statement, definitions separated by commas, and no more |
| SqlCommands.ColumnSays | crates/database/src/dialect/sqlite.rs:474-505 | a column's definition, read back: name and type, a key that is not null, or else unique and not null as the target says, and the default that is kept |
| SqlCommands.PartSays | crates/database/src/dialect/sqlite.rs:467-499 | the first definitions of a new table are its columns in order, each read back as such |
| SqlCommands.AddSays | crates/database/src/dialect/sqlite.rs:296-315 | an added column's statement, read back: table, name, type and default, and not null exactly behind a default of a column that must not be |
| SqlCommands.KeySays | crates/database/src/dialect/sqlite.rs:507-523 | a foreign key's text, read back, names its column, its target, and the actions on update and on delete as such |
| SqlCommands.ClausesAre | crates/database/src/dialect/sqlite.rs:507-523 | the key clauses of a table are exactly its columns' foreign keys |
| SqlCommands.IndexSays | crates/database/src/dialect/sqlite.rs:317-326 | the index of a unique column, read back, is on that column of that table |
| SqlCommands.HashSays | crates/database/src/dialect/sqlite.rs:455-462 | the upsert, read back, writes the hash into the meta table under its key |
| SqlCommands.ScriptPerformed | crates/database/src/dialect/sqlite.rs:258-342 | the statements that SQLite finds in the text of a script it understands, read back and carried out in turn, have the effect of the plan on every catalogue, and none is refused if each statement of the plan applies to what the earlier ones leave |
| SqlReading.ColumnSwallowed | crates/database/src/dialect/sqlite.rs:414-428 | for any other columns: of two neighbours whose defaults were cut to a lone quote the table gets the first and loses the second |
| SqlReading.HostsLoseColumn | crates/database/src/dialect/sqlite.rs:414-428 | a table with the address defaults `::` and `::1` is created without the second column |
| Catalogue.ShapeMatches | crates/database/src/dialect/sqlite.rs:464-536 | a table created as its statement says has exactly the target's column names, types and key flags |
| Catalogue.SameTypeIff | crates/database/src/dialect/sqlite.rs:275-278 | two declared types are the same exactly if they have one length and agree at each position up to the case of ASCII letters |
| Catalogue.DeclaresIff | crates/database/src/dialect/sqlite.rs:391-412 | a live type is left as it is exactly if it is, up to case, INTEGER for booleans and integers, REAL for floats, BLOB for blobs and null, TEXT for everything else |
| Catalogue.RebuildMeans | crates/database/src/dialect/sqlite.rs:264-290 | a live table is rebuilt exactly if a shared column has another type or the tables have not the same key columns |
| Catalogue.FilteredIff | crates/database/src/dialect/sqlite.rs:231-236 | the names that introspection leaves out are those like `sqlite_%`, by the rules of `LIKE`, and the two of the sync |
| Migration.CompareColumns | crates/database/src/dialect/sqlite.rs:269-289 | rebuilds exactly if a shared column's type or key flag differs or a key column comes or goes; otherwise finds the missing and the surplus columns |
| Migration.AddColumns | crates/database/src/dialect/sqlite.rs:296-326 | as statements, each addition applies to the catalogue left by the earlier statements, the table gains exactly the missing columns, each as the target has it, and a unique one gets its index |
| Migration.DropColumns | crates/database/src/dialect/sqlite.rs:328-335 | in every iteration order each drop applies, never drops a key or the last column, and exactly the surplus columns go |
| Migration.AlteredMatches | crates/database/src/dialect/sqlite.rs:296-335 | additions and drops together give exactly the target's columns |
| Migration.AlterTable | crates/database/src/dialect/sqlite.rs:264-336 | a listed table ends as its target, is dropped only if it needs a rebuild, and is left alone exactly if it already matches |
| MigrationPlan.Plan | crates/database/src/dialect/sqlite.rs:258-342 | as statements, whatever their text: every one applies to the catalogue left by the earlier ones and no table is ever empty, the last one exactly if there is a table that takes the hash; the plan arrives at the target; it drops only unwanted tables and those that need a rebuild; it is the hash upsert alone exactly if nothing differs; what it creates, adds or indexes is the target's, whole, and an added column that is unique has its index; and it is worded as SQLite reads it if the target's defaults and checks are whole |
| MigrationPlan.CreateTables | crates/database/src/dialect/sqlite.rs:439-462 | as statements, the fallback's creations arrive at the target from what was never listed, and create the sync's own tables if they are absent |
| MigrationPlan.AlterTables | crates/database/src/dialect/sqlite.rs:227-386 | whenever it succeeds with a script that SQLite understands as written, by plan or by fallback, in every iteration order, every listed table is the target's and no other is left, column by column with the declared type of its PostgreSQL type and its key flag, and the target is reached exactly if nothing else was overlooked under its names; every script is understood if the target's defaults and checks are whole; a failure leaves the catalogue as it was or without its listed tables |
| MigrationPlan.ExactIff | crates/database/src/dialect/sqlite.rs:230-238 | once the statements took effect as written, the catalogue has exactly the target's tables, columns, types and key flags if and only if whatever introspection overlooked under a target's name already is that table |
| MigrationPlan.MigratedArrives | crates/database/src/dialect/sqlite.rs:258-342 | where the statements took effect as written, every table that was not overlooked has the target's columns and no other, each declared INTEGER, REAL, BLOB or TEXT as its PostgreSQL type demands and a key if it should be, and nothing else is listed |
| MigrationPlan.OverlookedPattern | crates/database/src/dialect/sqlite.rs:230-238 | a live table `sqlitemap` in another shape keeps every migration from the target |
| MigrationPlan.OverlookedMeta | crates/database/src/dialect/sqlite.rs:11-14 | the sync's own `__meta__` keeps every migration from a target with a table of that name |
| MigrationPlan.OverlookedView | crates/database/src/dialect/sqlite.rs:230-238 | a live view keeps every migration from a target with a table of its name |
| MigrationPlan.ReplanIff | crates/database/src/dialect/sqlite.rs:258-342 | planning again on the result of a migration whose statements took effect as written needs nothing but the hash, if and only if no target table has a name that introspection passes over or that was a view's |

## Left out

- Connection pools, transactions, temporary files, pragmas, stream errors and cancellation: input and output of engines whose behaviour is theirs.
- Most of `dialect/postgres.rs`, `sql/database_schema.sql` and the text of the triggers: text for the engines.
- MigrationPlan.AlterTables: says nothing of the catalogue that a committed script leaves if SQLite reads its text otherwise than it was written, because that is SQLite's grammar; `SqlDivision.DividedIff` says exactly when that is.
- SqlText.PartsFoundIff: divides text as the tokenizer does and leaves the grammar within a definition behind its type and keywords to SQLite.
- SqlCommands.ScriptPerformed: takes the definitions of the sync's own two tables from `MetaShape` and `SyncLogShape` and does not read them from their DDL, whose names are not quoted.
- Weak memory orderings, raw pointers, `Drop` code, prefetching and the hash table's internals: atomics are atomic steps and the table a set of entries.
- The `LAST_CHUNK` memo of the offset array: a chunk once installed never moves, so the memo repeats what the array would say.
- `offset_of` and `resolve_raw_offset`: arena offsets do not fit a snapshot, which leaves out the gaps between regions.
- Interner.FromBytes: takes no input with a record of 2^32 - 8 bytes or more, which `alloc` asserts it never gets and whose size would wrap.
- SchemaCodec.DecodeSchema: does not model running out of memory on a hostile length word.
- Interner.StringInterner.GetOrIntern: does not model the thread-local cache, which the state machine does.
- The mapping from PostgreSQL type names to value types: a constant table. Rows carry the value type.
- `sort_unstable_by_key` and `binary_search_by_key` of the standard library are loops of the model with the same results.
- Defaults, nullability, uniqueness, foreign keys and checks in the migration: `alter_tables` does not compare them on existing columns.
- `Value` and its conversions, `Display` forms and error enums: thin wrappers.
