/**
  The interner as the object that one thread sees: the pool, the offset array and
  the hash table of every shard, and the snapshot written and read back.
 */
module Interner {
  import opened Bytes
  import opened Records
  import opened Symbols
  import opened InternerModel
  import opened MemoryPool

  lemma {:induction false} StoreFirst(cfg: Config, shards: Shards, v: Str, rest: seq<Str>)
    requires Configured(cfg) && |shards| == cfg.count
    ensures StoreAll(cfg, shards, [v] + rest)
         == match Store(cfg, shards, v)
            case None => None
            case Some(mid) => StoreAll(cfg, mid, rest)
  {
    StoreAllConcat(cfg, shards, [v], rest);
    assert [v][..0] == [];
  }

  /** The offset array and the hash table of a shard describe exactly the strings `vs`. */
  ghost predicate Described(cfg: Config, s: nat, vs: seq<Str>, offsets: seq<u32>, entries: set<Entry>) {
    && |offsets| == |vs| <= INDEX_LIMIT
    && (forall k | 0 <= k < |vs| :: offsets[k] as nat == Offset(cfg, s, vs, k))
    && (forall k | 0 <= k < |vs| :: EntryOf(cfg, s, vs, k) in entries)
    && (forall e | e in entries :: exists k | 0 <= k < |vs| :: e == EntryOf(cfg, s, vs, k))
  }

  /** `push` and the table insertion describe the string just stored. */
  lemma DescribedAppend(cfg: Config, s: nat, vs: seq<Str>, offsets: seq<u32>, entries: set<Entry>, v: Str, offset: u32)
    requires Described(cfg, s, vs, offsets, entries) && |vs| < INDEX_LIMIT
    requires offset as nat == Offset(cfg, s, vs, |vs|)
    ensures Described(cfg, s, vs + [v], offsets + [offset], entries + {Entry(cfg.hash(v), Prefix8(v), Pack(s, |vs|))})
  {
    hide Prefix8, Pack, Base;
    var ws, entry := vs + [v], Entry(cfg.hash(v), Prefix8(v), Pack(s, |vs|));
    forall k | 0 <= k < |ws| ensures (offsets + [offset])[k] as nat == Offset(cfg, s, ws, k) {
      OffAppend(vs, v, k);
    }
    assert forall k | 0 <= k < |vs| :: EntryOf(cfg, s, ws, k) == EntryOf(cfg, s, vs, k);
    assert entry == EntryOf(cfg, s, ws, |vs|);
    forall e | e in entries + {entry} ensures exists k | 0 <= k < |ws| :: e == EntryOf(cfg, s, ws, k) {
      if e in entries {
        var k :| 0 <= k < |vs| && e == EntryOf(cfg, s, vs, k);
        assert e == EntryOf(cfg, s, ws, k);
      }
    }
  }

  class StringInterner {
    const pool: MemoryPool
    const hash: Str -> nat
    var offsets: seq<seq<u32>>
    var entries: seq<set<Entry>>

    ghost function Cfg(): Config {
      Config(pool.capacity as nat, pool.count as nat, pool.region as nat, hash)
    }

    ghost function Shards(): Shards
      reads pool
    {
      pool.records
    }

    ghost predicate Valid()
      reads this, pool, pool.data
    {
      && pool.Valid() && Configured(Cfg())
      && |offsets| == |entries| == pool.count as nat
      && (forall s | 0 <= s < pool.count as nat :: !pool.poisoned[s])
      && (forall s | 0 <= s < pool.count as nat :: Described(Cfg(), s, pool.records[s], offsets[s], entries[s]))
    }

    /** `with_capacity_and_shards`. */
    constructor (requested: nat, hash: Str -> nat)
      ensures Valid() && fresh(pool) && fresh(pool.data)
      ensures Cfg() == Standard(ShardCount(requested), hash)
      ensures Shards() == Empty(ShardCount(requested))
    {
      hide Base, Padded;
      var count := ShardCount(requested);
      StandardConfigured(count, hash);
      StandardConfigured(count, _ => 0);
      var p := new MemoryPool(CAPACITY as u32, count as u32);
      pool := p;
      this.hash := hash;
      offsets := seq(count, _ => []);
      entries := seq(count, _ => {});
      new;
      assert Cfg() == Standard(count, hash);
    }

    /** The text of the record at `offset`, as the lookups read it. */
    function TextAt(offset: u32): Str
      reads pool.data
    {
      var p := offset as nat;
      if p + 4 > pool.data.Length then [] else
      var len := Word32(pool.data[p..p + 4]);
      if p + 4 + len > pool.data.Length then [] else pool.data[p + 4..p + 4 + len]
    }

    lemma TextAtRecord(s: nat, k: nat)
      requires Valid() && s < pool.count as nat && k < |pool.records[s]|
      ensures k < |offsets[s]| && TextAt(offsets[s][k]) == pool.records[s][k]
    {
      var p := offsets[s][k] as nat;
      assert Base(Cfg(), s) == Base(pool.Geometry(), s) by {
        BaseFormula(Cfg(), s);
        BaseFormula(pool.Geometry(), s);
      }
      assert HoldsRecord(pool.data[..], Base(Cfg(), s), pool.records[s], k);
      assert pool.data[p..p + 4] == pool.data[..][p..p + 4];
    }

    /** `resolve`. */
    method ResolveSymbol(symbol: Symbol) returns (r: Option<Str>)
      requires Valid()
      ensures r == Resolve(Shards(), symbol)
    {
      var s, i := ShardId(symbol), Index(symbol);
      if s == STATIC_SHARD {
        return StaticText(i);
      }
      if s >= pool.count as nat {
        return None;
      }
      assert Described(Cfg(), s, pool.records[s], offsets[s], entries[s]);
      if i >= |offsets[s]| {
        return None;
      }
      TextAtRecord(s, i);
      r := Some(TextAt(offsets[s][i]));
    }

    /** The table lookup: an entry with the hash, the prefix and the string itself. */
    method Find(s: nat, v: Str) returns (r: Option<nat>)
      requires Valid() && s < pool.count as nat
      ensures r.Some? ==> exists k | 0 <= k < |Shards()[s]| :: Shards()[s][k] == v && r.value == Pack(s, k)
      ensures r.None? ==> v !in Shards()[s]
    {
      hide Prefix8, TextAt, Index;
      assert Described(Cfg(), s, pool.records[s], offsets[s], entries[s]);
      ghost var vs := pool.records[s];
      var todo := entries[s];
      while todo != {}
        invariant todo <= entries[s]
        invariant forall k | 0 <= k < |vs| && vs[k] == v :: EntryOf(Cfg(), s, vs, k) in todo
        decreases |todo|
      {
        var e :| e in todo;
        ghost var k :| 0 <= k < |vs| && e == EntryOf(Cfg(), s, vs, k);
        PackRoundTrip(s, k);
        TextAtRecord(s, k);
        if e.hash == hash(v) && e.prefix == Prefix8(v) && TextAt(offsets[s][Index(e.symbol)]) == v {
          return Some(e.symbol);
        }
        todo := todo - {e};
      }
      r := None;
    }

    /** Storing a string that is not yet present: `None` is a panic, after which nothing is promised. */
    method InsertUnique(v: Str) returns (r: Option<nat>)
      requires Valid() && |v| < MAX_LEN
      modifies this, pool`cursors, pool`poisoned, pool`records, pool.data
      ensures r.Some? <==> Store(Cfg(), old(Shards()), v).Some?
      ensures r.Some? ==> Valid() && Shards() == Store(Cfg(), old(Shards()), v).value
      ensures r.Some? ==> r.value == if IsStatic(v) then StaticSymbol(v)
                                     else Pack(ShardOf(Cfg(), v), |old(Shards())[ShardOf(Cfg(), v)]|)
    {
      if IsStatic(v) {
        return Some(StaticSymbol(v));
      }
      var s := hash(v) % (pool.count as nat);
      assert s == ShardOf(Cfg(), v);
      ghost var cfg, vs := Cfg(), pool.records[s];
      assert Described(cfg, s, vs, offsets[s], entries[s]);
      BaseFormula(cfg, s);
      BaseFormula(pool.Geometry(), s);
      var offset := pool.Alloc(s as u32, v);
      if offset.None? {
        return None;
      }
      var index := |offsets[s]|;
      if index >= INDEX_LIMIT {
        return None;
      }
      DescribedAppend(cfg, s, vs, offsets[s], entries[s], v, offset.value);
      offsets := offsets[s := offsets[s] + [offset.value]];
      entries := entries[s := entries[s] + {Entry(hash(v), Prefix8(v), Pack(s, index))}];
      r := Some(Pack(s, index));
    }

    /** `get_or_intern`, as one thread sees it. */
    method GetOrIntern(v: Str) returns (r: Option<nat>)
      requires Valid() && WellFormed(Cfg(), Shards()) && ValidUtf8(v) && |v| < MAX_LEN
      modifies this, pool`cursors, pool`poisoned, pool`records, pool.data
      ensures r.Some? <==> Intern(Cfg(), old(Shards()), v).Some?
      ensures r.Some? ==> Valid() && Shards() == Intern(Cfg(), old(Shards()), v).value
      ensures r.Some? ==> WellFormed(Cfg(), Shards()) && r == Get(Cfg(), Shards(), v)
    {
      if IsStatic(v) {
        return Some(StaticSymbol(v));
      }
      var s := hash(v) % (pool.count as nat);
      assert s == ShardOf(Cfg(), v);
      assert ShardStrings(Cfg(), s, Shards()[s]);
      var found := Find(s, v);
      if found.Some? {
        ghost var k :| 0 <= k < |Shards()[s]| && Shards()[s][k] == v && found.value == Pack(s, k);
        DistinctIndex(Shards()[s], v, k);
        return found;
      }
      ghost var cfg, before := Cfg(), Shards();
      r := InsertUnique(v);
      if r.Some? {
        InternExtends(cfg, before, v);
        assert Shards()[s][|before[s]|] == v;
        DistinctIndex(Shards()[s], v, |before[s]|);
      }
    }

    /** `bytes`. */
    method SnapshotBytes() returns (bytes: seq<Byte>)
      requires Valid()
      ensures IsSnapshot(bytes, Shards())
    {
      bytes := pool.CommittedBytes();
    }
  }

  /** What reading one record does: texts that are not UTF-8 are skipped by the checked reader. */
  function StoreText(cfg: Config, shards: Shards, text: Str, checked: bool): Option<Shards>
    requires Configured(cfg) && |shards| == cfg.count
  {
    if !checked || ValidUtf8(text) then Store(cfg, shards, text) else Some(shards)
  }

  lemma TextsStep(cfg: Config, shards: Shards, bytes: seq<Byte>, cursor: nat, checked: bool)
    requires Configured(cfg) && |shards| == cfg.count && cursor + 4 <= |bytes|
    requires cursor + 4 + Word32(bytes[cursor..cursor + 4]) <= |bytes|
    ensures var len := Word32(bytes[cursor..cursor + 4]);
            var text := bytes[cursor + 4..cursor + 4 + len];
            StoreAll(cfg, shards, Texts(bytes, cursor, checked)) ==
            match StoreText(cfg, shards, text, checked)
            case None => None
            case Some(mid) => StoreAll(cfg, mid, Texts(bytes, cursor + Padded(len), checked))
  {
    hide Word32, ValidUtf8, Store;
    var len := Word32(bytes[cursor..cursor + 4]);
    var text := bytes[cursor + 4..cursor + 4 + len];
    var rest := Texts(bytes, cursor + Padded(len), checked);
    if !checked || ValidUtf8(text) {
      StoreFirst(cfg, shards, text, rest);
    } else {
      assert Texts(bytes, cursor, checked) == rest;
    }
  }

  lemma TextsEnd(cfg: Config, shards: Shards, bytes: seq<Byte>, cursor: nat, checked: bool)
    requires Configured(cfg) && |shards| == cfg.count
    requires cursor + 4 <= |bytes| ==> cursor + 4 + Word32(bytes[cursor..cursor + 4]) > |bytes|
    ensures StoreAll(cfg, shards, Texts(bytes, cursor, checked)) == Some(shards)
  {
  }

  method InsertText(interner: StringInterner, text: Str, checked: bool) returns (ok: bool)
    requires interner.Valid() && |text| < MAX_LEN
    modifies interner, interner.pool`cursors, interner.pool`poisoned, interner.pool`records, interner.pool.data
    ensures ok <==> StoreText(interner.Cfg(), old(interner.Shards()), text, checked).Some?
    ensures ok ==> interner.Valid()
                   && Some(interner.Shards()) == StoreText(interner.Cfg(), old(interner.Shards()), text, checked)
  {
    ok := true;
    if !checked || ValidUtf8(text) {
      var symbol := interner.InsertUnique(text);
      ok := symbol.Some?;
    }
  }

  /** No record from `pos` on has a length from which the record size would wrap. */
  ghost predicate ShortRecords(bytes: seq<Byte>, pos: nat) {
    forall v | v in Texts(bytes, pos, false) :: |v| < MAX_LEN
  }

  lemma ShortStep(bytes: seq<Byte>, pos: nat)
    requires ShortRecords(bytes, pos) && pos + 4 <= |bytes|
    requires pos + 4 + Word32(bytes[pos..pos + 4]) <= |bytes|
    ensures Word32(bytes[pos..pos + 4]) < MAX_LEN
    ensures ShortRecords(bytes, pos + Padded(Word32(bytes[pos..pos + 4])))
  {
    hide Word32, ValidUtf8, Padded;
    var len := Word32(bytes[pos..pos + 4]);
    var all := Texts(bytes, pos, false);
    assert all == [bytes[pos + 4..pos + 4 + len]] + Texts(bytes, pos + Padded(len), false);
    assert all[0] in all;
  }

  lemma {:induction false} SmallIsShort(bytes: seq<Byte>, pos: nat)
    requires |bytes| < MAX_LEN
    ensures ShortRecords(bytes, pos)
    decreases |bytes| - pos
  {
    hide Word32;
    if pos + 4 <= |bytes| && pos + 4 + Word32(bytes[pos..pos + 4]) <= |bytes| {
      SmallIsShort(bytes, pos + Padded(Word32(bytes[pos..pos + 4])));
    }
  }

  /** The reading loop of `from_bytes` and `from_bytes_unchecked`. */
  method Load(interner: StringInterner, bytes: seq<Byte>, checked: bool) returns (ok: bool)
    requires interner.Valid() && ShortRecords(bytes, 4)
    modifies interner, interner.pool`cursors, interner.pool`poisoned, interner.pool`records, interner.pool.data
    ensures ok <==> StoreAll(interner.Cfg(), old(interner.Shards()), Texts(bytes, 4, checked)).Some?
    ensures ok ==> interner.Valid()
                   && Some(interner.Shards())
                      == StoreAll(interner.Cfg(), old(interner.Shards()), Texts(bytes, 4, checked))
  {
    hide Word32, StoreText, Padded, Texts, StoreAll, ShortRecords;
    ghost var cfg, goal := interner.Cfg(), StoreAll(interner.Cfg(), interner.Shards(), Texts(bytes, 4, checked));
    var cursor := 4;
    while cursor + 4 <= |bytes|
      invariant interner.Valid() && ShortRecords(bytes, cursor)
      invariant StoreAll(cfg, interner.Shards(), Texts(bytes, cursor, checked)) == goal
      decreases |bytes| - cursor
    {
      var len := Word32(bytes[cursor..cursor + 4]);
      if cursor + 4 + len > |bytes| {
        break;
      }
      ShortStep(bytes, cursor);
      TextsStep(cfg, interner.Shards(), bytes, cursor, checked);
      ok := InsertText(interner, bytes[cursor + 4..cursor + 4 + len], checked);
      if !ok {
        return;
      }
      cursor := cursor + PaddedSize(len as u32) as nat;
    }
    TextsEnd(cfg, interner.Shards(), bytes, cursor, checked);
    ok := true;
  }

  /**
    `from_bytes`, and with `checked` false `from_bytes_unchecked`; `None` is a panic
    on the way. The requirement is the assertion of `alloc`, for every record.
   */
  method FromBytes(hash: Str -> nat, bytes: seq<Byte>, checked: bool) returns (r: Option<StringInterner>)
    requires ShortRecords(bytes, 4)
    ensures r.Some? <==> Rebuild(hash, bytes, checked).Some?
    ensures r.Some? ==> fresh(r.value) && r.value.Valid() && Some(r.value.Shards()) == Rebuild(hash, bytes, checked)
    ensures r.Some? ==> r.value.Cfg() == Standard(HeaderCount(bytes), hash)
  {
    var requested := DEFAULT_COUNT;
    if |bytes| >= 4 {
      requested := Word32(bytes[..4]);
    }
    var interner := new StringInterner(requested, hash);
    if |bytes| <= 4 {
      return Some(interner);
    }
    var ok := Load(interner, bytes, checked);
    r := if ok then Some(interner) else None;
  }

  /** Writing a snapshot of a well-formed interner and reading it back restores all of it. */
  method Reload(interner: StringInterner, checked: bool) returns (copy: StringInterner)
    requires interner.Valid() && WellFormed(interner.Cfg(), interner.Shards())
    requires interner.Cfg() == Standard(interner.Cfg().count, interner.hash)
    ensures fresh(copy) && copy.Valid() && copy.Cfg() == interner.Cfg() && copy.Shards() == interner.Shards()
  {
    var bytes := interner.SnapshotBytes();
    SnapshotRoundTrip(interner.Cfg(), interner.Shards(), bytes, checked);
    SnapshotSmall(interner.Cfg(), interner.Shards(), |interner.Shards()|);
    assert interner.Shards()[..|interner.Shards()|] == interner.Shards();
    SmallIsShort(bytes, 4);
    var r := FromBytes(interner.hash, bytes, checked);
    copy := r.value;
  }

  /** A snapshot is no longer than the arena. */
  lemma {:induction false} SnapshotSmall(cfg: Config, shards: Shards, s: nat)
    requires WellFormed(cfg, shards) && s <= |shards|
    ensures 4 + Size(Flatten(shards[..s])) <= Base(cfg, s)
    ensures Base(cfg, cfg.count) < U32_SIZE
  {
    if s > 0 {
      SnapshotSmall(cfg, shards, s - 1);
      assert shards[..s][..s - 1] == shards[..s - 1] && shards[..s][s - 1] == shards[s - 1];
      OffConcat(Flatten(shards[..s - 1]), shards[s - 1], |shards[s - 1]|);
      assert ShardFits(cfg, shards[s - 1]);
    }
  }
}
