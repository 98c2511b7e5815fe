/**
  Safety of the concurrent interner over whole runs: one symbol per string, one
  string per symbol, symbols that resolve for ever, whole strings from lock-free
  reads, and snapshots that decode to a past state of every shard.
 */
module ConcurrentSafety {
  import opened Bytes
  import opened Records
  import opened Symbols
  import opened InternerModel
  import opened ConcurrentInterner
  import opened ConcurrentShard

  /** `v` is string `k` of shard `i`, findable under `symbol`, its text at `text`. */
  ghost predicate InternedAs(cfg: Config, shards: seq<Shard>, i: nat, k: nat, v: Str, symbol: nat, text: nat) {
    Configured(cfg) && i < |shards| && EnteredAs(cfg, i, shards[i], k, v, symbol, text)
  }

  ghost predicate Interned(cfg: Config, shards: seq<Shard>, v: Str, symbol: nat) {
    || (IsStatic(v) && symbol == StaticSymbol(v))
    || exists i, k, text :: InternedAs(cfg, shards, i, k, v, symbol, text)
  }

  // ----- the cache

  /** The cell was filled for string `v`, which is string `k` of shard `i`. */
  ghost predicate CellDescribes(cfg: Config, m: bool, shards: seq<Shard>, cell: Cell, i: nat, k: nat, v: Str) {
    && Configured(cfg) && i < |shards| && k < |shards[i].strings|
    && var text := Offset(cfg, i, shards[i].strings, k) + 4;
       && InternedAs(cfg, shards, i, k, v, cell.symbol, text)
       && cell.offset == CachedOffset(m, text)
       && cell.hash == cfg.hash(v) % U32_SIZE && cell.len == |v| && cell.prefix == Prefix8(v)
  }

  /** Every cell of this interner describes a string that is interned. */
  ghost predicate CacheOk(cfg: Config, m: bool, id: nat, shards: seq<Shard>, cache: Cache) {
    forall n | 0 <= n < CACHE_SIZE && cache[n].id == id ::
      exists i, k, v :: CellDescribes(cfg, m, shards, cache[n], i, k, v)
  }

  /** The one other string whose record a probe for `v`, reading four bytes too far, can take for `v`. */
  function Shifted(v: Str): Str
    requires |v| > 8
  {
    v[..4] + v[..|v| - 4]
  }

  /**
    The values for which a cache hit is always right: those of up to eight bytes,
    and longer ones unless bytes 0..4 and 4..8 agree and shifting the value by
    four gives another valid string.
   */
  predicate CacheSafe(v: Str) {
    |v| <= 8 || v[..4] != v[4..8] || Shifted(v) == v || !ValidUtf8(Shifted(v))
  }

  /**
    The cache cannot take another string for `v`: the value is safe, or the hashes
    tell the two apart, or no region has room for either, or the cache is mended.
   */
  predicate Trusted(cfg: Config, m: bool, v: Str) {
    m || CacheSafe(v) || cfg.hash(v) % U32_SIZE != cfg.hash(Shifted(v)) % U32_SIZE || Padded(|v|) > cfg.region
  }

  lemma StorableLength(v: Str)
    requires !IsStatic(v) && ValidUtf8(v)
    ensures |v| >= 2
  {
  }

  /** If both the prefix and the misplaced comparison accept, the cached string is the shifted value. */
  lemma MisreadString(mem: seq<Byte>, text: nat, w: Str, v: Str)
    requires |v| == |w| > 8 && Prefix8(v) == Prefix8(w)
    requires text + 4 + |v| <= |mem| && mem[text..text + |w|] == w && mem[text + 4..text + 4 + |v|] == v
    ensures w == Shifted(v) && v[..4] == v[4..8]
  {
    PrefixOfLong(v, w);
    var n := |v|;
    assert forall k | 0 <= k < 4 :: w[k] == w[..8][k] == v[..8][k] == v[k];
    forall j | 0 <= j < n - 4 ensures w[j + 4] == v[j] {
      assert w[j + 4] == mem[text..text + n][j + 4] == mem[text + 4 + j];
      assert v[j] == mem[text + 4..text + 4 + n][j];
    }
    assert v[4..8] == v[..8][4..] == w[..8][4..] == w[4..8] == v[..4];
  }

  /** The string behind a cell that a probe for a trusted `v` accepts is `v`. */
  lemma CellString(cfg: Config, m: bool, mem: seq<Byte>, i: nat, sh: Shard, k: nat, w: Str, text: nat, v: Str)
    requires ShardOk(cfg, mem, i, sh) && k < |sh.strings| && sh.strings[k] == w
    requires text == Offset(cfg, i, sh.strings, k) + 4
    requires |v| == |w| && Prefix8(v) == Prefix8(w) && cfg.hash(v) % U32_SIZE == cfg.hash(w) % U32_SIZE
    requires Trusted(cfg, m, v)
    requires var p := CachedOffset(m, text) + 4; |v| <= 8 || (p + |v| <= |mem| && mem[p..p + |v|] == v)
    ensures w == v
  {
    hide Prefix8, Word32, ValidUtf8, SlotsOk, EntriesOk, PhaseOk, Base;
    assert ShardStrings(cfg, i, sh.strings) && Belongs(cfg, i, sh.strings[k]);
    if |v| <= 8 {
      StorableLength(w);
      PrefixDetermines(v, w);
    } else {
      ReadsBack(cfg, mem, i, sh, k);
      OffMonotone(sh.strings, k, |sh.strings|);
      if !m { MisreadString(mem, text, w, v); }
    }
  }

  /** A cache hit for a trusted value names that value. */
  lemma ProbeSound(cfg: Config, m: bool, mem: seq<Byte>, shards: seq<Shard>, cache: Cache, id: nat, v: Str, symbol: nat)
    requires Configured(cfg) && |shards| == cfg.count
    requires forall i | 0 <= i < |shards| :: ShardOk(cfg, mem, i, shards[i])
    requires CacheOk(cfg, m, id, shards, cache) && Storable(v)
    requires ProbeCache(mem, cache, id, cfg.hash(v), v) == Some(symbol)
    requires Trusted(cfg, m, v)
    ensures Interned(cfg, shards, v, symbol)
  {
    hide Prefix8, Candidate, Trusted, ShardOk, Base;
    var cell := Candidate(cache, id, cfg.hash(v), v).value;
    var n :| 0 <= n < CACHE_SIZE && cache[n] == cell;
    var i: nat, k: nat, w: Str :| CellDescribes(cfg, m, shards, cell, i, k, w);
    var text := Offset(cfg, i, shards[i].strings, k) + 4;
    CellString(cfg, m, mem, i, shards[i], k, w, text, v);
    assert InternedAs(cfg, shards, i, k, v, symbol, text);
  }

  // ----- the whole state

  ghost predicate StoredAt(cfg: Config, shards: seq<Shard>, i: nat, k: nat, offset: nat) {
    && Configured(cfg) && i < |shards| && k < Stored(shards[i])
    && offset == Offset(cfg, i, shards[i].strings, k)
  }

  /** The strings of shard `i` that a snapshot has fixed, or may still fix. */
  function Reachable(shards: seq<Shard>, taken: seq<seq<Str>>, i: nat): seq<Str>
    requires i < |shards|
  {
    if i < |taken| then taken[i] else shards[i].strings
  }

  ghost predicate KnownAt(shards: seq<Shard>, taken: seq<seq<Str>>, i: nat, k: nat, v: Str, symbol: nat) {
    && i < |shards| && k < INDEX_LIMIT && symbol == Pack(i, k)
    && k < |Reachable(shards, taken, i)| && Reachable(shards, taken, i)[k] == v
  }

  /** Every symbol returned before the snapshot began is within its reach. */
  ghost predicate KnownOk(cfg: Config, m: bool, shards: seq<Shard>, taken: seq<seq<Str>>, known: set<(Str, nat)>) {
    forall r | r in known && Trusted(cfg, m, r.0) ::
      (IsStatic(r.0) && r.1 == StaticSymbol(r.0)) || exists i, k :: KnownAt(shards, taken, i, k, r.0, r.1)
  }

  ghost predicate TakenOk(cfg: Config, m: bool, shards: seq<Shard>, taken: seq<seq<Str>>, known: set<(Str, nat)>) {
    && |taken| <= |shards|
    && (forall j | 0 <= j < |taken| :: taken[j] <= shards[j].strings)
    && KnownOk(cfg, m, shards, taken, known)
  }

  ghost predicate UsedOk(used: seq<nat>, taken: seq<seq<Str>>) {
    |used| == |taken| && forall j | 0 <= j < |taken| :: used[j] == Size(taken[j])
  }

  ghost predicate PcOk(cfg: Config, m: bool, shards: seq<Shard>, pc: Pc) {
    match pc
    case Probe(v, _) => Storable(v)
    case Lookup(v, _) => Storable(v)
    case Reading(v, _) => Storable(v)
    case Missed(v) => Storable(v)
    case Writing(v) => Storable(v)
    case Fill(v, symbol, text) => Storable(v) && exists i, k :: InternedAs(cfg, shards, i, k, v, symbol, text)
    case ResolveText(i, k, offset) => StoredAt(cfg, shards, i, k, offset)
    case Resolved(i, k, view) =>
      view.Some? ==> view.value.text >= 4 && StoredAt(cfg, shards, i, k, view.value.text - 4)
                     && view.value.len == |shards[i].strings[k]|
    case SnapCursors(used, taken, known) => TakenOk(cfg, m, shards, taken, known) && UsedOk(used, taken)
    case SnapCopy(used, taken, known, next, out) =>
      && TakenOk(cfg, m, shards, taken, known) && UsedOk(used, taken)
      && |taken| == |shards| == cfg.count
      && next <= |taken|
      && |out| == 4 + Size(Flatten(taken[..next])) && Word32(out[..4]) == cfg.count
      && HoldsAt(out, 4, Flatten(taken[..next]))
    case Snapped(taken, known, out) =>
      TakenOk(cfg, m, shards, taken, known) && |taken| == |shards| == cfg.count && IsSnapshot(out, taken)
    case _ => true
  }

  ghost predicate ReturnedOk(cfg: Config, m: bool, shards: seq<Shard>, returned: set<(Str, nat)>) {
    forall r | r in returned && Trusted(cfg, m, r.0) :: Interned(cfg, shards, r.0, r.1)
  }

  ghost predicate ThreadOk(cfg: Config, m: bool, id: nat, shards: seq<Shard>, th: Thread) {
    PcOk(cfg, m, shards, th.pc) && CacheOk(cfg, m, id, shards, th.cache)
  }

  ghost predicate ShardsOk(cfg: Config, mem: seq<Byte>, shards: seq<Shard>) {
    forall i | 0 <= i < |shards| :: ShardOk(cfg, mem, i, shards[i])
  }

  ghost predicate Inv(cfg: Config, s: State) {
    && Shape(cfg, s)
    && s.id > 0
    && Word32(s.mem[..4]) == cfg.count
    && ShardsOk(cfg, s.mem, s.shards)
    && (forall t | 0 <= t < |s.threads| :: ThreadOk(cfg, s.mended, s.id, s.shards, s.threads[t]))
    && ReturnedOk(cfg, s.mended, s.shards, s.returned)
  }

  // ----- what growth keeps

  ghost predicate AllGrow(shards: seq<Shard>, shards': seq<Shard>) {
    |shards'| == |shards| && forall i | 0 <= i < |shards| :: Grows(shards[i], shards'[i])
  }

  lemma OffsetStable(cfg: Config, i: nat, vs: seq<Str>, vs': seq<Str>, k: nat)
    requires Configured(cfg) && vs <= vs' && k <= |vs|
    ensures Offset(cfg, i, vs', k) == Offset(cfg, i, vs, k)
  {
    assert vs'[..k] == vs[..k];
    OffAgrees(vs', vs, k);
  }

  lemma InternedAsStable(cfg: Config, shards: seq<Shard>, shards': seq<Shard>, i: nat, k: nat, v: Str, symbol: nat,
                         text: nat)
    requires AllGrow(shards, shards') && InternedAs(cfg, shards, i, k, v, symbol, text)
    ensures InternedAs(cfg, shards', i, k, v, symbol, text)
  {
    OffsetStable(cfg, i, shards[i].strings, shards'[i].strings, k);
  }

  lemma InternedStable(cfg: Config, shards: seq<Shard>, shards': seq<Shard>, v: Str, symbol: nat)
    requires AllGrow(shards, shards') && Interned(cfg, shards, v, symbol)
    ensures Interned(cfg, shards', v, symbol)
  {
    if !(IsStatic(v) && symbol == StaticSymbol(v)) {
      var i, k, text :| InternedAs(cfg, shards, i, k, v, symbol, text);
      InternedAsStable(cfg, shards, shards', i, k, v, symbol, text);
    }
  }

  lemma CacheStable(cfg: Config, m: bool, id: nat, shards: seq<Shard>, shards': seq<Shard>, cache: Cache)
    requires AllGrow(shards, shards') && CacheOk(cfg, m, id, shards, cache)
    ensures CacheOk(cfg, m, id, shards', cache)
  {
    forall n | 0 <= n < CACHE_SIZE && cache[n].id == id
      ensures exists i, k, v :: CellDescribes(cfg, m, shards', cache[n], i, k, v)
    {
      var i: nat, k: nat, v: Str :| CellDescribes(cfg, m, shards, cache[n], i, k, v);
      var text := Offset(cfg, i, shards[i].strings, k) + 4;
      InternedAsStable(cfg, shards, shards', i, k, v, cache[n].symbol, text);
      OffsetStable(cfg, i, shards[i].strings, shards'[i].strings, k);
      assert CellDescribes(cfg, m, shards', cache[n], i, k, v);
    }
  }

  lemma TakenStable(cfg: Config, m: bool, shards: seq<Shard>, shards': seq<Shard>, taken: seq<seq<Str>>,
                    known: set<(Str, nat)>)
    requires AllGrow(shards, shards') && TakenOk(cfg, m, shards, taken, known)
    ensures TakenOk(cfg, m, shards', taken, known)
  {
    forall r | r in known && Trusted(cfg, m, r.0) && !(IsStatic(r.0) && r.1 == StaticSymbol(r.0))
      ensures exists i, k :: KnownAt(shards', taken, i, k, r.0, r.1)
    {
      var i: nat, k: nat :| KnownAt(shards, taken, i, k, r.0, r.1);
      assert Grows(shards[i], shards'[i]);
      assert KnownAt(shards', taken, i, k, r.0, r.1);
    }
    forall j | 0 <= j < |taken| ensures taken[j] <= shards'[j].strings {
      assert Grows(shards[j], shards'[j]);
    }
  }

  lemma PcStable(cfg: Config, m: bool, shards: seq<Shard>, shards': seq<Shard>, pc: Pc)
    requires AllGrow(shards, shards') && PcOk(cfg, m, shards, pc)
    ensures PcOk(cfg, m, shards', pc)
  {
    match pc
    case Fill(v, symbol, text) =>
      var i, k :| InternedAs(cfg, shards, i, k, v, symbol, text);
      InternedAsStable(cfg, shards, shards', i, k, v, symbol, text);
    case ResolveText(i, k, offset) =>
      OffsetStable(cfg, i, shards[i].strings, shards'[i].strings, k);
    case Resolved(i, k, view) =>
      if view.Some? { OffsetStable(cfg, i, shards[i].strings, shards'[i].strings, k); }
    case SnapCursors(used, taken, known) => TakenStable(cfg, m, shards, shards', taken, known);
    case SnapCopy(used, taken, known, next, out) => TakenStable(cfg, m, shards, shards', taken, known);
    case Snapped(taken, known, out) => TakenStable(cfg, m, shards, shards', taken, known);
    case _ =>
  }

  lemma ReturnedStable(cfg: Config, m: bool, shards: seq<Shard>, shards': seq<Shard>, returned: set<(Str, nat)>)
    requires AllGrow(shards, shards') && ReturnedOk(cfg, m, shards, returned)
    ensures ReturnedOk(cfg, m, shards', returned)
  {
    forall r | r in returned && Trusted(cfg, m, r.0) ensures Interned(cfg, shards', r.0, r.1) {
      InternedStable(cfg, shards, shards', r.0, r.1);
    }
  }

  /** A step by thread `t` is safe if its own position, its shard and its result are. */
  lemma Compose(cfg: Config, s: State, s': State, t: nat)
    requires Inv(cfg, s) && t < |s.threads|
    requires Shape(cfg, s') && s'.id == s.id && s'.mended == s.mended && s'.mem[..4] == s.mem[..4]
    requires AllGrow(s.shards, s'.shards) && ShardsOk(cfg, s'.mem, s'.shards)
    requires |s'.threads| == |s.threads|
    requires forall u | 0 <= u < |s.threads| && u != t :: s'.threads[u] == s.threads[u]
    requires ThreadOk(cfg, s.mended, s.id, s'.shards, s'.threads[t])
    requires forall r | r in s'.returned && r !in s.returned && Trusted(cfg, s.mended, r.0) ::
             Interned(cfg, s'.shards, r.0, r.1)
    ensures Inv(cfg, s')
  {
    ReturnedStable(cfg, s.mended, s.shards, s'.shards, s.returned * s'.returned);
    forall u | 0 <= u < |s'.threads| ensures ThreadOk(cfg, s.mended, s.id, s'.shards, s'.threads[u]) {
      if u != t {
        PcStable(cfg, s.mended, s.shards, s'.shards, s.threads[u].pc);
        CacheStable(cfg, s.mended, s.id, s.shards, s'.shards, s.threads[u].cache);
      }
    }
  }

  // ----- every step

  /** A step that touches no shard and returns nothing. */
  lemma LocalStep(cfg: Config, s: State, t: nat, pc: Pc)
    requires Inv(cfg, s) && t < |s.threads| && PcOk(cfg, s.mended, s.shards, pc)
    ensures Inv(cfg, At(s, t, pc)) && AllGrow(s.shards, At(s, t, pc).shards)
  {
    Compose(cfg, s, At(s, t, pc), t);
  }

  lemma ReturnStep(cfg: Config, s: State, t: nat, v: Str, symbol: nat)
    requires Inv(cfg, s) && t < |s.threads|
    requires Trusted(cfg, s.mended, v) ==> Interned(cfg, s.shards, v, symbol)
    ensures Inv(cfg, Return(s, t, v, symbol)) && AllGrow(s.shards, Return(s, t, v, symbol).shards)
  {
    Compose(cfg, s, Return(s, t, v, symbol), t);
  }

  /** A step that replaces one shard, in unchanged memory. */
  lemma ShardStep(cfg: Config, s: State, t: nat, i: nat, sh: Shard, pc: Pc)
    requires Inv(cfg, s) && t < |s.threads| && i < |s.shards|
    requires ShardOk(cfg, s.mem, i, sh) && Grows(s.shards[i], sh)
    requires PcOk(cfg, s.mended, s.shards[i := sh], pc)
    ensures var s' := At(WithShard(s, i, sh), t, pc); Inv(cfg, s') && AllGrow(s.shards, s'.shards)
  {
    var s' := At(WithShard(s, i, sh), t, pc);
    assert AllGrow(s.shards, s'.shards);
    CacheStable(cfg, s.mended, s.id, s.shards, s'.shards, s.threads[t].cache);
    Compose(cfg, s, s', t);
  }

  lemma StepProbe(cfg: Config, s: State, t: nat)
    requires Inv(cfg, s) && t < |s.threads| && s.threads[t].pc.Probe?
    ensures var s' := StepThread(cfg, s, t).value; Inv(cfg, s') && AllGrow(s.shards, s'.shards)
  {
    var v := s.threads[t].pc.value;
    assert ThreadOk(cfg, s.mended, s.id, s.shards, s.threads[t]);
    match ProbeCache(s.mem, s.threads[t].cache, s.id, cfg.hash(v), v)
    case Some(symbol) =>
      if Trusted(cfg, s.mended, v) { ProbeSound(cfg, s.mended, s.mem, s.shards, s.threads[t].cache, s.id, v, symbol); }
      ReturnStep(cfg, s, t, v, symbol);
    case None => LocalStep(cfg, s, t, Lookup(v, s.threads[t].pc.insert));
  }

  lemma StepLookup(cfg: Config, s: State, t: nat)
    requires Inv(cfg, s) && t < |s.threads| && s.threads[t].pc.Lookup? && StepThread(cfg, s, t).Some?
    ensures var s' := StepThread(cfg, s, t).value; Inv(cfg, s') && AllGrow(s.shards, s'.shards)
  {
    var pc := s.threads[t].pc;
    assert ThreadOk(cfg, s.mended, s.id, s.shards, s.threads[t]);
    var i := ShardOf(cfg, pc.value);
    var sh := s.shards[i].(lock := Shared(s.shards[i].lock.readers + {t}));
    LockChange(cfg, s.mem, i, s.shards[i], sh);
    ShardStep(cfg, s, t, i, sh, Reading(pc.value, pc.insert));
  }

  lemma StepReading(cfg: Config, s: State, t: nat)
    requires Inv(cfg, s) && t < |s.threads| && s.threads[t].pc.Reading? && StepThread(cfg, s, t).Some?
    ensures var s' := StepThread(cfg, s, t).value; Inv(cfg, s') && AllGrow(s.shards, s'.shards)
  {
    hide ShardOk, CacheOk, ProbeCache, Work, FillSlot, StepRead, StepSnapshot, Prefix8, EntryMatches, Base;
    hide FindEntry, TextOf, ShardsOk, ReturnedOk, PcOk;
    var pc := s.threads[t].pc;
    var v := pc.value;
    assert ThreadOk(cfg, s.mended, s.id, s.shards, s.threads[t]);
    var i := ShardOf(cfg, v);
    var sh := s.shards[i].(lock := Shared(s.shards[i].lock.readers - {t}));
    ReadUnlocks(cfg, s, i, sh);
    ReadingOk(cfg, s.mended, s.mem, s.shards, pc);
    match FindEntry(cfg, s.mem, s.shards[i], v)
    case Some(e) =>
      FoundOk(cfg, s.mended, s.mem, s.shards, i, sh, v, e);
      ShardStep(cfg, s, t, i, sh, Fill(v, e.symbol, TextOf(s.shards[i], e.symbol)));
    case None =>
      MissOk(cfg, s.mended, s.shards[i := sh], v);
      ShardStep(cfg, s, t, i, sh, if pc.insert then Missed(v) else NotFound(v));
  }

  /** Releasing a read lock changes nothing else. */
  lemma ReadUnlocks(cfg: Config, s: State, i: nat, sh: Shard)
    requires Inv(cfg, s) && i < |s.shards| && s.shards[i].lock.Shared? && sh.lock.Shared?
    requires sh == s.shards[i].(lock := sh.lock)
    ensures ShardOk(cfg, s.mem, i, s.shards[i]) && ShardOk(cfg, s.mem, i, sh) && Grows(s.shards[i], sh)
  {
    hide ThreadOk, ReturnedOk, RegionOk, SlotsOk, EntriesOk;
    assert ShardOk(cfg, s.mem, i, s.shards[i]);
    LockChange(cfg, s.mem, i, s.shards[i], sh);
  }

  lemma ReadingOk(cfg: Config, m: bool, mem: seq<Byte>, shards: seq<Shard>, pc: Pc)
    requires pc.Reading? && PcOk(cfg, m, shards, pc)
    ensures Storable(pc.value)
  {
  }

  lemma MissOk(cfg: Config, m: bool, shards: seq<Shard>, v: Str)
    requires Storable(v)
    ensures PcOk(cfg, m, shards, Missed(v)) && PcOk(cfg, m, shards, NotFound(v))
  {
  }

  /** What the table answers is interned, before and after the lock is released. */
  lemma FoundOk(cfg: Config, m: bool, mem: seq<Byte>, shards: seq<Shard>, i: nat, sh: Shard, v: Str, e: Entry)
    requires i < |shards| && ShardOk(cfg, mem, i, shards[i]) && Storable(v) && ShardOk(cfg, mem, i, sh)
    requires shards[i].lock.Shared? && sh.lock.Shared? && sh == shards[i].(lock := sh.lock)
    requires FindEntry(cfg, mem, shards[i], v) == Some(e)
    ensures PcOk(cfg, m, shards[i := sh], Fill(v, e.symbol, TextOf(shards[i], e.symbol)))
  {
    hide RegionOk, SlotsOk, EntriesOk, EntryMatches, Prefix8, Base, FindEntry, TextOf;
    LookupMeaning(cfg, mem, i, shards[i], v);
    var text := TextOf(shards[i], e.symbol);
    var k: nat :| EnteredAs(cfg, i, shards[i], k, v, e.symbol, text);
    assert InternedAs(cfg, shards[i := sh], i, k, v, e.symbol, text);
  }

  lemma StepMissed(cfg: Config, s: State, t: nat)
    requires Inv(cfg, s) && t < |s.threads| && s.threads[t].pc.Missed? && StepThread(cfg, s, t).Some?
    ensures var s' := StepThread(cfg, s, t).value; Inv(cfg, s') && AllGrow(s.shards, s'.shards)
  {
    var v := s.threads[t].pc.value;
    var i := ShardOf(cfg, v);
    var sh := s.shards[i].(lock := Exclusive(t, v, Recheck));
    LockChange(cfg, s.mem, i, s.shards[i], sh);
    ShardStep(cfg, s, t, i, sh, Writing(v));
  }

  lemma InArena(cfg: Config, mem: seq<Byte>, j: nat, sh: Shard)
    requires ShardOk(cfg, mem, j, sh)
    ensures Base(cfg, j) + cfg.region <= |mem|
  {
    RegionBounds(cfg, j);
  }

  /** Writes stay in the writer's region, so no other shard notices. */
  lemma OthersUnmoved(cfg: Config, mem: seq<Byte>, mem': seq<Byte>, shards: seq<Shard>, i: nat, j: nat)
    requires Configured(cfg) && |shards| == cfg.count && i < |shards| && j < |shards| && i != j
    requires ShardOk(cfg, mem, j, shards[j]) && SameOutside(cfg, i, mem, mem')
    ensures ShardOk(cfg, mem', j, shards[j])
  {
    hide ShardOk, Configured;
    assert |mem'| == |mem| && Base(cfg, j) + cfg.region <= |mem| by { InArena(cfg, mem, j, shards[j]); }
    if i < j { BaseGap(cfg, i, j); } else { BaseGap(cfg, j, i); }
    var b := Base(cfg, j);
    hide Base;
    forall q | b <= q < b + cfg.region ensures mem'[q] == mem[q] {}
    assert mem[b..b + cfg.region] == mem'[b..b + cfg.region];
    ShardFrame(cfg, mem, mem', j, shards[j]);
  }

  lemma StepWriting(cfg: Config, s: State, t: nat)
    requires Inv(cfg, s) && t < |s.threads| && s.threads[t].pc.Writing? && StepThread(cfg, s, t).Some?
    ensures var s' := StepThread(cfg, s, t).value; Inv(cfg, s') && AllGrow(s.shards, s'.shards)
  {
    hide SlotsOk, EntriesOk, HoldsAt, Prefix8, CacheOk, Work, StepRead, StepSnapshot, ProbeCache, FindEntry, FillSlot,
         RegionOk;
    var v := s.threads[t].pc.value;
    var i := ShardOf(cfg, v);
    var sh := s.shards[i];
    assert ThreadOk(cfg, s.mended, s.id, s.shards, s.threads[t]);
    WorkKeeps(cfg, s.mem, i, sh);
    var o := Work(cfg, s.mem, i, sh).value;
    var s' := StepThread(cfg, s, t).value;
    assert AllGrow(s.shards, s'.shards);
    RegionBounds(cfg, i);
    assert s'.mem[..4] == s.mem[..4];
    forall j | 0 <= j < |s'.shards| ensures ShardOk(cfg, s'.mem, j, s'.shards[j]) {
      if j != i { OthersUnmoved(cfg, s.mem, o.mem, s.shards, i, j); }
    }
    if sh.lock.phase.Found? {
      var k: nat :| EnteredAs(cfg, i, sh, k, v, sh.lock.phase.symbol, sh.lock.phase.text);
      assert InternedAs(cfg, s.shards, i, k, v, sh.lock.phase.symbol, sh.lock.phase.text);
      InternedAsStable(cfg, s.shards, s'.shards, i, k, v, sh.lock.phase.symbol, sh.lock.phase.text);
    }
    CacheStable(cfg, s.mended, s.id, s.shards, s'.shards, s.threads[t].cache);
    Compose(cfg, s, s', t);
  }

  lemma StepFill(cfg: Config, s: State, t: nat)
    requires Inv(cfg, s) && t < |s.threads| && s.threads[t].pc.Fill?
    ensures var s' := StepThread(cfg, s, t).value; Inv(cfg, s') && AllGrow(s.shards, s'.shards)
  {
    hide ShardOk, Work, Prefix8;
    var pc, cache := s.threads[t].pc, s.threads[t].cache;
    assert ThreadOk(cfg, s.mended, s.id, s.shards, s.threads[t]);
    var i: nat, k: nat :| InternedAs(cfg, s.shards, i, k, pc.value, pc.symbol, pc.text);
    var s' := StepThread(cfg, s, t).value;
    var slot := FillSlot(cache, cfg.hash(pc.value));
    var cell := s'.threads[t].cache[slot];
    assert CellDescribes(cfg, s.mended, s.shards, cell, i, k, pc.value);
    assert CacheOk(cfg, s.mended, s.id, s.shards, s'.threads[t].cache) by {
      forall n | 0 <= n < CACHE_SIZE && s'.threads[t].cache[n].id == s.id
        ensures exists i, k, v :: CellDescribes(cfg, s.mended, s.shards, s'.threads[t].cache[n], i, k, v)
      {
        if n != slot { assert s'.threads[t].cache[n] == cache[n]; }
      }
    }
    Compose(cfg, s, s', t);
  }

  lemma StepResolveOffset(cfg: Config, s: State, t: nat)
    requires Inv(cfg, s) && t < |s.threads| && s.threads[t].pc.ResolveOffset?
    ensures var s' := StepThread(cfg, s, t).value; Inv(cfg, s') && AllGrow(s.shards, s'.shards)
  {
    var i, k := s.threads[t].pc.shard, s.threads[t].pc.index;
    if i < cfg.count && SlotValue(s.shards[i].chunks, k) != 0 {
      assert SlotsOk(cfg, i, s.shards[i]);
      LocalStep(cfg, s, t, ResolveText(i, k, SlotValue(s.shards[i].chunks, k)));
    } else {
      LocalStep(cfg, s, t, Resolved(i, k, None));
    }
  }

  /** The length and the chunk decide only where the read goes on. */
  lemma StepResolveFront(cfg: Config, s: State, t: nat)
    requires Inv(cfg, s) && t < |s.threads| && (s.threads[t].pc.ResolveLen? || s.threads[t].pc.ResolveChunk?)
    ensures var s' := StepThread(cfg, s, t).value; Inv(cfg, s') && AllGrow(s.shards, s'.shards)
  {
    hide ShardsOk, ThreadOk, ReturnedOk;
    var pc := StepThread(cfg, s, t).value.threads[t].pc;
    assert StepThread(cfg, s, t) == Some(At(s, t, pc));
    LocalStep(cfg, s, t, pc);
  }

  lemma StepResolved(cfg: Config, s: State, t: nat)
    requires Inv(cfg, s) && t < |s.threads| && s.threads[t].pc.Resolved?
    ensures var s' := StepThread(cfg, s, t).value; Inv(cfg, s') && AllGrow(s.shards, s'.shards)
  {
    hide ShardsOk, ThreadOk, ReturnedOk;
    LocalStep(cfg, s, t, Idle);
  }

  lemma StepResolveText(cfg: Config, s: State, t: nat)
    requires Inv(cfg, s) && t < |s.threads| && s.threads[t].pc.ResolveText?
    ensures StepThread(cfg, s, t).Some?
    ensures var s' := StepThread(cfg, s, t).value; Inv(cfg, s') && AllGrow(s.shards, s'.shards)
  {
    hide Word32;
    var i, k, offset := s.threads[t].pc.shard, s.threads[t].pc.index, s.threads[t].pc.offset;
    assert ThreadOk(cfg, s.mended, s.id, s.shards, s.threads[t]);
    assert ShardOk(cfg, s.mem, i, s.shards[i]);
    ReadsBack(cfg, s.mem, i, s.shards[i], k);
    LocalStep(cfg, s, t, Resolved(i, k, Some(View(offset + 4, Word32(s.mem[offset..offset + 4])))));
  }

  // ----- snapshots

  /** Fixing a shard at its present strings changes nothing that is within reach. */
  lemma TakeNext(cfg: Config, m: bool, shards: seq<Shard>, taken: seq<seq<Str>>, known: set<(Str, nat)>)
    requires TakenOk(cfg, m, shards, taken, known) && |taken| < |shards|
    ensures TakenOk(cfg, m, shards, taken + [shards[|taken|].strings], known)
  {
    var taken' := taken + [shards[|taken|].strings];
    forall r | r in known && Trusted(cfg, m, r.0) && !(IsStatic(r.0) && r.1 == StaticSymbol(r.0))
      ensures exists i, k :: KnownAt(shards, taken', i, k, r.0, r.1)
    {
      var i: nat, k: nat :| KnownAt(shards, taken, i, k, r.0, r.1);
      assert Reachable(shards, taken', i) == Reachable(shards, taken, i);
      assert KnownAt(shards, taken', i, k, r.0, r.1);
    }
  }

  /** Loading a shard's cursor fixes the strings it holds at that moment. */
  lemma StepSnapCursors(cfg: Config, s: State, t: nat)
    requires Inv(cfg, s) && t < |s.threads| && s.threads[t].pc.SnapCursors?
    ensures StepThread(cfg, s, t).Some?
    ensures var s' := StepThread(cfg, s, t).value; Inv(cfg, s') && AllGrow(s.shards, s'.shards)
  {
    hide Word32, TakenOk, ProbeCache, Work, FindEntry, FillSlot, StepRead, StepInterning, CacheOk, SlotsOk, EntriesOk,
         PhaseOk;
    var used, taken, known := s.threads[t].pc.used, s.threads[t].pc.taken, s.threads[t].pc.known;
    assert ThreadOk(cfg, s.mended, s.id, s.shards, s.threads[t]);
    if |used| < cfg.count {
      var sh := s.shards[|used|];
      assert ShardOk(cfg, s.mem, |used|, sh);
      TakeNext(cfg, s.mended, s.shards, taken, known);
      LocalStep(cfg, s, t, SnapCursors(used + [sh.cursor], taken + [sh.strings], known));
    } else {
      assert taken[..0] == [] && s.mem[..4][..4] == s.mem[..4];
      FixedAll(cfg, s.mended, s.shards, taken, known);
      LocalStep(cfg, s, t, SnapCopy(used, taken, known, 0, s.mem[..4]));
    }
  }

  lemma FixedAll(cfg: Config, m: bool, shards: seq<Shard>, taken: seq<seq<Str>>, known: set<(Str, nat)>)
    requires TakenOk(cfg, m, shards, taken, known)
    ensures |taken| <= |shards|
    ensures forall j | 0 <= j < |taken| :: taken[j] <= shards[j].strings
  {
  }

  /** Copying the fixed part of a region appends exactly the shard's fixed records. */
  lemma CopyRegion(out: seq<Byte>, done: seq<Str>, mem: seq<Byte>, b: nat, vs: seq<Str>, n: nat)
    requires |out| == 4 + Size(done) && HoldsAt(out, 4, done)
    requires HoldsAt(mem, b, vs) && n <= |vs| && b + Size(vs) <= |mem|
    ensures b + Size(vs[..n]) <= |mem|
    ensures var out' := out + mem[b..b + Size(vs[..n])];
            && |out'| == 4 + Size(done + vs[..n]) && out'[..4] == out[..4]
            && HoldsAt(out', 4, done + vs[..n])
  {
    HoldsPrefix(mem, b, vs, n);
    OffMonotone(vs, n, |vs|);
    CopyRun(out, done, mem, b, vs[..n]);
  }

  /** What the copy of one shard's fixed part adds to the records copied so far. */
  lemma SnapCopyShard(cfg: Config, mem: seq<Byte>, sh: Shard, next: nat, taken: seq<seq<Str>>, out: seq<Byte>)
    requires ShardOk(cfg, mem, next, sh) && next < |taken| && taken[next] <= sh.strings
    requires |out| == 4 + Size(Flatten(taken[..next])) && HoldsAt(out, 4, Flatten(taken[..next]))
    ensures var b, n := Base(cfg, next), Size(taken[next]);
            && b + n <= |mem|
            && var out' := out + mem[b..b + n];
               && |out'| == 4 + Size(Flatten(taken[..next + 1])) && out'[..4] == out[..4]
               && HoldsAt(out', 4, Flatten(taken[..next + 1]))
  {
    hide Word32, SlotsOk, EntriesOk, PhaseOk, HoldsAt, ShardStrings, Base, Off;
    RegionBounds(cfg, next);
    var n := |taken[next]|;
    assert taken[next] == sh.strings[..n];
    CopyRegion(out, Flatten(taken[..next]), mem, Base(cfg, next), sh.strings, n);
    assert taken[..next + 1][..next] == taken[..next] && taken[..next + 1][next] == taken[next];
  }

  lemma SnapCopyNext(cfg: Config, m: bool, mem: seq<Byte>, shards: seq<Shard>, pc: Pc)
    requires Configured(cfg) && |shards| == cfg.count && ShardsOk(cfg, mem, shards)
    requires pc.SnapCopy? && PcOk(cfg, m, shards, pc) && pc.next < |pc.used|
    ensures var b := Base(cfg, pc.next);
            && b + pc.used[pc.next] <= |mem|
            && PcOk(cfg, m, shards, pc.(next := pc.next + 1, out := pc.out + mem[b..b + pc.used[pc.next]]))
  {
    hide Word32, TakenOk, ShardOk, HoldsAt, Flatten, Base, Size, Configured;
    FixedAll(cfg, m, shards, pc.taken, pc.known);
    assert ShardOk(cfg, mem, pc.next, shards[pc.next]);
    SnapCopyShard(cfg, mem, shards[pc.next], pc.next, pc.taken, pc.out);
  }

  lemma SnapCopyDone(cfg: Config, m: bool, shards: seq<Shard>, pc: Pc)
    requires Configured(cfg) && |shards| == cfg.count
    requires pc.SnapCopy? && PcOk(cfg, m, shards, pc) && pc.next >= |pc.used|
    ensures PcOk(cfg, m, shards, Snapped(pc.taken, pc.known, pc.out))
  {
    assert pc.taken[..pc.next] == pc.taken;
  }

  lemma StepSnapCopy(cfg: Config, s: State, t: nat)
    requires Inv(cfg, s) && t < |s.threads| && s.threads[t].pc.SnapCopy?
    ensures StepThread(cfg, s, t).Some?
    ensures var s' := StepThread(cfg, s, t).value; Inv(cfg, s') && AllGrow(s.shards, s'.shards)
  {
    hide Word32, ShardsOk, TakenOk, UsedOk, HoldsAt, IsSnapshot, Flatten, StepRead, StepInterning, CacheOk, Base;
    var pc := s.threads[t].pc;
    assert ThreadOk(cfg, s.mended, s.id, s.shards, s.threads[t]);
    if pc.next < |pc.used| {
      SnapCopyNext(cfg, s.mended, s.mem, s.shards, pc);
      var b := Base(cfg, pc.next);
      LocalStep(cfg, s, t, pc.(next := pc.next + 1, out := pc.out + s.mem[b..b + pc.used[pc.next]]));
    } else {
      SnapCopyDone(cfg, s.mended, s.shards, pc);
      LocalStep(cfg, s, t, Snapped(pc.taken, pc.known, pc.out));
    }
  }

  lemma InterningKeeps(cfg: Config, s: State, t: nat)
    requires Inv(cfg, s) && t < |s.threads| && Interning(s.threads[t].pc) && StepThread(cfg, s, t).Some?
    ensures var s' := StepThread(cfg, s, t).value; Inv(cfg, s') && AllGrow(s.shards, s'.shards)
  {
    hide ShardOk, CacheOk, StepThread, Inv;
    match s.threads[t].pc
    case Probe(_, _) => StepProbe(cfg, s, t);
    case Lookup(_, _) => StepLookup(cfg, s, t);
    case Reading(_, _) => StepReading(cfg, s, t);
    case NotFound(_) => StepNotFound(cfg, s, t);
    case Missed(_) => StepMissed(cfg, s, t);
    case Writing(_) => StepWriting(cfg, s, t);
    case Fill(_, _, _) => StepFill(cfg, s, t);
  }

  lemma StepNotFound(cfg: Config, s: State, t: nat)
    requires Inv(cfg, s) && t < |s.threads| && s.threads[t].pc.NotFound?
    ensures StepThread(cfg, s, t).Some?
    ensures var s' := StepThread(cfg, s, t).value; Inv(cfg, s') && AllGrow(s.shards, s'.shards)
  {
    LocalStep(cfg, s, t, Idle);
  }

  lemma ReadKeeps(cfg: Config, s: State, t: nat)
    requires Inv(cfg, s) && t < |s.threads| && Reads(s.threads[t].pc) && StepThread(cfg, s, t).Some?
    ensures var s' := StepThread(cfg, s, t).value; Inv(cfg, s') && AllGrow(s.shards, s'.shards)
  {
    hide ShardOk, CacheOk, StepThread, Inv;
    match s.threads[t].pc
    case ResolveLen(_, _) => StepResolveFront(cfg, s, t);
    case ResolveChunk(_, _) => StepResolveFront(cfg, s, t);
    case ResolveOffset(_, _) => StepResolveOffset(cfg, s, t);
    case ResolveText(_, _, _) => StepResolveText(cfg, s, t);
    case Resolved(_, _, _) => StepResolved(cfg, s, t);
  }

  lemma SnapshotKeeps(cfg: Config, s: State, t: nat)
    requires Inv(cfg, s) && t < |s.threads| && Snapshotting(s.threads[t].pc)
    ensures StepThread(cfg, s, t).Some?
    ensures var s' := StepThread(cfg, s, t).value; Inv(cfg, s') && AllGrow(s.shards, s'.shards)
  {
    hide ShardOk, CacheOk, StepInterning, StepRead;
    match s.threads[t].pc
    case SnapCursors(_, _, _) => StepSnapCursors(cfg, s, t);
    case SnapCopy(_, _, _, _, _) => StepSnapCopy(cfg, s, t);
    case Snapped(_, _, _) => LocalStep(cfg, s, t, Idle);
  }

  lemma StepKeeps(cfg: Config, s: State, t: nat)
    requires Inv(cfg, s) && t < |s.threads| && StepThread(cfg, s, t).Some?
    ensures var s' := StepThread(cfg, s, t).value; Inv(cfg, s') && AllGrow(s.shards, s'.shards)
  {
    hide StepInterning, StepRead, StepSnapshot, ShardsOk, ThreadOk, ReturnedOk;
    if Interning(s.threads[t].pc) {
      InterningKeeps(cfg, s, t);
    } else if Reads(s.threads[t].pc) {
      ReadKeeps(cfg, s, t);
    } else {
      SnapshotKeeps(cfg, s, t);
    }
  }

  /** The start of a snapshot: everything returned so far is within reach. */
  lemma BeginSnapshot(cfg: Config, s: State, t: nat)
    requires Inv(cfg, s) && t < |s.threads|
    ensures PcOk(cfg, s.mended, s.shards, SnapCursors([], [], s.returned))
  {
    forall r | r in s.returned && Trusted(cfg, s.mended, r.0) && !(IsStatic(r.0) && r.1 == StaticSymbol(r.0))
      ensures exists i, k :: KnownAt(s.shards, [], i, k, r.0, r.1)
    {
      var i: nat, k: nat, text: nat :| InternedAs(cfg, s.shards, i, k, r.0, r.1, text);
      assert ShardOk(cfg, s.mem, i, s.shards[i]);
      assert KnownAt(s.shards, [], i, k, r.0, r.1);
    }
  }

  /** Another interner's cell says nothing about this one. */
  lemma ForeignKeeps(cfg: Config, s: State, t: nat, k: nat, cell: Cell)
    requires Inv(cfg, s) && Do(cfg, s, t, Foreign(k, cell)).Some?
    ensures var s' := Do(cfg, s, t, Foreign(k, cell)).value; Inv(cfg, s') && AllGrow(s.shards, s'.shards)
  {
    hide ShardOk, StepThread, PcOk;
    assert ThreadOk(cfg, s.mended, s.id, s.shards, s.threads[t]);
    var s' := Do(cfg, s, t, Foreign(k, cell)).value;
    assert CacheOk(cfg, s.mended, s.id, s.shards, s'.threads[t].cache);
    Compose(cfg, s, s', t);
  }

  lemma StepReturns(cfg: Config, s: State, t: nat)
    requires Shape(cfg, s) && t < |s.threads| && StepThread(cfg, s, t).Some?
    ensures var s' := StepThread(cfg, s, t).value; s.returned <= s'.returned && s'.mended == s.mended
  {
    hide ProbeCache, Work, FindEntry, FillSlot, SlotValue, Base, Configured;
  }

  /** Every move of every thread keeps the invariant, loses no string and forgets no answer. */
  lemma DoKeeps(cfg: Config, s: State, t: nat, m: Move)
    requires Inv(cfg, s) && Do(cfg, s, t, m).Some?
    ensures var s' := Do(cfg, s, t, m).value;
            Inv(cfg, s') && AllGrow(s.shards, s'.shards) && s.returned <= s'.returned && s'.mended == s.mended
  {
    hide StepThread, ShardOk, CacheOk;
    match m
    case Step =>
      StepKeeps(cfg, s, t);
      StepReturns(cfg, s, t);
    case Call(v, insert) =>
      if IsStatic(v) {
        ReturnStep(cfg, s, t, v, StaticSymbol(v));
      } else {
        LocalStep(cfg, s, t, Probe(v, insert));
      }
    case Resolving(symbol) => LocalStep(cfg, s, t, ResolveLen(ShardId(symbol), Index(symbol)));
    case Snapshot =>
      BeginSnapshot(cfg, s, t);
      LocalStep(cfg, s, t, SnapCursors([], [], s.returned));
    case Foreign(k, cell) => ForeignKeeps(cfg, s, t, k, cell);
  }
}
